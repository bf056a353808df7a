/**
 Prefixes as crates/bifrost-core/src/routage_windows.rs masks and compares
 them. An address is its bits, most significant first; `&` and `|` on the
 integers of the source are bitwise on these sequences.
 */
module PrefixesIp {
  import opened Commun

  type Bits = seq<bool>

  function Largeur(f: Famille): nat { match f case Ipv4 => 32 case Ipv6 => 128 }

  datatype IpNetBrut = IpNetBrut(famille: Famille, bits: Bits, longueur: nat)

  predicate EstPrefixe(n: IpNetBrut) { |n.bits| == Largeur(n.famille) && n.longueur <= Largeur(n.famille) }

  /** `IpNet`: its constructor refuses a length beyond the address. */
  type IpNet = n: IpNetBrut | EstPrefixe(n) witness IpNetBrut(Ipv4, seq(32, _ => false), 0)

  /** `MAX << (w - l)`, and zero for `l == 0`: `l` ones, then zeros. */
  function Masque(w: nat, l: nat): Bits { seq(w, i => i < l) }

  function Et(a: Bits, b: Bits): Bits
    requires |a| == |b|
  {
    seq(|a|, i requires 0 <= i < |a| == |b| => a[i] && b[i])
  }

  function Ou(a: Bits, b: Bits): Bits
    requires |a| == |b|
  {
    seq(|a|, i requires 0 <= i < |a| == |b| => a[i] || b[i])
  }

  function Masquer(n: IpNet): IpNet {
    IpNetBrut(n.famille, Et(n.bits, Masque(Largeur(n.famille), n.longueur)), n.longueur)
  }

  predicate Contient(exterieur: IpNet, interieur: IpNet) {
    && exterieur.famille == interieur.famille
    && interieur.longueur >= exterieur.longueur
    && Masquer(IpNetBrut(interieur.famille, interieur.bits, exterieur.longueur)) == Masquer(exterieur)
  }

  /** Address `x` of family `f` is in the prefix. */
  predicate Couvre(n: IpNet, x: Bits) { |x| == |n.bits| && x[..n.longueur] == n.bits[..n.longueur] }

  lemma MasquesEgaux(a: IpNet, b: IpNet)
    requires a.famille == b.famille && a.longueur == b.longueur
    ensures Masquer(a) == Masquer(b) <==> a.bits[..a.longueur] == b.bits[..b.longueur]
  {
    var l := a.longueur;
    if Masquer(a) == Masquer(b) {
      forall i | 0 <= i < l ensures a.bits[i] == b.bits[i] {
        assert Masquer(a).bits[i] == Masquer(b).bits[i];
      }
    }
    if a.bits[..l] == b.bits[..l] {
      forall i | 0 <= i < |a.bits| ensures Masquer(a).bits[i] == Masquer(b).bits[i] {
        if i < l {
          assert a.bits[..l][i] == b.bits[..l][i];
        }
      }
    }
  }

  /** Masking does not change which addresses a prefix covers. */
  lemma MasquerCouvre(n: IpNet, x: Bits)
    ensures Couvre(Masquer(n), x) <==> Couvre(n, x)
  {
  }

  /** Containment is inclusion of the address sets (RFC 4632, section 3.1). */
  lemma ContientEstInclusion(e: IpNet, i: IpNet)
    ensures Contient(e, i) <==> (e.famille == i.famille && forall x :: Couvre(i, x) ==> Couvre(e, x))
  {
    if e.famille == i.famille && i.longueur >= e.longueur {
      MasquesEgaux(IpNetBrut(i.famille, i.bits, e.longueur), e);
    }
    if Contient(e, i) {
      forall x | Couvre(i, x) ensures Couvre(e, x) {
        assert x[..e.longueur] == x[..i.longueur][..e.longueur];
        assert i.bits[..e.longueur] == i.bits[..i.longueur][..e.longueur];
      }
    }
    if e.famille == i.famille {
      if i.longueur < e.longueur {
        var x := AdresseHors(e, i);
      } else {
        assert Couvre(i, i.bits);
      }
    }
  }

  /** A shorter prefix is never inside a longer one. */
  lemma AdresseHors(e: IpNet, i: IpNet) returns (x: Bits)
    requires e.famille == i.famille && i.longueur < e.longueur
    ensures Couvre(i, x) && !Couvre(e, x)
  {
    var n := i.longueur;
    var y := i.bits[n := !i.bits[n]];
    assert y[..n] == i.bits[..n];
    assert i.bits[..e.longueur][n] != y[..e.longueur][n];
    x := if Couvre(e, i.bits) then y else i.bits;
  }

  /** Two prefixes that share an address are nested, the longer inside. */
  lemma AdresseCommune(a: IpNet, b: IpNet, x: Bits)
    requires a.famille == b.famille && Couvre(a, x) && Couvre(b, x) && a.longueur <= b.longueur
    ensures Contient(a, b)
  {
  }

  /** The directed broadcast of an IPv4 prefix of 1 to 30 bits. */
  function DiffusionDirigee(n: IpNet): Option<IpNet> {
    if n.famille == Ipv4 && 1 <= n.longueur <= 30
    then Some(IpNetBrut(Ipv4, Ou(n.bits, seq(32, i => i >= n.longueur)), 32))
    else None
  }

  /** It is the prefix's own last address: inside it, every host bit one. */
  lemma DiffusionEstLaDerniere(n: IpNet)
    requires DiffusionDirigee(n).Some?
    ensures var d := DiffusionDirigee(n).value;
            && Contient(n, d)
            && (forall i :: n.longueur <= i < 32 ==> d.bits[i])
            && forall x :: Couvre(n, x) && (forall i :: n.longueur <= i < 32 ==> x[i]) ==> x == d.bits
  {
  }

  /** Some address of the family is outside the prefix. */
  ghost predicate Partielle(n: IpNet) { exists x: Bits :: |x| == |n.bits| && !Couvre(n, x) }

  predicate TroisAdresses(n: IpNet, x: Bits, y: Bits, z: Bits) { Couvre(n, x) && Couvre(n, y) && Couvre(n, z) && x != y && x != z && y != z }

  /** There is room for a host beside the network and its broadcast. */
  ghost predicate ADeLaPlace(n: IpNet) { exists x: Bits, y: Bits, z: Bits :: TroisAdresses(n, x, y, z) }

  lemma PartielleSi(n: IpNet)
    ensures Partielle(n) <==> n.longueur > 0
  {
    if n.longueur > 0 {
      var x := n.bits[0 := !n.bits[0]];
      assert x[..n.longueur][0] != n.bits[..n.longueur][0];
    }
  }

  /** The bits of `n` with bit `k` changed. */
  function Changee(n: IpNet, k: nat): (r: Bits)
    requires k < |n.bits|
    ensures |r| == |n.bits| && r[k] != n.bits[k] && forall i :: 0 <= i < |r| && i != k ==> r[i] == n.bits[i]
  { n.bits[k := !n.bits[k]] }

  lemma ADeLaPlaceSi(n: IpNet)
    ensures ADeLaPlace(n) <==> n.longueur + 2 <= |n.bits|
  {
    var k := |n.bits| - 1;
    if n.longueur + 2 <= |n.bits| {
      var b, c := Changee(n, k), Changee(n, k - 1);
      assert n.bits[..n.longueur] == b[..n.longueur] == c[..n.longueur];
      assert TroisAdresses(n, n.bits, b, c);
    } else {
      forall x: Bits, y: Bits, z: Bits ensures !TroisAdresses(n, x, y, z) {
        if TroisAdresses(n, x, y, z) {
          DeuxAdresses(n, x);
          DeuxAdresses(n, y);
          DeuxAdresses(n, z);
        }
      }
    }
  }

  lemma DeuxAdresses(n: IpNet, x: Bits)
    requires n.longueur + 1 >= |n.bits| > 0 && Couvre(n, x)
    ensures x == n.bits || x == Changee(n, |n.bits| - 1)
  {
    var k := |n.bits| - 1;
    forall i | 0 <= i < k ensures x[i] == n.bits[i] {
      assert x[..n.longueur][i] == n.bits[..n.longueur][i];
    }
    if x[k] == n.bits[k] {
      assert x == n.bits;
    } else {
      assert x == Changee(n, k);
    }
  }

  /** A prefix has a directed broadcast exactly when it is IPv4, is not the whole
      space, whose last address is the limited broadcast, and has room for one. */
  lemma DiffusionAbsente(n: IpNet)
    ensures DiffusionDirigee(n).Some? <==> n.famille == Ipv4 && Partielle(n) && ADeLaPlace(n)
  {
    PartielleSi(n);
    ADeLaPlaceSi(n);
  }
}
