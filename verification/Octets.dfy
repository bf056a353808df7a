/**
 Addresses as the rtnetlink reader keeps them: bytes, network order. `Masquer`
 works byte by byte with shifts; its meaning is agreement on leading bits.
 */
module Octets {
  import opened Commun

  type Adresse = seq<bv8>

  /** The bytes of an address. */
  function LargeurDe(f: Famille): nat { match f case Ipv4 => 4 case Ipv6 => 16 }

  /** The number of network bits that fall in byte `i`. */
  function BitsDeLOctet(longueur: u8, i: nat): (n: nat)
    ensures n <= 8
  {
    if longueur <= i * 8 then 0
    else if longueur - i * 8 < 8 then longueur - i * 8 else 8
  }

  /** The `bits` leading ones of a byte, as a table; `MasqueEstUnDecalage`
      says it is the source's shift. */
  function MasqueDeLOctet(bits: nat): bv8
    requires bits <= 8
  {
    if bits == 0 then 0 else if bits == 1 then 0x80 else if bits == 2 then 0xc0
    else if bits == 3 then 0xe0 else if bits == 4 then 0xf0 else if bits == 5 then 0xf8
    else if bits == 6 then 0xfc else if bits == 7 then 0xfe else 0xff
  }

  lemma MasqueEstUnDecalage(bits: nat)
    requires 0 < bits <= 8
    ensures MasqueDeLOctet(bits) == (0xff as bv8) << (8 - bits)
  {
  }

  /** A byte with only its `bits` leading bits kept. */
  function MasquerOctet(o: bv8, bits: nat): bv8
    requires bits <= 8
  { o & MasqueDeLOctet(bits) }

  function Masquer(adresse: Adresse, longueur: u8): (r: Adresse)
    ensures |r| == |adresse|
  {
    seq(|adresse|, i requires 0 <= i < |adresse| => MasquerOctet(adresse[i], BitsDeLOctet(longueur, i)))
  }

  /** Bit `j` of a byte, most significant first. */
  predicate BitDeLOctet(o: bv8, j: nat)
    requires j < 8
  {
    o & (if j == 0 then 0x80 else if j == 1 then 0x40 else if j == 2 then 0x20 else if j == 3 then 0x10
         else if j == 4 then 0x08 else if j == 5 then 0x04 else if j == 6 then 0x02 else 0x01) != 0
  }

  /** Bit `k` of an address, most significant first. */
  predicate Bit(a: Adresse, k: nat)
    requires k < 8 * |a|
  {
    BitDeLOctet(a[k / 8], k % 8)
  }

  /** `a` and `b` are addresses of one width and agree on their first `longueur` bits. */
  ghost predicate MemePrefixe(a: Adresse, b: Adresse, longueur: nat) {
    |a| == |b| && forall k: nat :: k < longueur && k < 8 * |a| ==> Bit(a, k) == Bit(b, k)
  }

  ghost predicate MemesBits(o: bv8, q: bv8, n: nat)
    requires n <= 8
  {
    forall j: nat :: j < n ==> BitDeLOctet(o, j) == BitDeLOctet(q, j)
  }

  lemma MasqueVersBit(o: bv8, q: bv8, n: nat, j: nat)
    requires j < n <= 8
    requires o & MasqueDeLOctet(n) == q & MasqueDeLOctet(n)
    ensures BitDeLOctet(o, j) == BitDeLOctet(q, j)
  {
  }

  lemma MasqueEtBits(o: bv8, q: bv8, n: nat)
    requires n <= 8
    ensures o & MasqueDeLOctet(n) == q & MasqueDeLOctet(n) <==> (
         && (n > 0 ==> BitDeLOctet(o, 0) == BitDeLOctet(q, 0)) && (n > 1 ==> BitDeLOctet(o, 1) == BitDeLOctet(q, 1))
         && (n > 2 ==> BitDeLOctet(o, 2) == BitDeLOctet(q, 2)) && (n > 3 ==> BitDeLOctet(o, 3) == BitDeLOctet(q, 3))
         && (n > 4 ==> BitDeLOctet(o, 4) == BitDeLOctet(q, 4)) && (n > 5 ==> BitDeLOctet(o, 5) == BitDeLOctet(q, 5))
         && (n > 6 ==> BitDeLOctet(o, 6) == BitDeLOctet(q, 6)) && (n > 7 ==> BitDeLOctet(o, 7) == BitDeLOctet(q, 7)))
  {
  }

  lemma BitsVersMasque(o: bv8, q: bv8, n: nat)
    requires n <= 8
    requires MemesBits(o, q, n)
    ensures o & MasqueDeLOctet(n) == q & MasqueDeLOctet(n)
  {
    assert n > 0 ==> BitDeLOctet(o, 0) == BitDeLOctet(q, 0);
    assert n > 1 ==> BitDeLOctet(o, 1) == BitDeLOctet(q, 1);
    assert n > 2 ==> BitDeLOctet(o, 2) == BitDeLOctet(q, 2);
    assert n > 3 ==> BitDeLOctet(o, 3) == BitDeLOctet(q, 3);
    assert n > 4 ==> BitDeLOctet(o, 4) == BitDeLOctet(q, 4);
    assert n > 5 ==> BitDeLOctet(o, 5) == BitDeLOctet(q, 5);
    assert n > 6 ==> BitDeLOctet(o, 6) == BitDeLOctet(q, 6);
    assert n > 7 ==> BitDeLOctet(o, 7) == BitDeLOctet(q, 7);
    MasqueEtBits(o, q, n);
  }

  lemma OctetMasque(o: bv8, q: bv8, n: nat)
    requires n <= 8
    ensures o & MasqueDeLOctet(n) == q & MasqueDeLOctet(n) <==> MemesBits(o, q, n)
  {
    if o & MasqueDeLOctet(n) == q & MasqueDeLOctet(n) {
      forall j: nat | j < n ensures BitDeLOctet(o, j) == BitDeLOctet(q, j) {
        MasqueVersBit(o, q, n, j);
      }
    }
    if MemesBits(o, q, n) {
      BitsVersMasque(o, q, n);
    }
  }

  /** Masking byte by byte compares exactly the leading bits. */
  lemma MasquesEgaux(a: Adresse, b: Adresse, longueur: u8)
    ensures Masquer(a, longueur) == Masquer(b, longueur) <==> MemePrefixe(a, b, longueur)
  {
    if Masquer(a, longueur) == Masquer(b, longueur) {
      forall k: nat | k < longueur && k < 8 * |a| ensures Bit(a, k) == Bit(b, k) {
        var i := k / 8;
        assert Masquer(a, longueur)[i] == Masquer(b, longueur)[i];
        OctetMasque(a[i], b[i], BitsDeLOctet(longueur, i));
        assert k % 8 < BitsDeLOctet(longueur, i);
      }
    }
    if MemePrefixe(a, b, longueur) {
      forall i | 0 <= i < |a| ensures Masquer(a, longueur)[i] == Masquer(b, longueur)[i] {
        var n := BitsDeLOctet(longueur, i);
        forall j: nat | j < n ensures BitDeLOctet(a[i], j) == BitDeLOctet(b[i], j) {
          var k := 8 * i + j;
          assert k / 8 == i && k % 8 == j;
          assert Bit(a, k) == Bit(b, k);
        }
        OctetMasque(a[i], b[i], n);
      }
    }
  }

  /** A prefix within the first byte. */
  lemma PremierOctet(a: Adresse, b: Adresse, n: nat)
    requires |a| == |b| > 0 && n <= 8
    ensures MemePrefixe(a, b, n) <==> MemesBits(a[0], b[0], n)
  {
    hide BitDeLOctet;
    forall j: nat | j < n ensures Bit(a, j) == BitDeLOctet(a[0], j) && Bit(b, j) == BitDeLOctet(b[0], j) {
      assert j / 8 == 0 && j % 8 == j;
    }
    if MemePrefixe(a, b, n) {
      forall j: nat | j < n ensures BitDeLOctet(a[0], j) == BitDeLOctet(b[0], j) {
        assert Bit(a, j) == Bit(b, j);
      }
    }
  }

  /** A byte with the bits past its `bits` leading ones set. */
  function RemplirOctet(o: bv8, bits: nat): bv8
    requires bits <= 8
  { o | !MasqueDeLOctet(bits) }

  /** The last address of a network: the bits past the prefix are ones. */
  function Derniere(adresse: Adresse, longueur: u8): (r: Adresse)
    ensures |r| == |adresse|
  {
    seq(|adresse|, i requires 0 <= i < |adresse| => RemplirOctet(adresse[i], BitsDeLOctet(longueur, i)))
  }

  lemma OctetDerniere(o: bv8, n: nat)
    requires n <= 8
    ensures MasquerOctet(RemplirOctet(o, n), n) == MasquerOctet(o, n)
    ensures MasquerOctet(MasquerOctet(o, n), n) == MasquerOctet(o, n)
  {
  }

  lemma ExtremesEn(a: Adresse, longueur: u8, i: nat)
    requires i < |a|
    ensures Masquer(Masquer(a, longueur), longueur)[i] == Masquer(a, longueur)[i]
    ensures Masquer(Derniere(a, longueur), longueur)[i] == Masquer(a, longueur)[i]
  {
    hide MasquerOctet, RemplirOctet, BitsDeLOctet;
    OctetDerniere(a[i], BitsDeLOctet(longueur, i));
  }

  /** The first and the last address of a network are addresses of it. */
  lemma ExtremesDuReseau(a: Adresse, longueur: u8)
    ensures Masquer(Masquer(a, longueur), longueur) == Masquer(a, longueur)
    ensures Masquer(Derniere(a, longueur), longueur) == Masquer(a, longueur)
  {
    hide Masquer, Derniere;
    forall i | 0 <= i < |a|
      ensures Masquer(Masquer(a, longueur), longueur)[i] == Masquer(a, longueur)[i]
      ensures Masquer(Derniere(a, longueur), longueur)[i] == Masquer(a, longueur)[i]
    {
      ExtremesEn(a, longueur, i);
    }
  }

  /** The byte whose only one is bit `j`, most significant first. */
  function UnEn(j: nat): bv8
    requires j < 8
  { MasqueDeLOctet(j + 1) & !MasqueDeLOctet(j) }

  function PoserDansLOctet(o: bv8, j: nat, b: bool): bv8
    requires j < 8
  { if b then o | UnEn(j) else o & !UnEn(j) }

  lemma OctetPose(o: bv8, j: nat, b: bool, m: nat)
    requires j < 8 && m < 8
    ensures BitDeLOctet(PoserDansLOctet(o, j, b), m) == if m == j then b else BitDeLOctet(o, m)
  {
  }

  /** The address with bit `k` set to `b`. */
  function PoserBit(a: Adresse, k: nat, b: bool): (r: Adresse)
    requires k < 8 * |a|
    ensures |r| == |a|
  { a[k / 8 := PoserDansLOctet(a[k / 8], k % 8, b)] }

  lemma BitPose(a: Adresse, k: nat, b: bool, m: nat)
    requires k < 8 * |a| && m < 8 * |a|
    ensures Bit(PoserBit(a, k, b), m) == if m == k then b else Bit(a, m)
  {
    hide PoserDansLOctet, BitDeLOctet;
    if m / 8 == k / 8 {
      OctetPose(a[k / 8], k % 8, b, m % 8);
    }
  }

  /** Setting the bit that follows a prefix to a bit of `x` lengthens the agreement. */
  lemma PrefixeAllonge(a: Adresse, x: Adresse, n: nat)
    requires MemePrefixe(a, x, n) && n < 8 * |a|
    ensures MemePrefixe(PoserBit(a, n, Bit(x, n)), x, n + 1)
  {
    hide PoserBit, Bit;
    forall k: nat | k < n + 1 && k < 8 * |a| ensures Bit(PoserBit(a, n, Bit(x, n)), k) == Bit(x, k) {
      BitPose(a, n, Bit(x, n), k);
    }
  }

  lemma PrefixeRaccourci(a: Adresse, x: Adresse, n: nat, b: bool)
    requires n < 8 * |a| && MemePrefixe(PoserBit(a, n, b), x, n + 1)
    ensures MemePrefixe(a, x, n)
  {
    hide PoserBit, Bit;
    forall k: nat | k < n && k < 8 * |a| ensures Bit(a, k) == Bit(x, k) {
      BitPose(a, n, b, k);
      assert Bit(PoserBit(a, n, b), k) == Bit(x, k);
    }
  }

  /** No bit past the first `n`. */
  ghost predicate FinNulle(a: Adresse, n: nat) { forall k: nat :: n <= k < 8 * |a| ==> !Bit(a, k) }

  lemma OctetFinNulle(o: bv8, n: nat)
    requires n <= 8
    ensures MasquerOctet(o, n) == o <==> (
         && (n <= 0 ==> !BitDeLOctet(o, 0)) && (n <= 1 ==> !BitDeLOctet(o, 1)) && (n <= 2 ==> !BitDeLOctet(o, 2))
         && (n <= 3 ==> !BitDeLOctet(o, 3)) && (n <= 4 ==> !BitDeLOctet(o, 4)) && (n <= 5 ==> !BitDeLOctet(o, 5))
         && (n <= 6 ==> !BitDeLOctet(o, 6)) && (n <= 7 ==> !BitDeLOctet(o, 7)))
  {
  }

  lemma OctetEntier(o: bv8, n: nat)
    requires n <= 8
    ensures MasquerOctet(o, n) == o <==> forall j: nat :: n <= j < 8 ==> !BitDeLOctet(o, j)
  {
    OctetFinNulle(o, n);
    hide MasquerOctet, BitDeLOctet;
    assert (forall j: nat :: n <= j < 8 ==> !BitDeLOctet(o, j)) <==> (
         && (n <= 0 ==> !BitDeLOctet(o, 0)) && (n <= 1 ==> !BitDeLOctet(o, 1)) && (n <= 2 ==> !BitDeLOctet(o, 2))
         && (n <= 3 ==> !BitDeLOctet(o, 3)) && (n <= 4 ==> !BitDeLOctet(o, 4)) && (n <= 5 ==> !BitDeLOctet(o, 5))
         && (n <= 6 ==> !BitDeLOctet(o, 6)) && (n <= 7 ==> !BitDeLOctet(o, 7)));
  }

  lemma DejaMasquee(a: Adresse, n: u8)
    ensures Masquer(a, n) == a <==> FinNulle(a, n)
  {
    hide MasquerOctet, BitDeLOctet;
    if Masquer(a, n) == a {
      forall k: nat | n <= k < 8 * |a| ensures !Bit(a, k) {
        assert Masquer(a, n)[k / 8] == a[k / 8];
        OctetEntier(a[k / 8], BitsDeLOctet(n, k / 8));
      }
    }
    if FinNulle(a, n) {
      forall i | 0 <= i < |a| ensures Masquer(a, n)[i] == a[i] {
        forall j: nat | BitsDeLOctet(n, i) <= j < 8 ensures !BitDeLOctet(a[i], j) {
          assert (8 * i + j) / 8 == i && (8 * i + j) % 8 == j;
          assert !Bit(a, 8 * i + j);
        }
        OctetEntier(a[i], BitsDeLOctet(n, i));
      }
    }
  }

  /** The masked address is the one that agrees on the prefix and is zero after it. */
  lemma MasqueEst(a: Adresse, n: u8, d: Adresse)
    ensures Masquer(a, n) == d <==> MemePrefixe(d, a, n) && FinNulle(d, n)
  {
    ExtremesDuReseau(a, n);
    DejaMasquee(d, n);
    MasquesEgaux(d, a, n);
    hide Masquer, MemePrefixe, FinNulle;
  }
}
