/**
 QUIC packets coalesced in a datagram (scripts/quic-chronologie.py:69-110):
 variable-length integers (section 16 of RFC 9000), the long header
 (section 17.2) and the walk over a datagram (section 12.2).
 */
module Quic {
  import opened Commun

  type Octets = seq<u8>

  // ---------------------------------------------------------------------
  // Variable-length integers.
  // ---------------------------------------------------------------------

  /** 1, 2, 4 or 8 bytes, from the two high bits of the first one. */
  function Largeur(classe: nat): (n: nat)
    requires classe < 4
    ensures 1 <= n <= 8
  {
    if classe == 0 then 1 else if classe == 1 then 2 else if classe == 2 then 4 else 8
  }

  /** The value of the `n` bytes at `i`, without the two high bits. */
  function Valeur(b: Octets, i: nat, n: nat): nat
    requires 1 <= n && i + n <= |b|
  {
    if n == 1 then b[i] % 64 else Valeur(b, i, n - 1) * 256 + b[i + n - 1]
  }

  /** `varint`; nothing where the source runs past the end. */
  function Varint(b: Octets, i: nat): (r: Option<(nat, nat)>)
    ensures r.Some? ==> i < r.value.1 <= |b|
  {
    if i >= |b| then None
    else
      var n := Largeur(b[i] / 64);
      if i + n > |b| then None else Some((Valeur(b, i, n), i + n))
  }

  method LireVarint(b: Octets, i: nat) returns (r: Option<(nat, nat)>)
    ensures r == Varint(b, i)
  {
    if i >= |b| {
      return None;
    }
    var n := Largeur(b[i] / 64);
    var v: nat := b[i] % 64;
    var k := 1;
    while k < n
      invariant 1 <= k <= n && i + k <= |b|
      invariant v == Valeur(b, i, k)
    {
      if i + k >= |b| {
        return None;
      }
      v := v * 256 + b[i + k];
      k := k + 1;
    }
    r := Some((v, i + n));
  }

  /** The first value that does not fit in `n` bytes. */
  function Borne(n: nat): nat
    requires n >= 1
  { if n == 1 then 64 else 256 * Borne(n - 1) }

  function Ecrire(v: nat, n: nat, classe: nat): (r: Octets)
    requires n >= 1 && classe < 4 && v < Borne(n)
    ensures |r| == n && r[0] / 64 == classe
  {
    if n == 1 then [classe * 64 + v] else Ecrire(v / 256, n - 1, classe) + [v % 256]
  }

  predicate Tient(v: nat, classe: nat) { classe < 4 && v < Borne(Largeur(classe)) }

  /** One of the encodings of a value: any class it fits in. */
  function EcrireVarint(v: nat, classe: nat): (r: Octets)
    requires Tient(v, classe)
    ensures |r| == Largeur(classe)
  {
    Ecrire(v, Largeur(classe), classe)
  }

  lemma {:induction false} ValeurEcrite(b: Octets, i: nat, v: nat, n: nat, classe: nat)
    requires n >= 1 && classe < 4 && v < Borne(n)
    requires i + n <= |b| && b[i..i + n] == Ecrire(v, n, classe)
    ensures Valeur(b, i, n) == v
  {
    var e := Ecrire(v, n, classe);
    if n == 1 {
      assert b[i] == e[0];
    } else {
      assert b[i + n - 1] == e[n - 1];
      assert b[i..i + n - 1] == e[..n - 1] == Ecrire(v / 256, n - 1, classe);
      ValeurEcrite(b, i, v / 256, n - 1, classe);
    }
  }

  /** Decoding any encoding of a value gives the value and its width. */
  lemma VarintEcrit(b: Octets, i: nat, v: nat, classe: nat)
    requires Tient(v, classe)
    requires i + Largeur(classe) <= |b| && b[i..i + Largeur(classe)] == EcrireVarint(v, classe)
    ensures Varint(b, i) == Some((v, i + Largeur(classe)))
  {
    assert b[i] == EcrireVarint(v, classe)[0];
    ValeurEcrite(b, i, v, Largeur(classe), classe);
  }

  lemma {:induction false} EcrireValeur(b: Octets, i: nat, n: nat, classe: nat)
    requires 1 <= n && i + n <= |b| && b[i] / 64 == classe
    ensures Valeur(b, i, n) < Borne(n) && Ecrire(Valeur(b, i, n), n, classe) == b[i..i + n]
  {
    if n > 1 {
      EcrireValeur(b, i, n - 1, classe);
      assert b[i..i + n] == b[i..i + n - 1] + [b[i + n - 1]];
    }
  }

  /** Every decoded integer is an encoding of its value: decoding loses nothing. */
  lemma VarintLu(b: Octets, i: nat)
    requires Varint(b, i).Some?
    ensures var (v, j) := Varint(b, i).value;
            Tient(v, b[i] / 64) && b[i..j] == EcrireVarint(v, b[i] / 64)
  {
    EcrireValeur(b, i, Largeur(b[i] / 64), b[i] / 64);
  }

  // ---------------------------------------------------------------------
  // The walk.
  // ---------------------------------------------------------------------

  datatype Genre = Initial | ZeroRtt | Handshake | GenreRetry

  function GenreDe(o: u8): Genre {
    var t := o / 16 % 4;
    if t == 0 then Initial else if t == 1 then ZeroRtt else if t == 2 then Handshake else GenreRetry
  }

  /** What the walk names; a length counts bytes of the datagram. */
  datatype Nom = UnRtt(o: nat) | VersionNego | Retry(o: nat) | Long(genre: Genre, o: nat) | Illisible(o: nat)

  /** One turn of the loop: a last name, or a name and where the next packet starts. */
  datatype Etape = Derniere(nom: Nom) | Suivante(nom: Nom, suite: nat)

  /** `j += 1 + q[j]`. */
  function ApresIdentifiant(q: Octets, j: nat): (r: Option<nat>)
    ensures r.Some? ==> j < r.value
  {
    if j < |q| then Some(j + 1 + q[j]) else None
  }

  /** The end of the identifiers of a long header, nothing where the source raises. */
  function ApresIdentifiants(q: Octets, i: nat): (r: Option<nat>)
    ensures r.Some? ==> i < r.value
  {
    var d := ApresIdentifiant(q, i + 5);
    if d.None? then None else ApresIdentifiant(q, d.value)
  }

  /** The token of an Initial, its length then its bytes. */
  function ApresJeton(q: Octets, g: Genre, j: nat): (r: Option<nat>)
    ensures r.Some? ==> j <= r.value
  {
    if g != Initial then Some(j)
    else
      var l := Varint(q, j);
      if l.None? then None else Some(l.value.1 + l.value.0)
  }

  function LireLong(q: Octets, i: nat): (r: Etape)
    requires i < |q|
    ensures r.Suivante? ==> i < r.suite && r.nom.Long? && r.nom.o == r.suite - i
    ensures r.Derniere? ==> !r.nom.Long?
  {
    var illisible := Derniere(Illisible(|q| - i));
    if i + 5 > |q| then illisible
    else if q[i + 1..i + 5] == [0, 0, 0, 0] then Derniere(VersionNego)
    else
      var g, j := GenreDe(q[i]), ApresIdentifiants(q, i);
      if j.None? then illisible
      else if g == GenreRetry then Derniere(Retry(|q| - i))
      else
        var k := ApresJeton(q, g, j.value);
        if k.None? then illisible
        else
          var l := Varint(q, k.value);
          if l.None? then illisible else Suivante(Long(g, l.value.1 + l.value.0 - i), l.value.1 + l.value.0)
  }

  function LireEtape(q: Octets, i: nat): (r: Etape)
    requires i < |q|
    ensures r.Suivante? ==> i < r.suite && r.nom.Long? && r.nom.o == r.suite - i
  {
    if q[i] < 0x80 then Derniere(UnRtt(|q| - i)) else LireLong(q, i)
  }

  /** The names of the packets from `i` on. */
  function Noms(q: Octets, i: nat): seq<Nom>
    decreases |q| - i
  {
    if i >= |q| then []
    else
      match LireEtape(q, i)
      case Derniere(n) => [n]
      case Suivante(n, s) => [n] + Noms(q, s)
  }

  method UneEtape(q: Octets, i: nat) returns (r: Etape)
    requires i < |q|
    ensures r == LireEtape(q, i)
  {
    if q[i] < 0x80 {
      return Derniere(UnRtt(|q| - i));
    }
    var illisible := Derniere(Illisible(|q| - i));
    if i + 5 > |q| {
      return illisible;
    }
    if q[i + 1..i + 5] == [0, 0, 0, 0] {
      return Derniere(VersionNego);
    }
    var j := i + 5;
    if j >= |q| {
      return illisible;
    }
    j := j + 1 + q[j];
    if j >= |q| {
      return illisible;
    }
    j := j + 1 + q[j];
    var g := GenreDe(q[i]);
    if g == GenreRetry {
      return Derniere(Retry(|q| - i));
    }
    if g == Initial {
      var jeton := LireVarint(q, j);
      if jeton.None? {
        return illisible;
      }
      j := jeton.value.1 + jeton.value.0;
    }
    var longueur := LireVarint(q, j);
    if longueur.None? {
      return illisible;
    }
    r := Suivante(Long(g, longueur.value.1 + longueur.value.0 - i), longueur.value.1 + longueur.value.0);
  }

  /** `paquets_coalesces`. */
  method PaquetsCoalesces(q: Octets) returns (trouves: seq<Nom>)
    ensures trouves == Noms(q, 0)
  {
    hide LireEtape;
    trouves := [];
    var i := 0;
    while i < |q|
      invariant Noms(q, 0) == trouves + Noms(q, i)
      decreases |q| - i
    {
      var e := UneEtape(q, i);
      trouves := trouves + [e.nom];
      if e.Derniere? {
        return;
      }
      i := e.suite;
    }
  }

  // ---------------------------------------------------------------------
  // What the walk names.
  // ---------------------------------------------------------------------

  /** A long-header packet: first byte (`haut` and `bas` are the bits the walk does
      not read), version, the two identifiers, the token of an Initial, the length
      and the rest. */
  datatype Paquet = Paquet(genre: Genre, haut: nat, bas: nat, version: Octets, dcid: Octets, scid: Octets,
                           jeton: Octets, classeJeton: nat, corps: Octets, classeCorps: nat)

  predicate BienForme(p: Paquet) {
    && p.genre != GenreRetry && p.haut < 2 && p.bas < 16
    && |p.version| == 4 && p.version != [0, 0, 0, 0]
    && |p.dcid| < 256 && |p.scid| < 256
    && Tient(|p.jeton|, p.classeJeton) && (p.genre != Initial ==> p.jeton == [])
    && Tient(|p.corps|, p.classeCorps)
  }

  function PremierOctet(p: Paquet): u8
    requires BienForme(p)
  {
    0x80 + p.haut * 0x40 + (match p.genre case Initial => 0 case ZeroRtt => 1 case Handshake => 2 case GenreRetry => 3) * 0x10 + p.bas
  }

  function Debut(p: Paquet): Octets
    requires BienForme(p)
  { [PremierOctet(p)] + p.version + ([|p.dcid|] + p.dcid) + ([|p.scid|] + p.scid) }

  function Jeton(p: Paquet): Octets
    requires BienForme(p)
  { if p.genre == Initial then EcrireVarint(|p.jeton|, p.classeJeton) + p.jeton else [] }

  function Corps(p: Paquet): Octets
    requires BienForme(p)
  { EcrireVarint(|p.corps|, p.classeCorps) + p.corps }

  function OctetsDe(p: Paquet): (r: Octets)
    requires BienForme(p)
    ensures |r| > 0
  { Debut(p) + Jeton(p) + Corps(p) }

  lemma Tranche(q: Octets, i: nat, a: Octets, b: Octets)
    requires i + |a| + |b| <= |q| && q[i..i + |a| + |b|] == a + b
    ensures q[i..i + |a|] == a && q[i + |a|..i + |a| + |b|] == b
  {
    var s := q[i..i + |a| + |b|];
    assert s[..|a|] == q[i..i + |a|] && s[|a|..] == q[i + |a|..i + |a| + |b|];
  }

  lemma IdentifiantLu(q: Octets, j: nat, c: Octets)
    requires |c| < 256 && j + 1 + |c| <= |q| && q[j..j + 1 + |c|] == [|c|] + c
    ensures ApresIdentifiant(q, j) == Some(j + 1 + |c|)
  {
  }

  lemma DebutDecoupe(q: Octets, i: nat, p: Paquet)
    requires BienForme(p) && i + |Debut(p)| <= |q| && q[i..i + |Debut(p)|] == Debut(p)
    ensures var a, b := i + 5, i + 6 + |p.dcid|;
            && i + |Debut(p)| == b + 1 + |p.scid|
            && q[i..a] == [PremierOctet(p)] + p.version
            && q[a..b] == [|p.dcid|] + p.dcid && q[b..b + 1 + |p.scid|] == [|p.scid|] + p.scid
  {
    hide PremierOctet, Tient;
    var t := [PremierOctet(p)] + p.version;
    var d, s := [|p.dcid|] + p.dcid, [|p.scid|] + p.scid;
    assert Debut(p) == t + (d + s);
    Tranche(q, i, t, d + s);
    Tranche(q, i + 5, d, s);
  }

  lemma DebutLu(q: Octets, i: nat, p: Paquet)
    requires BienForme(p) && i + |Debut(p)| <= |q| && q[i..i + |Debut(p)|] == Debut(p)
    ensures q[i] == PremierOctet(p) && q[i + 1..i + 5] == p.version
    ensures ApresIdentifiants(q, i) == Some(i + |Debut(p)|)
  {
    DebutDecoupe(q, i, p);
    hide ApresIdentifiant, Tient, PremierOctet, Debut;
    Tranche(q, i, [PremierOctet(p)], p.version);
    assert q[i] == q[i..i + 1][0];
    IdentifiantLu(q, i + 5, p.dcid);
    IdentifiantLu(q, i + 6 + |p.dcid|, p.scid);
  }

  lemma JetonLu(q: Octets, j: nat, p: Paquet)
    requires BienForme(p) && j + |Jeton(p)| <= |q| && q[j..j + |Jeton(p)|] == Jeton(p)
    ensures ApresJeton(q, p.genre, j) == Some(j + |Jeton(p)|)
  {
    hide EcrireVarint, Varint;
    if p.genre == Initial {
      Tranche(q, j, EcrireVarint(|p.jeton|, p.classeJeton), p.jeton);
      VarintEcrit(q, j, |p.jeton|, p.classeJeton);
    }
  }

  lemma CorpsLu(q: Octets, k: nat, p: Paquet)
    requires BienForme(p) && k + |Corps(p)| <= |q| && q[k..k + |Corps(p)|] == Corps(p)
    ensures Varint(q, k).Some? && Varint(q, k).value.1 + Varint(q, k).value.0 == k + |Corps(p)|
  {
    hide EcrireVarint, Varint;
    Tranche(q, k, EcrireVarint(|p.corps|, p.classeCorps), p.corps);
    VarintEcrit(q, k, |p.corps|, p.classeCorps);
  }

  lemma PremierOctetLu(p: Paquet)
    requires BienForme(p)
    ensures PremierOctet(p) >= 0x80 && GenreDe(PremierOctet(p)) == p.genre
    ensures |Debut(p)| >= 7 && p.version != [0, 0, 0, 0] && p.genre != GenreRetry
  {
  }

  lemma EtapeAssemblee(q: Octets, i: nat, g: Genre, j: nat, k: nat)
    requires i + 5 <= |q| && q[i] >= 0x80 && GenreDe(q[i]) == g != GenreRetry && q[i + 1..i + 5] != [0, 0, 0, 0]
    requires ApresIdentifiants(q, i) == Some(j) && ApresJeton(q, g, j) == Some(k) && Varint(q, k).Some?
    ensures var f := Varint(q, k).value.1 + Varint(q, k).value.0; LireEtape(q, i) == Suivante(Long(g, f - i), f)
  {
  }

  lemma Decoupe(q: Octets, i: nat, p: Paquet)
    requires BienForme(p) && i + |OctetsDe(p)| <= |q| && q[i..i + |OctetsDe(p)|] == OctetsDe(p)
    ensures var j := i + |Debut(p)|;
            var k := j + |Jeton(p)|;
            && k + |Corps(p)| == i + |OctetsDe(p)|
            && q[i..j] == Debut(p) && q[j..k] == Jeton(p) && q[k..k + |Corps(p)|] == Corps(p)
  {
    hide Debut, Jeton, Corps, BienForme;
    assert OctetsDe(p) == Debut(p) + (Jeton(p) + Corps(p));
    Tranche(q, i, Debut(p), Jeton(p) + Corps(p));
    Tranche(q, i + |Debut(p)|, Jeton(p), Corps(p));
  }

  ghost predicate EcritEn(q: Octets, i: nat, p: Paquet) {
    BienForme(p) && i + |OctetsDe(p)| <= |q| && q[i..i + |OctetsDe(p)|] == OctetsDe(p)
  }

  lemma LectureDuDebut(q: Octets, i: nat, p: Paquet)
    requires EcritEn(q, i, p)
    ensures i + 5 <= |q| && q[i] >= 0x80 && GenreDe(q[i]) == p.genre != GenreRetry && q[i + 1..i + 5] != [0, 0, 0, 0]
    ensures ApresIdentifiants(q, i) == Some(i + |Debut(p)|)
  {
    PremierOctetLu(p);
    hide Debut, Jeton, Corps, PremierOctet, GenreDe, ApresIdentifiants;
    Decoupe(q, i, p);
    DebutLu(q, i, p);
  }

  /** Past the identifiers: the token ends at `k`, the length there gives the end. */
  ghost predicate ResteLu(q: Octets, g: Genre, j: nat, k: nat, fin: nat) {
    ApresJeton(q, g, j) == Some(k) && Varint(q, k).Some? && Varint(q, k).value.1 + Varint(q, k).value.0 == fin
  }

  lemma LectureDuReste(q: Octets, i: nat, p: Paquet)
    requires EcritEn(q, i, p)
    ensures ResteLu(q, p.genre, i + |Debut(p)|, i + |Debut(p)| + |Jeton(p)|, i + |OctetsDe(p)|)
  {
    hide Debut, Jeton, Corps, ApresJeton, Varint;
    Decoupe(q, i, p);
    JetonLu(q, i + |Debut(p)|, p);
    CorpsLu(q, i + |Debut(p)| + |Jeton(p)|, p);
  }

  /** A well-formed long packet, wherever it is, is named with its exact length. */
  lemma LongLu(q: Octets, i: nat, p: Paquet)
    requires EcritEn(q, i, p)
    ensures i < |q| && LireEtape(q, i) == Suivante(Long(p.genre, |OctetsDe(p)|), i + |OctetsDe(p)|)
  {
    LectureDuDebut(q, i, p);
    LectureDuReste(q, i, p);
    hide EcritEn, OctetsDe, Debut, Jeton, Varint, GenreDe, ApresIdentifiants, ApresJeton, LireEtape;
    EtapeAssemblee(q, i, p.genre, i + |Debut(p)|, i + |Debut(p)| + |Jeton(p)|);
  }

  predicate BienFormes(l: seq<Paquet>) { forall i :: 0 <= i < |l| ==> BienForme(l[i]) }

  /** A datagram: long packets, then what ends it. */
  function Datagramme(l: seq<Paquet>, fin: Octets): Octets
    requires BienFormes(l)
  { if l == [] then fin else OctetsDe(l[0]) + Datagramme(l[1..], fin) }

  function NomsDe(l: seq<Paquet>): seq<Nom>
    requires BienFormes(l)
  { if l == [] then [] else [Long(l[0].genre, |OctetsDe(l[0])|)] + NomsDe(l[1..]) }

  /** A short header takes the rest of the datagram. */
  function NomsDeFin(fin: Octets): seq<Nom> { if fin == [] then [] else [UnRtt(|fin|)] }

  lemma Couper(q: Octets, i: nat, o: Octets, suite: Octets)
    requires i <= |q| && q[i..] == o + suite
    ensures i + |o| <= |q| && q[i..i + |o|] == o && q[i + |o|..] == suite
  {
  }

  lemma UnPas(q: Octets, i: nat)
    requires i < |q| && LireEtape(q, i).Suivante?
    ensures Noms(q, i) == [LireEtape(q, i).nom] + Noms(q, LireEtape(q, i).suite)
  {
  }

  /** The walk names a long packet and goes on after it. */
  lemma LongEnTete(q: Octets, i: nat, p: Paquet, suite: Octets)
    requires BienForme(p) && i <= |q| && q[i..] == OctetsDe(p) + suite
    ensures i + |OctetsDe(p)| <= |q| && q[i + |OctetsDe(p)|..] == suite
    ensures Noms(q, i) == [Long(p.genre, |OctetsDe(p)|)] + Noms(q, i + |OctetsDe(p)|)
  {
    hide OctetsDe, BienForme, LireEtape, Noms;
    Couper(q, i, OctetsDe(p), suite);
    LongLu(q, i, p);
    UnPas(q, i);
  }

  lemma FinNommee(q: Octets, i: nat, fin: Octets)
    requires i <= |q| && q[i..] == fin && (fin != [] ==> fin[0] < 0x80)
    ensures Noms(q, i) == NomsDeFin(fin)
  {
  }

  lemma {:induction false} DatagrammeNomme(q: Octets, i: nat, l: seq<Paquet>, fin: Octets)
    requires BienFormes(l) && (fin != [] ==> fin[0] < 0x80)
    requires i <= |q| && q[i..] == Datagramme(l, fin)
    ensures Noms(q, i) == NomsDe(l) + NomsDeFin(fin)
    decreases |l|
  {
    hide OctetsDe, BienForme, LireEtape, Noms, NomsDeFin;
    if l == [] {
      FinNommee(q, i, fin);
    } else {
      var o := OctetsDe(l[0]);
      LongEnTete(q, i, l[0], Datagramme(l[1..], fin));
      DatagrammeNomme(q, i + |o|, l[1..], fin);
      assert [Long(l[0].genre, |o|)] + (NomsDe(l[1..]) + NomsDeFin(fin)) == NomsDe(l) + NomsDeFin(fin);
    }
  }

  function Longueur(n: Nom): nat { if n.VersionNego? then 0 else n.o }

  function Somme(l: seq<Nom>): nat { if l == [] then 0 else Longueur(l[0]) + Somme(l[1..]) }

  /** On a concatenation of well-formed long packets and an optional short one, the
      walk names exactly those packets, and their lengths sum to the datagram. */
  lemma CoalescesNommes(l: seq<Paquet>, fin: Octets)
    requires BienFormes(l) && (fin != [] ==> fin[0] < 0x80)
    ensures Noms(Datagramme(l, fin), 0) == NomsDe(l) + NomsDeFin(fin)
    ensures Somme(Noms(Datagramme(l, fin), 0)) == |Datagramme(l, fin)|
  {
    var q := Datagramme(l, fin);
    assert q[0..] == q;
    DatagrammeNomme(q, 0, l, fin);
    SommeNommee(l, fin);
  }

  lemma {:induction false} SommeNommee(l: seq<Paquet>, fin: Octets)
    requires BienFormes(l)
    ensures Somme(NomsDe(l) + NomsDeFin(fin)) == |Datagramme(l, fin)|
  {
    hide OctetsDe, BienForme;
    if l == [] {
      assert NomsDe(l) + NomsDeFin(fin) == NomsDeFin(fin);
    } else {
      SommeNommee(l[1..], fin);
      assert (NomsDe(l) + NomsDeFin(fin))[1..] == NomsDe(l[1..]) + NomsDeFin(fin);
    }
  }

  /** Where a version negotiation starts, which the walk names without a length; the
      end of the datagram when there is none. */
  function Jusque(q: Octets, i: nat): nat
    decreases |q| - i
  {
    if i >= |q| then |q|
    else
      match LireEtape(q, i)
      case Derniere(n) => if n.VersionNego? then i else |q|
      case Suivante(_, s) => Jusque(q, s)
  }

  /** Whatever the bytes: up to a version negotiation, which only comes last, the
      lengths never fall short, and exceed exactly when a packet claims more bytes
      than the datagram has left. */
  lemma {:induction false} SommeQuelconque(q: Octets, i: nat)
    requires i <= |q|
    ensures i <= Jusque(q, i) <= |q|
    ensures Somme(Noms(q, i)) >= Jusque(q, i) - i
    ensures Somme(Noms(q, i)) > Jusque(q, i) - i <==> Deborde(q, i)
    decreases |q| - i
  {
    if i < |q| && LireEtape(q, i).Suivante? {
      var s := LireEtape(q, i).suite;
      hide LireEtape;
      assert Noms(q, i) == [LireEtape(q, i).nom] + Noms(q, s);
      if s <= |q| {
        SommeQuelconque(q, s);
      }
    }
  }

  /** The walk ends where a version negotiation starts exactly when it names one, and
      names long packets alone before its last. */
  lemma {:induction false} NegociationDerniere(q: Octets, i: nat)
    requires i <= |q|
    ensures Jusque(q, i) < |q| <==> VersionNego in Noms(q, i)
    ensures forall k :: 0 <= k < |Noms(q, i)| - 1 ==> Noms(q, i)[k].Long?
    decreases |q| - i
  {
    if i < |q| && LireEtape(q, i).Suivante? {
      var s := LireEtape(q, i).suite;
      hide LireEtape;
      assert Noms(q, i) == [LireEtape(q, i).nom] + Noms(q, s);
      if s <= |q| {
        NegociationDerniere(q, s);
      }
    }
  }

  /** Some packet of the walk claims more bytes than the datagram has left. */
  predicate Deborde(q: Octets, i: nat)
    decreases |q| - i
  {
    i < |q| && var e := LireEtape(q, i); e.Suivante? && (e.suite > |q| || Deborde(q, e.suite))
  }

  /** The widths of section 16 of RFC 9000. */
  lemma Largeurs()
    ensures [Largeur(0), Largeur(1), Largeur(2), Largeur(3)] == [1, 2, 4, 8]
  {
  }

  /** The examples of appendix A.1 of RFC 9000. */
  lemma ExemplesDuRfc()
    ensures Varint([0x25], 0) == Some((37, 1)) && Varint([0x40, 0x25], 0) == Some((37, 2)) && Varint([0x7b, 0xbd], 0) == Some((15293, 2))
    ensures Varint([0x9d, 0x7f, 0x3e, 0x7d], 0) == Some((494878333, 4))
    ensures Varint([0xc2, 0x19, 0x7c, 0x5e, 0xff, 0x14, 0xe8, 0x8c], 0) == Some((151288809941952652, 8))
  {
    var b: Octets := [0x9d, 0x7f, 0x3e, 0x7d];
    assert Valeur(b, 0, 2) == 0x1d7f && Valeur(b, 0, 3) == 0x1d7f3e;
    var c: Octets := [0xc2, 0x19, 0x7c, 0x5e, 0xff, 0x14, 0xe8, 0x8c];
    assert Valeur(c, 0, 2) == 0x219 && Valeur(c, 0, 3) == 0x2197c && Valeur(c, 0, 4) == 0x2197c5e;
    assert Valeur(c, 0, 5) == 0x2197c5eff && Valeur(c, 0, 6) == 0x2197c5eff14 && Valeur(c, 0, 7) == 0x2197c5eff14e8;
  }

  /** Both identifiers start inside the datagram, and `j` is where they end. */
  ghost predicate Identifiants(q: Octets, i: nat, j: nat) {
    i + 5 < |q| && i + 6 + q[i + 5] < |q| && j == i + 7 + q[i + 5] + q[i + 6 + q[i + 5]]
  }

  /** An integer is whole from `j`. */
  ghost predicate EntierEntier(q: Octets, j: nat) {
    j < |q| && j + (if q[j] < 64 then 1 else if q[j] < 128 then 2 else if q[j] < 192 then 4 else 8) <= |q|
  }

  /** What follows the identifiers is `n` bytes further than the packet starts: the
      token of an Initial, the length, and that many bytes. */
  ghost predicate Suite(q: Octets, i: nat, j: nat, initial: bool, n: nat) {
    EntierEntier(q, j)
    && if initial then
         var fin := Varint(q, j).value.1 + Varint(q, j).value.0;
         EntierEntier(q, fin) && i + n == Varint(q, fin).value.1 + Varint(q, fin).value.0
       else i + n == Varint(q, j).value.1 + Varint(q, j).value.0
  }

  lemma EntierLu(q: Octets, j: nat)
    ensures Varint(q, j).Some? <==> EntierEntier(q, j)
  {
  }

  lemma IdentifiantsLus(q: Octets, i: nat, j: nat)
    ensures ApresIdentifiants(q, i) == Some(j) <==> Identifiants(q, i, j)
  {
  }

  /** What one turn names, bit by bit of the first byte and bound by bound. */
  lemma EtapeExacte(q: Octets, i: nat)
    requires i < |q|
    ensures var nom, nul, reste := LireEtape(q, i).nom, i + 5 <= |q| && q[i + 1] == q[i + 2] == q[i + 3] == q[i + 4] == 0, |q| - i;
            && (nom.UnRtt? <==> q[i] < 128) && (nom.UnRtt? ==> nom.o == reste)
            && (nom == VersionNego <==> q[i] >= 128 && nul)
            && (nom.Retry? <==> q[i] >= 128 && !nul && q[i] / 16 % 4 == 3 && exists j: nat :: Identifiants(q, i, j)) && (nom.Retry? ==> nom.o == reste)
            && (nom.Illisible? ==> nom.o == reste)
    ensures forall g, n: nat :: LireEtape(q, i).nom == Long(g, n) <==>
              && q[i] >= 128 && !(i + 5 <= |q| && q[i + 1] == q[i + 2] == q[i + 3] == q[i + 4] == 0)
              && q[i] / 16 % 4 == (match g case Initial => 0 case ZeroRtt => 1 case Handshake => 2 case GenreRetry => 4)
              && exists j: nat :: Identifiants(q, i, j) && Suite(q, i, j, g == Initial, n)
  {
    hide Varint, ApresIdentifiants, Identifiants, EntierEntier;
    forall j: nat ensures ApresIdentifiants(q, i) == Some(j) <==> Identifiants(q, i, j) {
      IdentifiantsLus(q, i, j);
    }
    forall j: nat ensures Varint(q, j).Some? <==> EntierEntier(q, j) {
      EntierLu(q, j);
    }
    IdentifiantsDedans(q, i);
    if i + 5 <= |q| {
      assert q[i + 1..i + 5] == [q[i + 1], q[i + 2], q[i + 3], q[i + 4]];
    }
  }

  lemma IdentifiantsDedans(q: Octets, i: nat)
    ensures forall j: nat :: Identifiants(q, i, j) ==> i + 5 < |q|
  {
  }
}
