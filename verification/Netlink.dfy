/**
 The answer to GETGEN: a netlink header, then attributes
 (crates/bifrost-cli/src/preuve_nft_linux.rs:41-95). `gros` is the byte order of
 the host: the header and the attributes are written in it, the generation itself
 is always big-endian.
 */
module Netlink {
  import opened Commun

  const NEWGEN: u16 := 0x0a0f
  const NLMSG_ERROR: u16 := 2
  const SEQUENCE: u32 := 1

  /** What a read of the generation gives; `acces` is the source's ACCES reason. */
  datatype Lecture = Generation(valeur: u32) | Refusee(acces: bool, raison: string)

  function Natif16(d: seq<u8>, i: nat, gros: bool): u16
    requires i + 2 <= |d|
  {
    if gros then d[i] as int * 0x100 + d[i + 1] as int else d[i + 1] as int * 0x100 + d[i] as int
  }

  function Gros32(d: seq<u8>, i: nat): u32
    requires i + 4 <= |d|
  {
    d[i] as int * 0x100_0000 + d[i + 1] as int * 0x1_0000 + d[i + 2] as int * 0x100 + d[i + 3] as int
  }

  function Natif32(d: seq<u8>, i: nat, gros: bool): u32
    requires i + 4 <= |d|
  {
    if gros then Gros32(d, i)
    else d[i + 3] as int * 0x100_0000 + d[i + 2] as int * 0x1_0000 + d[i + 1] as int * 0x100 + d[i] as int
  }

  function Ecrire16(n: u16, gros: bool): (r: seq<u8>)
    ensures |r| == 2
  { if gros then [n / 0x100, n % 0x100] else [n % 0x100, n / 0x100] }

  function EcrireGros32(n: u32): seq<u8> {
    [n / 0x100 / 0x100 / 0x100, n / 0x100 / 0x100 % 0x100, n / 0x100 % 0x100, n % 0x100]
  }

  function Ecrire32(n: u32, gros: bool): seq<u8> {
    var e := EcrireGros32(n);
    if gros then e else [e[3], e[2], e[1], e[0]]
  }

  // ---------------------------------------------------------------------
  // The grammar of the attributes.
  // ---------------------------------------------------------------------

  /** One attribute: its kind, its payload, and the padding to 4 bytes after it. */
  datatype Attribut = Attribut(genre: u16, charge: seq<u8>, bourrage: seq<u8>)

  predicate BienForme(a: Attribut) {
    |a.charge| + 4 < 0x1_0000 && |a.bourrage| < 4 && (|a.charge| + |a.bourrage|) % 4 == 0
  }

  function Octets(a: Attribut, gros: bool): seq<u8>
    requires BienForme(a)
  {
    Ecrire16(|a.charge| + 4, gros) + Ecrire16(a.genre, gros) + a.charge + a.bourrage
  }

  predicate BienFormes(l: seq<Attribut>) { forall i :: 0 <= i < |l| ==> BienForme(l[i]) }

  function TousOctets(l: seq<Attribut>, gros: bool): seq<u8>
    requires BienFormes(l)
  {
    if l == [] then [] else Octets(l[0], gros) + TousOctets(l[1..], gros)
  }

  /** The first attribute of a buffer, with its padding. */
  function Premier(d: seq<u8>, gros: bool): (r: Option<Attribut>)
    ensures r.Some? ==> BienForme(r.value)
  {
    if |d| < 4 then None
    else
      var n := Natif16(d, 0, gros);
      var suite := (n + 3) / 4 * 4;
      if n < 4 || suite > |d| then None
      else Some(Attribut(Natif16(d, 2, gros), d[4..n], d[n..suite]))
  }

  function Taille(a: Attribut): nat { 4 + |a.charge| + |a.bourrage| }

  /** A buffer cut into attributes, to its last byte. */
  function Attributs(d: seq<u8>, gros: bool): (r: Option<seq<Attribut>>)
    ensures r.Some? ==> BienFormes(r.value)
    decreases |d|
  {
    if d == [] then Some([])
    else
      match Premier(d, gros)
      case None => None
      case Some(a) =>
        if Taille(a) > |d| then None
        else
          match Attributs(d[Taille(a)..], gros)
          case None => None
          case Some(l) => Some([a] + l)
  }

  lemma PremierLu(a: Attribut, s: seq<u8>, gros: bool)
    requires BienForme(a)
    ensures Premier(Octets(a, gros) + s, gros) == Some(a)
    ensures |Octets(a, gros)| == Taille(a)
  {
    hide Natif16, Ecrire16;
    var d := Octets(a, gros) + s;
    var n := |a.charge| + 4;
    assert d[0..2] == Ecrire16(n, gros) && d[2..4] == Ecrire16(a.genre, gros);
    Natif16Ecrit(d, 0, n, gros);
    Natif16Ecrit(d, 2, a.genre, gros);
    assert (n + 3) / 4 * 4 == Taille(a);
    assert d[4..n] == a.charge && d[n..Taille(a)] == a.bourrage;
  }

  lemma Natif16Ecrit(d: seq<u8>, i: nat, n: u16, gros: bool)
    requires i + 2 <= |d| && d[i..i + 2] == Ecrire16(n, gros)
    ensures Natif16(d, i, gros) == n
  {
    assert d[i] == d[i..i + 2][0] && d[i + 1] == d[i..i + 2][1];
  }

  lemma PremierEcrit(d: seq<u8>, gros: bool)
    requires Premier(d, gros).Some?
    ensures Taille(Premier(d, gros).value) <= |d|
    ensures Octets(Premier(d, gros).value, gros) == d[..Taille(Premier(d, gros).value)]
  {
    hide Natif16, Ecrire16;
    var a := Premier(d, gros).value;
    Ecrire16Natif(d, 0, gros);
    Ecrire16Natif(d, 2, gros);
    assert d[..Taille(a)] == d[0..2] + d[2..4] + a.charge + a.bourrage;
  }

  lemma Ecrire16Natif(d: seq<u8>, i: nat, gros: bool)
    requires i + 2 <= |d|
    ensures Ecrire16(Natif16(d, i, gros), gros) == d[i..i + 2]
  {
  }

  lemma {:induction false} CoupeEcrite(d: seq<u8>, gros: bool)
    requires Attributs(d, gros).Some?
    ensures TousOctets(Attributs(d, gros).value, gros) == d
    decreases |d|
  {
    hide Premier, Octets;
    if d != [] {
      var a := Premier(d, gros).value;
      PremierEcrit(d, gros);
      var l := Attributs(d[Taille(a)..], gros).value;
      CoupeEcrite(d[Taille(a)..], gros);
      assert ([a] + l)[1..] == l;
      assert d == d[..Taille(a)] + d[Taille(a)..];
    }
  }

  lemma {:induction false} EcritCoupe(l: seq<Attribut>, gros: bool)
    requires BienFormes(l)
    ensures Attributs(TousOctets(l, gros), gros) == Some(l)
  {
    if l != [] {
      var suite := TousOctets(l[1..], gros);
      var d := TousOctets(l, gros);
      EcritCoupe(l[1..], gros);
      PremierLu(l[0], suite, gros);
      hide Premier, Octets;
      assert d == Octets(l[0], gros) + suite;
      assert d[Taille(l[0])..] == suite;
      assert l == [l[0]] + l[1..];
    }
  }

  /** Cutting is the inverse of writing: a buffer is cut into these attributes
      exactly when it is them, written one after the other. */
  lemma CoupeExacte(d: seq<u8>, l: seq<Attribut>, gros: bool)
    ensures Attributs(d, gros) == Some(l) <==> BienFormes(l) && TousOctets(l, gros) == d
  {
    if Attributs(d, gros) == Some(l) {
      CoupeEcrite(d, gros);
    }
    if BienFormes(l) && TousOctets(l, gros) == d {
      EcritCoupe(l, gros);
    }
  }

  // ---------------------------------------------------------------------
  // The generation among them.
  // ---------------------------------------------------------------------

  predicate DeGeneration(a: Attribut) { a.genre % 0x4000 == 1 }

  /** Eight bytes, not nested. */
  predicate GenerationBienFormee(a: Attribut) { |a.charge| == 4 && a.genre < 0x8000 }

  /** The rank of the only generation attribute. */
  ghost predicate SeuleGeneration(l: seq<Attribut>, k: nat) {
    k < |l| && DeGeneration(l[k]) && GenerationBienFormee(l[k]) && forall j :: 0 <= j < |l| && j != k ==> !DeGeneration(l[j])
  }

  predicate EnTete(d: seq<u8>, expediteur: u32, port: u32, gros: bool) {
    && expediteur == 0 && |d| >= 20
    && Natif32(d, 0, gros) == |d| && Natif32(d, 8, gros) == SEQUENCE && Natif32(d, 12, gros) == port
  }

  /** The answers accepted, and the generation they carry. */
  ghost predicate Accepte(d: seq<u8>, expediteur: u32, port: u32, gros: bool, v: u32) {
    && EnTete(d, expediteur, port, gros)
    && Natif16(d, 4, gros) == NEWGEN && Natif16(d, 6, gros) == 0 && d[16] == 0 && d[17] == 0
    && exists l: seq<Attribut>, k: nat ::
         BienFormes(l) && TousOctets(l, gros) == d[20..] && SeuleGeneration(l, k) && Gros32(l[k].charge, 0) == v
  }

  /** What the walk has seen: no generation attribute, or one and its value. */
  ghost predicate Vu(l: seq<Attribut>, id: Option<u32>) {
    match id
    case None => forall j :: 0 <= j < |l| ==> !DeGeneration(l[j])
    case Some(v) => exists k: nat :: SeuleGeneration(l, k) && Gros32(l[k].charge, 0) == v
  }

  /** The buffer is what was walked, then the rest. */
  ghost predicate Parcouru(d: seq<u8>, l: seq<Attribut>, reste: seq<u8>, gros: bool) {
    Attributs(d, gros) == match Attributs(reste, gros) case None => None case Some(s) => Some(l + s)
  }

  lemma ParcouruSuite(d: seq<u8>, l: seq<Attribut>, reste: seq<u8>, gros: bool)
    requires Parcouru(d, l, reste, gros) && Premier(reste, gros).Some?
    requires Taille(Premier(reste, gros).value) <= |reste|
    ensures Parcouru(d, l + [Premier(reste, gros).value], reste[Taille(Premier(reste, gros).value)..], gros)
  {
    var a := Premier(reste, gros).value;
    assert reste != [];
    match Attributs(reste[Taille(a)..], gros) {
      case None =>
      case Some(s) => assert l + ([a] + s) == l + [a] + s;
    }
  }

  lemma VuSuite(l: seq<Attribut>, id: Option<u32>, a: Attribut)
    requires Vu(l, id)
    ensures !DeGeneration(a) ==> Vu(l + [a], id)
    ensures DeGeneration(a) && id.None? && GenerationBienFormee(a) ==> Vu(l + [a], Some(Gros32(a.charge, 0)))
  {
    var m := l + [a];
    if id.None? {
      if DeGeneration(a) && GenerationBienFormee(a) {
        assert SeuleGeneration(m, |l|);
      }
    } else if !DeGeneration(a) {
      var k: nat :| SeuleGeneration(l, k) && Gros32(l[k].charge, 0) == id.value;
      assert SeuleGeneration(m, k);
    }
  }

  /** A second generation attribute, or a malformed one, is never the only one. */
  lemma JamaisSeule(l: seq<Attribut>, id: Option<u32>, a: Attribut, s: seq<Attribut>, k: nat)
    requires Vu(l, id) && DeGeneration(a) && (id.Some? || !GenerationBienFormee(a))
    ensures !SeuleGeneration(l + [a] + s, k)
  {
    var m := l + [a] + s;
    assert m[|l|] == a;
    if id.Some? {
      var j: nat :| SeuleGeneration(l, j) && Gros32(l[j].charge, 0) == id.value;
      assert m[j] == l[j];
    }
  }

  lemma RefusSansCoupe(d: seq<u8>, expediteur: u32, port: u32, gros: bool)
    requires |d| >= 20
    requires Attributs(d[20..], gros).None? || forall k: nat :: !SeuleGeneration(Attributs(d[20..], gros).value, k)
    ensures forall v :: !Accepte(d, expediteur, port, gros, v)
  {
    forall l: seq<Attribut>, k: nat | BienFormes(l) && TousOctets(l, gros) == d[20..] ensures !SeuleGeneration(l, k) {
      CoupeExacte(d[20..], l, gros);
    }
  }

  lemma TropCourt(reste: seq<u8>, gros: bool)
    requires |reste| < 4
    ensures Premier(reste, gros).None?
  {
  }

  lemma Impasse(d: seq<u8>, l: seq<Attribut>, reste: seq<u8>, gros: bool)
    requires Parcouru(d, l, reste, gros) && reste != [] && Premier(reste, gros).None?
    ensures Attributs(d, gros).None?
  {
  }

  lemma Arrivee(d: seq<u8>, l: seq<Attribut>, reste: seq<u8>, gros: bool)
    requires Parcouru(d, l, reste, gros) && reste == []
    ensures Attributs(d, gros) == Some(l)
  {
    assert l + [] == l;
  }

  lemma AucuneSeule(l: seq<Attribut>)
    requires Vu(l, None)
    ensures forall k: nat :: !SeuleGeneration(l, k)
  {
  }

  lemma VuSeule(l: seq<Attribut>, v: u32)
    requires Vu(l, Some(v))
    ensures exists k: nat :: SeuleGeneration(l, k)
  {
  }

  lemma MalFormee(d: seq<u8>, l: seq<Attribut>, id: Option<u32>, reste: seq<u8>, gros: bool)
    requires Parcouru(d, l, reste, gros) && Vu(l, id) && reste != []
    requires Premier(reste, gros).Some? ==>
               DeGeneration(Premier(reste, gros).value) && (id.Some? || !GenerationBienFormee(Premier(reste, gros).value))
    ensures Attributs(d, gros).Some? ==> forall k: nat :: !SeuleGeneration(Attributs(d, gros).value, k)
  {
    hide SeuleGeneration, DeGeneration, GenerationBienFormee, Vu;
    if Premier(reste, gros).None? {
      Impasse(d, l, reste, gros);
    } else if Attributs(d, gros).Some? {
      var a := Premier(reste, gros).value;
      var s := Attributs(reste[Taille(a)..], gros).value;
      assert l + ([a] + s) == l + [a] + s;
      forall k: nat ensures !SeuleGeneration(l + [a] + s, k) {
        JamaisSeule(l, id, a, s, k);
      }
    }
  }

  /** What the walk reads at an offset is the first attribute of the rest. */
  lemma PremierDe(d: seq<u8>, i: nat, gros: bool)
    requires i + 4 <= |d|
    ensures var n, genre, p := Natif16(d, i, gros), Natif16(d, i + 2, gros), Premier(d[i..], gros);
            && (p.Some? <==> n >= 4 && i + (n + 3) / 4 * 4 <= |d|)
            && (p.Some? ==> Taille(p.value) == (n + 3) / 4 * 4 && p.value.genre == genre && |p.value.charge| == n - 4)
            && (p.Some? ==> (DeGeneration(p.value) <==> genre % 0x4000 == 1))
            && (p.Some? ==> (GenerationBienFormee(p.value) <==> n == 8 && genre < 0x8000))
            && (p.Some? && n == 8 ==> Gros32(p.value.charge, 0) == Gros32(d, i + 4))
  {
  }

  /** The attribute walk of `generation_recue`. */
  method LireAttributs(data: seq<u8>, gros: bool) returns (r: Lecture)
    requires |data| >= 20
    ensures r.Generation? <==> Attributs(data[20..], gros).Some? && exists k: nat :: SeuleGeneration(Attributs(data[20..], gros).value, k)
    ensures r.Generation? ==> Vu(Attributs(data[20..], gros).value, Some(r.valeur))
    ensures r.Refusee? ==> !r.acces
  {
    hide Premier, Natif16, Gros32, SeuleGeneration, DeGeneration, GenerationBienFormee;
    var id: Option<u32> := None;
    var offset := 20;
    ghost var l: seq<Attribut> := [];
    assert Parcouru(data[20..], l, data[20..], gros) by {
      if Attributs(data[20..], gros).Some? {
        assert [] + Attributs(data[20..], gros).value == Attributs(data[20..], gros).value;
      }
    }
    while offset < |data|
      invariant 20 <= offset <= |data|
      invariant Parcouru(data[20..], l, data[offset..], gros)
      invariant Vu(l, id)
      decreases |data| - offset
    {
      ghost var reste := data[offset..];
      if |data| - offset < 4 {
        TropCourt(reste, gros);
        Impasse(data[20..], l, reste, gros);
        return Refusee(false, "attribut netlink tronque");
      }
      var n, genre := Natif16(data, offset, gros), Natif16(data, offset + 2, gros);
      PremierDe(data, offset, gros);
      assert (n + 3) / 4 * 4 >= n;
      if n < 4 || n > |data| - offset {
        Impasse(data[20..], l, reste, gros);
        return Refusee(false, "longueur netlink invalide");
      }
      var suite := offset + (n + 3) / 4 * 4;
      if genre % 0x4000 == 1 {
        if n != 8 || id.Some? || genre >= 0x8000 {
          MalFormee(data[20..], l, id, reste, gros);
          return Refusee(false, "generation dupliquee ou mal formee");
        }
        ghost var avant := id;
        id := Some(Gros32(data, offset + 4));
        if suite <= |data| {
          VuSuite(l, avant, Premier(reste, gros).value);
        }
      } else if suite <= |data| {
        VuSuite(l, id, Premier(reste, gros).value);
      }
      if suite <= |data| {
        ParcouruSuite(data[20..], l, reste, gros);
        l := l + [Premier(reste, gros).value];
        assert reste[suite - offset..] == data[suite..];
      } else {
        Impasse(data[20..], l, reste, gros);
      }
      offset := suite;
      if offset > |data| {
        return Refusee(false, "alignement netlink invalide");
      }
    }
    Arrivee(data[20..], l, data[offset..], gros);
    if id.None? {
      AucuneSeule(l);
      return Refusee(false, "generation absente");
    }
    r := Generation(id.value);
    VuSeule(l, id.value);
  }

  /** `generation_recue`: the answers accepted are exactly those of the grammar
      with one generation attribute, and its big-endian value is returned. */
  method GenerationRecue(data: seq<u8>, expediteur: u32, port: u32, gros: bool) returns (r: Lecture)
    ensures r.Generation? ==> Accepte(data, expediteur, port, gros, r.valeur)
    ensures r.Refusee? ==> forall v :: !Accepte(data, expediteur, port, gros, v)
    ensures r.Refusee? ==> (r.acces <==>
      && EnTete(data, expediteur, port, gros) && Natif16(data, 4, gros) == 2
      && Natif16(data, 6, gros) in {0, 256, 512, 768} && Natif32(data, 16, gros) in {0xffff_ffff, 0xffff_fff3})
  {
    hide Attributs, TousOctets, Accepte, SeuleGeneration;
    if expediteur != 0 || |data| < 20 {
      Refuse(data, expediteur, port, gros);
      return Refusee(false, "reponse netlink non authentifiee ou tronquee");
    }
    var taille, genre, flags := Natif32(data, 0, gros), Natif16(data, 4, gros), Natif16(data, 6, gros);
    if taille != |data| || Natif32(data, 8, gros) != SEQUENCE || Natif32(data, 12, gros) != port {
      Refuse(data, expediteur, port, gros);
      return Refusee(false, "enveloppe netlink inattendue");
    }
    if genre == NLMSG_ERROR {
      Refuse(data, expediteur, port, gros);
      if flags % 0x100 != 0 || flags >= 0x400 {
        return Refusee(false, "flags netlink inconnus");
      }
      var code := Natif32(data, 16, gros);
      return Refusee(code == 0xffff_ffff || code == 0xffff_fff3, "generation noyau indisponible");
    }
    if genre != NEWGEN || flags != 0 || data[16] != 0 || data[17] != 0 {
      Refuse(data, expediteur, port, gros);
      return Refusee(false, "type de reponse netlink inconnu");
    }
    r := LireAttributs(data, gros);
    if r.Generation? {
      AccepteCoupe(data, expediteur, port, gros, r.valeur);
    } else {
      RefusSansCoupe(data, expediteur, port, gros);
    }
  }

  lemma AccepteCoupe(d: seq<u8>, expediteur: u32, port: u32, gros: bool, v: u32)
    requires EnTete(d, expediteur, port, gros) && Natif16(d, 4, gros) == NEWGEN && Natif16(d, 6, gros) == 0 && d[16] == 0 && d[17] == 0
    requires Attributs(d[20..], gros).Some? && Vu(Attributs(d[20..], gros).value, Some(v))
    ensures Accepte(d, expediteur, port, gros, v)
  {
    var l := Attributs(d[20..], gros).value;
    CoupeExacte(d[20..], l, gros);
    var k: nat :| SeuleGeneration(l, k) && Gros32(l[k].charge, 0) == v;
  }

  lemma Refuse(d: seq<u8>, expediteur: u32, port: u32, gros: bool)
    requires !EnTete(d, expediteur, port, gros) || Natif16(d, 4, gros) != NEWGEN || Natif16(d, 6, gros) != 0 || d[16] != 0 || d[17] != 0
    ensures forall v :: !Accepte(d, expediteur, port, gros, v)
  {
  }

  // ---------------------------------------------------------------------
  // Writing, then reading.
  // ---------------------------------------------------------------------

  /** An answer made of these attributes. */
  function Reponse(l: seq<Attribut>, port: u32, gros: bool): seq<u8>
    requires BienFormes(l) && 20 + |TousOctets(l, gros)| < 0x1_0000_0000
  {
    EnTeteEcrit(20 + |TousOctets(l, gros)|, NEWGEN, port, gros) + TousOctets(l, gros)
  }

  function EnTeteEcrit(taille: u32, genre: u16, port: u32, gros: bool): (r: seq<u8>)
    ensures |r| == 20
  {
    Ecrire32(taille, gros) + Ecrire16(genre, gros) + Ecrire16(0, gros) + Ecrire32(SEQUENCE, gros) + Ecrire32(port, gros) + [0, 0, 0, 0]
  }

  lemma Relecture32(n: u32)
    ensures Gros32(EcrireGros32(n), 0) == n
  {
  }

  lemma EnTeteRelu(taille: u32, genre: u16, port: u32, suite: seq<u8>, gros: bool)
    requires taille == 20 + |suite|
    ensures var d := EnTeteEcrit(taille, genre, port, gros) + suite;
            && EnTete(d, 0, port, gros) && Natif16(d, 4, gros) == genre && Natif16(d, 6, gros) == 0
            && d[16] == 0 && d[17] == 0 && d[20..] == suite
  {
  }

  /** A grammatical answer with one generation attribute carries its value alone. */
  lemma AccepteeSeule(d: seq<u8>, l: seq<Attribut>, k: nat, port: u32, gros: bool, w: u32)
    requires EnTete(d, 0, port, gros) && Natif16(d, 4, gros) == NEWGEN && Natif16(d, 6, gros) == 0 && d[16] == 0 && d[17] == 0
    requires BienFormes(l) && TousOctets(l, gros) == d[20..] && SeuleGeneration(l, k)
    ensures Accepte(d, 0, port, gros, w) <==> w == Gros32(l[k].charge, 0)
  {
    hide TousOctets, Attributs, Natif16, Gros32;
    if Accepte(d, 0, port, gros, w) {
      var m: seq<Attribut>, j: nat :| BienFormes(m) && TousOctets(m, gros) == d[20..] && SeuleGeneration(m, j) && Gros32(m[j].charge, 0) == w;
      CoupeExacte(d[20..], m, gros);
      CoupeExacte(d[20..], l, gros);
      assert m == l && j == k;
    }
  }

  /** Encoding then reading gives the generation back, and only it. */
  lemma AllerRetour(v: u32, l: seq<Attribut>, k: nat, port: u32, gros: bool, w: u32)
    requires BienFormes(l) && 20 + |TousOctets(l, gros)| < 0x1_0000_0000
    requires SeuleGeneration(l, k) && l[k].charge == EcrireGros32(v)
    ensures Accepte(Reponse(l, port, gros), 0, port, gros, w) <==> w == v
  {
    hide Accepte, EnTete, EnTeteEcrit, TousOctets, EcrireGros32, Gros32, SeuleGeneration, Natif16, Natif32;
    EnTeteRelu(20 + |TousOctets(l, gros)|, NEWGEN, port, TousOctets(l, gros), gros);
    Relecture32(v);
    AccepteeSeule(Reponse(l, port, gros), l, k, port, gros, w);
  }

  /** A minimal answer, byte by byte, on a little-endian host: NFT_MSG_NEWGEN of the nftables
      subsystem, sequence 1, one attribute NFTA_GEN_ID. */
  function Minimale(a: u8, b: u8, c: u8, e: u8, port: u8): seq<u8> {
    [28, 0, 0, 0, 15, 10, 0, 0, 1, 0, 0, 0, port, 0, 0, 0, 0, 0, 0, 0, 8, 0, 1, 0, a, b, c, e]
  }

  lemma MinimaleEnTete(a: u8, b: u8, c: u8, e: u8, port: u8)
    ensures var d := Minimale(a, b, c, e, port);
            && EnTete(d, 0, port as int, false) && Natif16(d, 4, false) == NEWGEN && Natif16(d, 6, false) == 0 && d[16] == 0 && d[17] == 0
            && d[20..] == [8, 0, 1, 0, a, b, c, e]
  {
  }

  lemma UnSeulAttribut(a: u8, b: u8, c: u8, e: u8)
    ensures var l := [Attribut(1, [a, b, c, e], [])];
            && BienFormes(l) && SeuleGeneration(l, 0) && TousOctets(l, false) == [8, 0, 1, 0, a, b, c, e]
            && Gros32(l[0].charge, 0) == a as int * 16777216 + b as int * 65536 + c as int * 256 + e as int
  {
    var l := [Attribut(1, [a, b, c, e], [])];
    assert l[1..] == [];
    assert TousOctets(l, false) == Octets(l[0], false) + [];
  }

  /** It is read as its big-endian value. */
  lemma MinimaleLue(a: u8, b: u8, c: u8, e: u8, port: u8)
    ensures Accepte(Minimale(a, b, c, e, port), 0, port as int, false, a as int * 16777216 + b as int * 65536 + c as int * 256 + e as int)
  {
    hide Minimale, TousOctets, EnTete, Natif16, Gros32, BienFormes, SeuleGeneration;
    MinimaleEnTete(a, b, c, e, port);
    UnSeulAttribut(a, b, c, e);
  }

  // ---------------------------------------------------------------------
  // The answers accepted, byte by byte.
  // ---------------------------------------------------------------------

  /** The number these bytes write, the first byte the heaviest or the lightest. */
  ghost function Nombre(b: seq<u8>, gros: bool): nat {
    if b == [] then 0
    else if gros then Nombre(b[..|b| - 1], true) * 256 + b[|b| - 1]
    else b[0] as int + 256 * Nombre(b[1..], false)
  }

  lemma NombreDUn(x: u8, gros: bool)
    ensures Nombre([x], gros) == x
  {
    assert [x][..0] == [] && [x][1..] == [];
  }

  lemma NombreDeDeux(d: seq<u8>, i: nat, gros: bool)
    requires i + 2 <= |d|
    ensures Nombre(d[i..i + 2], gros) == Natif16(d, i, gros)
  {
    var b := d[i..i + 2];
    NombreDUn(b[0], gros);
    NombreDUn(b[1], gros);
    assert b[..1] == [b[0]] && b[1..] == [b[1]];
  }

  lemma NombreDeTrois(b: seq<u8>, gros: bool)
    requires |b| == 3
    ensures Nombre(b, gros) == if gros then b[0] as int * 65536 + b[1] as int * 256 + b[2] as int else b[0] as int + b[1] as int * 256 + b[2] as int * 65536
  {
    if gros {
      NombreDeDeux(b, 0, true);
      assert b[..2] == b[0..2];
    } else {
      NombreDeDeux(b, 1, false);
      assert b[1..] == b[1..3];
    }
  }

  lemma NombreDeQuatre(d: seq<u8>, i: nat, gros: bool)
    requires i + 4 <= |d|
    ensures Nombre(d[i..i + 4], gros) == Natif32(d, i, gros)
  {
    var b := d[i..i + 4];
    if gros {
      NombreDeTrois(b[..3], true);
    } else {
      NombreDeTrois(b[1..], false);
    }
  }

  /** The kind of a generation attribute, its two flag bits apart. */
  ghost predicate PorteLaGeneration(a: Attribut) { a.genre % 16384 == 1 }

  /** From the kernel, whole, for this socket and this question, NFT_MSG_NEWGEN, for every
      family; then attributes, of which one alone carries the generation, in four
      bytes and not nested. */
  lemma AccepteExacte(d: seq<u8>, expediteur: u32, port: u32, gros: bool, v: u32)
    ensures Accepte(d, expediteur, port, gros, v) <==>
              && expediteur == 0 && |d| >= 20 && Nombre(d[0..4], gros) == |d| && Nombre(d[4..6], gros) == 2575 && Nombre(d[6..8], gros) == 0
              && Nombre(d[8..12], gros) == 1 && Nombre(d[12..16], gros) == port && d[16] == 0 && d[17] == 0
              && exists l: seq<Attribut>, k: nat ::
                   && BienFormes(l) && TousOctets(l, gros) == d[20..] && k < |l| && Nombre(l[k].charge, true) == v
                   && |l[k].charge| == 4 && l[k].genre < 32768 && forall j :: 0 <= j < |l| ==> (PorteLaGeneration(l[j]) <==> j == k)
  {
    hide BienFormes, TousOctets, Natif16, Natif32, Gros32, Nombre;
    if |d| >= 20 {
      NombreDeQuatre(d, 0, gros);
      NombreDeDeux(d, 4, gros);
      NombreDeDeux(d, 6, gros);
      NombreDeQuatre(d, 8, gros);
      NombreDeQuatre(d, 12, gros);
    }
    forall l: seq<Attribut>, k: nat
      ensures SeuleGeneration(l, k) && Gros32(l[k].charge, 0) == v <==>
              && k < |l| && |l[k].charge| == 4 && l[k].genre < 32768 && Nombre(l[k].charge, true) == v
              && forall j :: 0 <= j < |l| ==> (PorteLaGeneration(l[j]) <==> j == k)
    {
      Porteuse(l, k, v);
    }
  }

  lemma Porteuse(l: seq<Attribut>, k: nat, v: u32)
    ensures SeuleGeneration(l, k) && Gros32(l[k].charge, 0) == v <==>
              && k < |l| && |l[k].charge| == 4 && l[k].genre < 32768 && Nombre(l[k].charge, true) == v
              && forall j :: 0 <= j < |l| ==> (PorteLaGeneration(l[j]) <==> j == k)
  {
    hide Nombre, Gros32;
    if k < |l| && |l[k].charge| == 4 {
      var c := l[k].charge;
      assert c[0..4] == c;
      NombreDeQuatre(c, 0, true);
      assert Natif32(c, 0, true) == Gros32(c, 0);
    }
  }
}
