/**
 IP fragment reassembly (scripts/quic-chronologie.py:113-176; section 3.2 of RFC 791).
 Times, directions and the decoding of a whole datagram are not part of this model.
 */
module Fragments {
  import opened Commun

  type Octets = seq<u8>

  /** Source, destination and identification. */
  datatype Cle = Cle(src: Octets, dst: Octets, id: u16)

  /** What the loop reads of one captured packet. */
  datatype Trame = Trame(cle: Cle, ihl: nat, total: u16, encore: bool, decalage: nat, df: bool, charge: Octets)

  const PROTO_UDP := 17

  function Min(a: nat, b: nat): nat { if a < b then a else b }

  function Mot(p: Octets, i: nat): u16
    requires i + 2 <= |p|
  { p[i] as int * 0x100 + p[i + 1] as int }

  /** A packet kept, passed over, or one that makes the source raise. */
  datatype Lecture = Gardee(trame: Trame) | Ignoree | Leve

  /** The packets the loop keeps: IPv4 and UDP. It reads the protocol of an IPv4
      packet at its tenth byte, and the address of a UDP one up to the sixteenth. */
  function LireTrame(p: Octets): (r: Lecture)
    ensures r.Gardee? ==> r.trame.ihl % 4 == 0 && r.trame.decalage % 8 == 0 && r.trame.decalage <= 0xfff8
    ensures r == Leve <==> p != [] && p[0] / 16 == 4 && (|p| < 10 || (p[9] == 17 && |p| < 16))
  {
    if p == [] || p[0] / 16 != 4 then Ignoree
    else if |p| < 10 then Leve
    else if p[9] != PROTO_UDP then Ignoree
    else if |p| < 16 then Leve
    else
      var ihl := p[0] % 16 * 4;
      var d := Mot(p, 6);
      Gardee(Trame(Cle(p[12..16], p[16..Min(20, |p|)], Mot(p, 4)), ihl, Mot(p, 2), d / 0x2000 % 2 == 1, d % 0x2000 * 8, d / 0x4000 % 2 == 1,
                   if ihl <= |p| then p[ihl..] else []))
  }

  /** A captured packet the loop keeps, as the sender writes it. */
  predicate Ecrivable(t: Trame, options: Octets) {
    && t.ihl == 20 + |options| <= 60 && |options| % 4 == 0
    && |t.cle.src| == 4 && |t.cle.dst| == 4
    && t.decalage % 8 == 0 && t.decalage <= 0xfff8
  }

  function DeuxOctets(n: u16): Octets { [n / 0x100, n % 0x100] }

  function MotDeFragment(t: Trame): u16
    requires t.decalage <= 0xfff8
  {
    (if t.df then 0x4000 else 0) + (if t.encore then 0x2000 else 0) + t.decalage / 8
  }

  /** The header of RFC 791, section 3.1; `tos`, `ttl` and `somme` are not read. */
  function EnTete(t: Trame, tos: u8, ttl: u8, somme: u16): (r: Octets)
    requires t.ihl <= 60 && t.decalage <= 0xfff8
    ensures |r| == 12
  {
    [0x40 + t.ihl / 4, tos] + DeuxOctets(t.total) + DeuxOctets(t.cle.id) + DeuxOctets(MotDeFragment(t)) + [ttl, PROTO_UDP] + DeuxOctets(somme)
  }

  function EcrireTrame(t: Trame, tos: u8, ttl: u8, somme: u16, options: Octets): Octets
    requires Ecrivable(t, options)
  {
    EnTete(t, tos, ttl, somme) + t.cle.src + t.cle.dst + options + t.charge
  }

  lemma EnTeteLu(t: Trame, tos: u8, ttl: u8, somme: u16, suite: Octets)
    requires t.ihl <= 60 && t.decalage <= 0xfff8
    ensures var p := EnTete(t, tos, ttl, somme) + suite;
            && p[0] == 0x40 + t.ihl / 4 && p[9] == PROTO_UDP
            && Mot(p, 2) == t.total && Mot(p, 4) == t.cle.id && Mot(p, 6) == MotDeFragment(t)
  {
    hide MotDeFragment;
    var p := EnTete(t, tos, ttl, somme) + suite;
    assert p[2..4] == DeuxOctets(t.total) && p[4..6] == DeuxOctets(t.cle.id) && p[6..8] == DeuxOctets(MotDeFragment(t));
    MotRelu(p, 2, t.total);
    MotRelu(p, 4, t.cle.id);
    MotRelu(p, 6, MotDeFragment(t));
  }

  lemma MotRelu(p: Octets, i: nat, n: u16)
    requires i + 2 <= |p| && p[i..i + 2] == DeuxOctets(n)
    ensures Mot(p, i) == n
  {
    assert p[i] == p[i..i + 2][0] && p[i + 1] == p[i..i + 2][1];
  }

  lemma MotDeFragmentLu(t: Trame)
    requires t.decalage % 8 == 0 && t.decalage <= 0xfff8
    ensures var d := MotDeFragment(t);
            (d / 0x2000 % 2 == 1 <==> t.encore) && d % 0x2000 * 8 == t.decalage && (d / 0x4000 % 2 == 1 <==> t.df)
  {
    var o := t.decalage / 8;
    assert o < 0x2000 && o * 8 == t.decalage;
  }

  /** Reading a written packet gives its fields back: identification, offset in
      bytes, flags and payload. */
  lemma TrameRelue(t: Trame, tos: u8, ttl: u8, somme: u16, options: Octets)
    requires Ecrivable(t, options)
    ensures LireTrame(EcrireTrame(t, tos, ttl, somme, options)) == Gardee(t)
  {
    hide EnTete, MotDeFragment, Mot;
    var e := EnTete(t, tos, ttl, somme);
    var p := EcrireTrame(t, tos, ttl, somme, options);
    assert p == e + (t.cle.src + t.cle.dst + options + t.charge);
    EnTeteLu(t, tos, ttl, somme, t.cle.src + t.cle.dst + options + t.charge);
    MotDeFragmentLu(t);
    assert p[12..16] == t.cle.src && p[16..20] == t.cle.dst && p[t.ihl..] == t.charge;
    assert t.ihl % 4 == 0 && p[0] % 16 * 4 == t.ihl;
  }

  predicate Entiere(t: Trame) { !t.encore && t.decalage == 0 }

  /** The pieces of one datagram, in the order the dictionary keeps them. */
  datatype Bout = Bout(decalage: nat, octets: Octets)

  datatype Entree = Entree(bouts: seq<Bout>, fin: Option<int>, df: bool)

  datatype Ligne = Entier(trame: Trame) | Reassemble(cle: Cle, bouts: nat, taille: int, df: bool, octets: Octets)

  datatype Etat = Etat(enCours: map<Cle, Entree>, lignes: seq<Ligne>)

  // ---------------------------------------------------------------------
  // Python's collections.
  // ---------------------------------------------------------------------

  /** `bouts[decalage] = octets`: a key already there keeps its place. */
  function Poser(b: seq<Bout>, d: nat, o: Octets): seq<Bout> {
    if b == [] then [Bout(d, o)]
    else if b[0].decalage == d then [Bout(d, o)] + b[1..]
    else [b[0]] + Poser(b[1..], d, o)
  }

  function Somme(b: seq<Bout>): nat { if b == [] then 0 else Somme(b[..|b| - 1]) + |b[|b| - 1].octets| }

  /** `a[d : d + len(o)] = o` on a bytearray: the bounds are clamped, the array may grow. */
  function Tranche(a: Octets, d: nat, o: Octets): Octets { a[..Min(d, |a|)] + o + a[Min(d + |o|, |a|)..] }

  /** The bytearray of `fin` zeros, each piece laid over it in turn. */
  function Assembler(fin: nat, b: seq<Bout>): Octets {
    if b == [] then seq(fin, i => 0) else Tranche(Assembler(fin, b[..|b| - 1]), b[|b| - 1].decalage, b[|b| - 1].octets)
  }

  // ---------------------------------------------------------------------
  // One packet.
  // ---------------------------------------------------------------------

  /** The entry once this fragment is in it. */
  function Recue(e: Option<Entree>, t: Trame): Entree {
    var avant := if e.Some? then e.value else Entree([], None, t.df);
    Entree(Poser(avant.bouts, t.decalage, t.charge), if t.encore then avant.fin else Some(t.decalage + t.total - t.ihl), avant.df)
  }

  predicate Complete(e: Entree) { e.fin.Some? && Somme(e.bouts) >= e.fin.value }

  function EnCoursDe(e: Etat, c: Cle): Option<Entree> { if c in e.enCours then Some(e.enCours[c]) else None }

  /** One turn of the loop; nothing when the source raises (a negative length). */
  function Pas(e: Etat, t: Trame): Option<Etat> {
    if Entiere(t) then Some(e.(lignes := e.lignes + [Entier(t)]))
    else
      var r := Recue(EnCoursDe(e, t.cle), t);
      if !Complete(r) then Some(e.(enCours := e.enCours[t.cle := r]))
      else if r.fin.value < 0 then None
      else
        var l := Reassemble(t.cle, |r.bouts|, r.fin.value + t.ihl, r.df, Assembler(r.fin.value, r.bouts));
        Some(Etat(e.enCours - {t.cle}, e.lignes + [l]))
  }

  function Lire(e: Etat, flux: seq<Trame>): Option<Etat> {
    if flux == [] then Some(e)
    else
      match Lire(e, flux[..|flux| - 1])
      case None => None
      case Some(s) => Pas(s, flux[|flux| - 1])
  }

  /** The dictionary and the lines, updated in place. */
  class Lecteur {
    var enCours: map<Cle, Entree>
    var lignes: seq<Ligne>

    constructor ()
      ensures Contenu() == Etat(map[], [])
    {
      enCours, lignes := map[], [];
    }

    function Contenu(): Etat
      reads this
    { Etat(enCours, lignes) }

    method SommeBouts(b: seq<Bout>) returns (n: nat)
      ensures n == Somme(b)
    {
      n := 0;
      for k := 0 to |b|
        invariant n == Somme(b[..k])
      {
        assert b[..k + 1][..k] == b[..k];
        n := n + |b[k].octets|;
      }
      assert b[..|b|] == b;
    }

    method AssemblerBouts(fin: nat, b: seq<Bout>) returns (a: Octets)
      ensures a == Assembler(fin, b)
    {
      a := seq(fin, i => 0);
      assert b[..0] == [];
      for k := 0 to |b|
        invariant a == Assembler(fin, b[..k])
      {
        assert b[..k + 1][..k] == b[..k];
        a := Tranche(a, b[k].decalage, b[k].octets);
      }
      assert b[..|b|] == b;
    }

    method Recevoir(t: Trame) returns (ok: bool)
      modifies this
      ensures ok <==> Pas(old(Contenu()), t).Some?
      ensures ok ==> Contenu() == Pas(old(Contenu()), t).value
      ensures t.encore == false && t.decalage == 0 ==> ok && enCours == old(enCours) && lignes == old(lignes) + [Entier(t)]
    {
      hide Poser, Somme, Assembler;
      if Entiere(t) {
        lignes := lignes + [Entier(t)];
        return true;
      }
      var e := if t.cle in enCours then enCours[t.cle] else Entree([], None, t.df);
      e := e.(bouts := Poser(e.bouts, t.decalage, t.charge));
      if !t.encore {
        e := e.(fin := Some(t.decalage + t.total - t.ihl));
      }
      enCours := enCours[t.cle := e];
      var somme := SommeBouts(e.bouts);
      if e.fin.Some? && somme >= e.fin.value {
        if e.fin.value < 0 {
          return false;
        }
        var assemble := AssemblerBouts(e.fin.value, e.bouts);
        lignes := lignes + [Reassemble(t.cle, |e.bouts|, e.fin.value + t.ihl, e.df, assemble)];
        enCours := enCours - {t.cle};
      }
      ok := true;
    }
  }
}
