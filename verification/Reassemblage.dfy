/**
 What the reassembly gives back: a datagram cut into fragments, captured in full,
 in any order (section 3.2 of RFC 791; scripts/quic-chronologie.py:152-174).
 */
module Reassemblage {
  import opened Commun
  import opened Fragments

  /** A datagram and where it is cut. */
  datatype Decoupe = Decoupe(octets: Octets, coupes: seq<nat>) {
    function Nombre(): int { |coupes| - 1 }

    /** Two pieces or more, none empty, the whole datagram. */
    ghost predicate Valide() {
      && |coupes| >= 3 && coupes[0] == 0 && coupes[|coupes| - 1] == |octets|
      && forall i, j :: 0 <= i < j < |coupes| ==> coupes[i] < coupes[j]
    }

    function Morceau(k: nat): Octets
      requires Valide() && k < Nombre()
    { octets[coupes[k]..coupes[k + 1]] }
  }

  /** `t` carries the piece `k`, whole. */
  ghost predicate EstMorceau(t: Trame, cle: Cle, c: Decoupe, k: nat) {
    && c.Valide() && k < c.Nombre()
    && t.cle == cle && t.decalage == c.coupes[k] && t.charge == c.Morceau(k)
    && (t.encore <==> k < c.Nombre() - 1) && t.total == t.ihl + |t.charge|
  }

  ghost predicate PourLui(t: Trame, cle: Cle) { !Entiere(t) && t.cle == cle }

  /** The fragments under this key are pieces of this datagram; the other packets
      are any, with a length the source can subtract. */
  ghost predicate FluxDe(flux: seq<Trame>, cle: Cle, c: Decoupe) {
    && (forall i :: 0 <= i < |flux| && PourLui(flux[i], cle) ==> exists k: nat :: EstMorceau(flux[i], cle, c, k))
    && (forall i :: 0 <= i < |flux| ==> flux[i].total >= flux[i].ihl)
  }

  ghost function Rang(t: Trame, cle: Cle, c: Decoupe): nat
    requires exists k: nat :: EstMorceau(t, cle, c, k)
  {
    var k: nat :| EstMorceau(t, cle, c, k); k
  }

  /** The pieces that arrived, in the order of their first arrival. */
  ghost function Arrivees(flux: seq<Trame>, cle: Cle, c: Decoupe): seq<nat>
    requires FluxDe(flux, cle, c)
  {
    if flux == [] then []
    else
      var p, t := Arrivees(flux[..|flux| - 1], cle, c), flux[|flux| - 1];
      if !PourLui(t, cle) || Rang(t, cle, c) in p then p else p + [Rang(t, cle, c)]
  }

  ghost predicate Rangs(c: Decoupe, o: seq<nat>) {
    && c.Valide() && (forall i :: 0 <= i < |o| ==> o[i] < c.Nombre())
    && forall i, j :: 0 <= i < j < |o| ==> o[i] != o[j]
  }

  lemma {:induction false} ArriveesRangs(flux: seq<Trame>, cle: Cle, c: Decoupe)
    requires FluxDe(flux, cle, c) && c.Valide()
    ensures Rangs(c, Arrivees(flux, cle, c))
  {
    if flux != [] {
      ArriveesRangs(flux[..|flux| - 1], cle, c);
    }
  }

  function BoutDe(c: Decoupe, k: nat): Bout
    requires c.Valide() && k < c.Nombre()
  { Bout(c.coupes[k], c.Morceau(k)) }

  function BoutsDe(c: Decoupe, o: seq<nat>): (b: seq<Bout>)
    requires c.Valide() && forall i :: 0 <= i < |o| ==> o[i] < c.Nombre()
    ensures |b| == |o| && forall i :: 0 <= i < |o| ==> b[i] == BoutDe(c, o[i])
  {
    if o == [] then [] else BoutsDe(c, o[..|o| - 1]) + [BoutDe(c, o[|o| - 1])]
  }

  lemma {:induction false} PoserAbsent(b: seq<Bout>, d: nat, x: Octets)
    requires forall i :: 0 <= i < |b| ==> b[i].decalage != d
    ensures Poser(b, d, x) == b + [Bout(d, x)]
  {
    if b != [] {
      PoserAbsent(b[1..], d, x);
    }
  }

  lemma {:induction false} PoserPresent(b: seq<Bout>, d: nat, x: Octets, i: nat)
    requires i < |b| && b[i] == Bout(d, x) && forall j :: 0 <= j < i ==> b[j].decalage != d
    ensures Poser(b, d, x) == b
  {
    if i > 0 {
      PoserPresent(b[1..], d, x, i - 1);
    }
  }

  /** A duplicate changes nothing, a new piece goes last. */
  lemma PoserMorceau(c: Decoupe, o: seq<nat>, k: nat)
    requires Rangs(c, o) && k < c.Nombre()
    ensures Poser(BoutsDe(c, o), c.coupes[k], c.Morceau(k)) == BoutsDe(c, if k in o then o else o + [k])
  {
    hide Poser, Decoupe.Morceau;
    var b := BoutsDe(c, o);
    forall i | 0 <= i < |o| && o[i] != k ensures b[i].decalage != c.coupes[k] {
      assert b[i] == BoutDe(c, o[i]);
      assert o[i] < k || k < o[i];
    }
    if k in o {
      var i :| 0 <= i < |o| && o[i] == k;
      PoserPresent(b, c.coupes[k], c.Morceau(k), i);
    } else {
      PoserAbsent(b, c.coupes[k], c.Morceau(k));
      assert (o + [k])[..|o|] == o;
    }
  }

  // ---------------------------------------------------------------------
  // Lengths: all the pieces, or fewer bytes than the datagram.
  // ---------------------------------------------------------------------

  function Taille(c: Decoupe, k: nat): nat
    requires c.Valide() && k < c.Nombre()
  { c.coupes[k + 1] - c.coupes[k] }

  /** The bytes of the pieces below `m` that are in `o`. */
  function Presents(c: Decoupe, o: seq<nat>, m: nat): nat
    requires c.Valide() && m <= c.Nombre()
  { if m == 0 then 0 else Presents(c, o, m - 1) + if m - 1 in o then Taille(c, m - 1) else 0 }

  lemma {:induction false} PresentsPlusUn(c: Decoupe, o: seq<nat>, k: nat, m: nat)
    requires c.Valide() && m <= c.Nombre() && k !in o && k < c.Nombre()
    ensures Presents(c, o + [k], m) == Presents(c, o, m) + if k < m then Taille(c, k) else 0
  {
    if m > 0 {
      PresentsPlusUn(c, o, k, m - 1);
      assert m - 1 in o + [k] <==> m - 1 in o || m - 1 == k;
    }
  }

  lemma SommeSuite(b: seq<Bout>, x: Bout)
    ensures Somme(b + [x]) == Somme(b) + |x.octets|
  {
  }

  lemma TailleDuMorceau(c: Decoupe, k: nat)
    requires c.Valide() && k < c.Nombre()
    ensures |BoutDe(c, k).octets| == Taille(c, k)
  {
  }

  lemma {:induction false} SommeBouts(c: Decoupe, o: seq<nat>)
    requires Rangs(c, o)
    ensures Somme(BoutsDe(c, o)) == Presents(c, o, c.Nombre())
  {
    if o == [] {
      AucunPresent(c, c.Nombre());
    } else {
      var p, k := o[..|o| - 1], o[|o| - 1];
      assert o == p + [k];
      assert BoutsDe(c, o) == BoutsDe(c, p) + [BoutDe(c, k)];
      hide Presents, Somme, BoutsDe, BoutDe;
      SommeBouts(c, p);
      PresentsPlusUn(c, p, k, c.Nombre());
      SommeSuite(BoutsDe(c, p), BoutDe(c, k));
      TailleDuMorceau(c, k);
    }
  }

  lemma {:induction false} AucunPresent(c: Decoupe, m: nat)
    requires c.Valide() && m <= c.Nombre()
    ensures Presents(c, [], m) == 0
  {
    if m > 0 {
      AucunPresent(c, m - 1);
    }
  }

  ghost predicate Toutes(c: Decoupe, o: seq<nat>) { forall k: nat :: k < c.Nombre() ==> k in o }

  lemma {:induction false} PresentsBorne(c: Decoupe, o: seq<nat>, m: nat)
    requires c.Valide() && m <= c.Nombre()
    ensures Presents(c, o, m) <= c.coupes[m]
    ensures Presents(c, o, m) == c.coupes[m] <==> forall k: nat :: k < m ==> k in o
  {
    if m > 0 {
      PresentsBorne(c, o, m - 1);
      assert c.coupes[m - 1] < c.coupes[m];
      if m - 1 in o && Presents(c, o, m) == c.coupes[m] {
        assert forall k: nat :: k < m ==> k in o;
      }
    }
  }

  /** The bytes received reach the length of the datagram exactly when no piece is
      missing. */
  lemma LongueurAtteinte(c: Decoupe, o: seq<nat>)
    requires Rangs(c, o)
    ensures Somme(BoutsDe(c, o)) <= |c.octets|
    ensures Somme(BoutsDe(c, o)) == |c.octets| <==> Toutes(c, o)
  {
    SommeBouts(c, o);
    PresentsBorne(c, o, c.Nombre());
  }

  // ---------------------------------------------------------------------
  // Bytes: laid in any order, the pieces are the datagram.
  // ---------------------------------------------------------------------

  predicate Extrait(b: Bout, d: Octets) {
    b.decalage + |b.octets| <= |d| && b.octets == d[b.decalage..b.decalage + |b.octets|]
  }

  predicate Couvre(b: Bout, x: nat) { b.decalage <= x < b.decalage + |b.octets| }

  ghost predicate Couvert(b: seq<Bout>, x: nat) { exists i :: 0 <= i < |b| && Couvre(b[i], x) }

  lemma TrancheDedans(a: Octets, b: Bout, x: nat)
    requires b.decalage + |b.octets| <= |a| && x < |a|
    ensures |Tranche(a, b.decalage, b.octets)| == |a|
    ensures Tranche(a, b.decalage, b.octets)[x] == if Couvre(b, x) then b.octets[x - b.decalage] else a[x]
  {
  }

  ghost predicate Extraits(b: seq<Bout>, d: Octets) { forall i :: 0 <= i < |b| ==> Extrait(b[i], d) }

  lemma {:induction false} AssemblerLongueur(d: Octets, b: seq<Bout>)
    requires Extraits(b, d)
    ensures |Assembler(|d|, b)| == |d|
  {
    if b != [] {
      AssemblerLongueur(d, b[..|b| - 1]);
    }
  }

  /** Extracts of a datagram, laid in any order, give its byte wherever one lies and
      a zero everywhere else. */
  lemma {:induction false} AssemblerExtraits(d: Octets, b: seq<Bout>, x: nat)
    requires Extraits(b, d) && x < |d|
    ensures |Assembler(|d|, b)| == |d|
    ensures Assembler(|d|, b)[x] == if Couvert(b, x) then d[x] else 0
  {
    if b != [] {
      var p, dernier := b[..|b| - 1], b[|b| - 1];
      AssemblerExtraits(d, p, x);
      hide Tranche;
      TrancheDedans(Assembler(|d|, p), dernier, x);
      if Couvert(b, x) && !Couvre(dernier, x) {
        var i :| 0 <= i < |b| && Couvre(b[i], x);
        assert p[i] == b[i];
      }
      if Couvert(p, x) {
        var i :| 0 <= i < |p| && Couvre(p[i], x);
        assert b[i] == p[i];
      }
    }
  }

  /** No byte is lost: each is covered, or is the zero the assembly starts from. */
  ghost predicate SansPerte(b: seq<Bout>, d: Octets) { forall x: nat :: x < |d| ==> Couvert(b, x) || d[x] == 0 }

  /** Extracts give the datagram back exactly when they lose no byte of it. */
  lemma AssembleExact(d: Octets, b: seq<Bout>)
    requires Extraits(b, d)
    ensures Assembler(|d|, b) == d <==> SansPerte(b, d)
  {
    hide Assembler, Couvert, Extraits;
    AssemblerLongueur(d, b);
    forall x: nat | x < |d| ensures Assembler(|d|, b)[x] == if Couvert(b, x) then d[x] else 0 {
      AssemblerExtraits(d, b, x);
    }
  }

  lemma BornesDuMorceau(c: Decoupe, k: nat)
    requires c.Valide() && k < c.Nombre()
    ensures c.coupes[k] < c.coupes[k + 1] <= |c.octets|
    ensures Extrait(BoutDe(c, k), c.octets)
  {
  }

  lemma {:induction false} Localiser(c: Decoupe, x: nat, m: nat) returns (k: nat)
    requires c.Valide() && m <= c.Nombre() && x < c.coupes[m]
    ensures k < m && c.coupes[k] <= x < c.coupes[k + 1]
  {
    if x >= c.coupes[m - 1] {
      k := m - 1;
    } else {
      k := Localiser(c, x, m - 1);
    }
  }

  lemma OctetCouvert(c: Decoupe, o: seq<nat>, x: nat)
    requires Rangs(c, o) && Toutes(c, o) && x < |c.octets|
    ensures Couvert(BoutsDe(c, o), x)
  {
    var k := Localiser(c, x, c.Nombre());
    assert k in o;
    var i :| 0 <= i < |o| && o[i] == k;
    BornesDuMorceau(c, k);
    assert BoutsDe(c, o)[i] == BoutDe(c, k);
  }

  lemma ToutesSansPerte(c: Decoupe, o: seq<nat>)
    requires Rangs(c, o) && Toutes(c, o)
    ensures SansPerte(BoutsDe(c, o), c.octets)
  {
    forall x: nat | x < |c.octets| ensures Couvert(BoutsDe(c, o), x) {
      OctetCouvert(c, o, x);
    }
  }

  // ---------------------------------------------------------------------
  // The run, for any true fragments of one datagram.
  // ---------------------------------------------------------------------

  /** A fragment of a datagram, cut anywhere. */
  ghost predicate EstExtrait(t: Trame, cle: Cle, d: Octets) {
    && t.cle == cle && Extrait(Bout(t.decalage, t.charge), d) && t.total == t.ihl + |t.charge|
    && (t.encore <==> t.decalage + |t.charge| < |d|)
  }

  /** The fragments under this key are true fragments of this datagram; the other
      packets are any, with a length the source can subtract. */
  ghost predicate FluxVrai(flux: seq<Trame>, cle: Cle, d: Octets) {
    && (forall i :: 0 <= i < |flux| && PourLui(flux[i], cle) ==> EstExtrait(flux[i], cle, d))
    && (forall i :: 0 <= i < |flux| ==> flux[i].total >= flux[i].ihl)
  }

  /** What the dictionary keeps of the fragments received: the last at each offset. */
  ghost function Gardes(flux: seq<Trame>, cle: Cle): seq<Bout> {
    if flux == [] then []
    else
      var p, t := Gardes(flux[..|flux| - 1], cle), flux[|flux| - 1];
      if PourLui(t, cle) then Poser(p, t.decalage, t.charge) else p
  }

  /** A fragment that ends the datagram was received. */
  ghost predicate FinVue(flux: seq<Trame>, cle: Cle) { exists i :: 0 <= i < |flux| && PourLui(flux[i], cle) && !flux[i].encore }

  /** The test that lets a datagram out. */
  ghost predicate Acheve(flux: seq<Trame>, cle: Cle, d: Octets) { FinVue(flux, cle) && Somme(Gardes(flux, cle)) >= |d| }

  /** No packet so far passed that test. */
  ghost predicate PasEncore(flux: seq<Trame>, cle: Cle, d: Octets) {
    !Acheve(flux, cle, d) && (flux != [] ==> PasEncore(flux[..|flux| - 1], cle, d))
  }

  /** Lines of one key. */
  function LignesDe(l: seq<Ligne>, cle: Cle): seq<Ligne> {
    if l == [] then []
    else
      var x := l[|l| - 1];
      LignesDe(l[..|l| - 1], cle) + if x.Reassemble? && x.cle == cle then [x] else []
  }

  lemma LignesSuite(l: seq<Ligne>, x: Ligne, cle: Cle)
    ensures LignesDe(l + [x], cle) == LignesDe(l, cle) + if x.Reassemble? && x.cle == cle then [x] else []
  {
  }

  /** No entry waits for a negative length. */
  ghost predicate Sain(e: Etat) {
    forall k :: k in e.enCours && e.enCours[k].fin.Some? ==> e.enCours[k].fin.value >= 0
  }

  lemma PasAutre(e: Etat, t: Trame, cle: Cle)
    requires Sain(e) && t.total >= t.ihl && !PourLui(t, cle)
    ensures Pas(e, t).Some? && Sain(Pas(e, t).value)
    ensures EnCoursDe(Pas(e, t).value, cle) == EnCoursDe(e, cle)
    ensures LignesDe(Pas(e, t).value.lignes, cle) == LignesDe(e.lignes, cle)
  {
  }

  lemma PasRecue(e: Etat, t: Trame)
    requires !Entiere(t)
    ensures var r := Recue(EnCoursDe(e, t.cle), t);
            && (!Complete(r) ==> Pas(e, t) == Some(e.(enCours := e.enCours[t.cle := r])))
            && (Complete(r) && r.fin.value >= 0 ==>
                  Pas(e, t) == Some(Etat(e.enCours - {t.cle},
                    e.lignes + [Reassemble(t.cle, |r.bouts|, r.fin.value + t.ihl, r.df, Assembler(r.fin.value, r.bouts))])))
  {
  }

  /** What is held once `flux` was read and nothing came out. */
  ghost predicate Tenu(x: Option<Entree>, flux: seq<Trame>, cle: Cle, d: Octets) {
    if Gardes(flux, cle) == [] then x == None && !FinVue(flux, cle)
    else x.Some? && x.value.bouts == Gardes(flux, cle) && x.value.fin == if FinVue(flux, cle) then Some(|d|) else None
  }

  /** One more packet seen. */
  lemma Vus(flux: seq<Trame>, cle: Cle)
    requires flux != []
    ensures var p, t := flux[..|flux| - 1], flux[|flux| - 1];
            && (FinVue(flux, cle) <==> FinVue(p, cle) || (PourLui(t, cle) && !t.encore))
            && Gardes(flux, cle) == if PourLui(t, cle) then Poser(Gardes(p, cle), t.decalage, t.charge) else Gardes(p, cle)
  {
    var p, t := flux[..|flux| - 1], flux[|flux| - 1];
    if FinVue(p, cle) {
      var i :| 0 <= i < |p| && PourLui(p[i], cle) && !p[i].encore;
      assert flux[i] == p[i];
    }
    if FinVue(flux, cle) {
      var i :| 0 <= i < |flux| && PourLui(flux[i], cle) && !flux[i].encore;
      assert i < |p| ==> p[i] == flux[i];
    }
  }

  /** A true fragment received: the entry it makes. */
  lemma RecueVraie(x: Option<Entree>, flux: seq<Trame>, cle: Cle, d: Octets)
    requires flux != [] && Tenu(x, flux[..|flux| - 1], cle, d)
    requires PourLui(flux[|flux| - 1], cle) && EstExtrait(flux[|flux| - 1], cle, d)
    ensures Tenu(Some(Recue(x, flux[|flux| - 1])), flux, cle, d)
    ensures Complete(Recue(x, flux[|flux| - 1])) <==> Acheve(flux, cle, d)
  {
    hide Gardes, FinVue, Somme, Poser, Extrait, EstExtrait;
    Vus(flux, cle);
    FinDe(flux[|flux| - 1], cle, d);
    PoserNonVide(Gardes(flux[..|flux| - 1], cle), flux[|flux| - 1].decalage, flux[|flux| - 1].charge);
  }

  lemma FinDe(t: Trame, cle: Cle, d: Octets)
    requires EstExtrait(t, cle, d)
    ensures t.cle == cle && (!t.encore ==> t.decalage + t.total - t.ihl == |d|)
  {
  }

  lemma PoserNonVide(b: seq<Bout>, d: nat, o: Octets)
    ensures Poser(b, d, o) != []
  {
  }

  /** While the test has not passed, nothing comes out for this key, and what is held
      is what was kept. */
  lemma {:induction false} RienNeSort(e: Etat, flux: seq<Trame>, cle: Cle, d: Octets)
    requires Sain(e) && cle !in e.enCours && FluxVrai(flux, cle, d) && PasEncore(flux, cle, d)
    ensures Lire(e, flux).Some? && Sain(Lire(e, flux).value)
    ensures Tenu(EnCoursDe(Lire(e, flux).value, cle), flux, cle, d)
    ensures LignesDe(Lire(e, flux).value.lignes, cle) == LignesDe(e.lignes, cle)
  {
    if flux != [] {
      var p, t := flux[..|flux| - 1], flux[|flux| - 1];
      RienNeSort(e, p, cle, d);
      var s := Lire(e, p).value;
      Vus(flux, cle);
      assert PourLui(t, cle) ==> EstExtrait(t, cle, d);
      hide Pas, LignesDe, Gardes, FinVue, Acheve, Recue, Complete, EstExtrait;
      if PourLui(t, cle) {
        RecueVraie(EnCoursDe(s, cle), flux, cle, d);
        PasRecue(s, t);
      } else {
        PasAutre(s, t, cle);
      }
    }
  }

  lemma {:induction false} PoserExtrait(b: seq<Bout>, x: Bout, d: Octets)
    requires Extraits(b, d) && Extrait(x, d)
    ensures Extraits(Poser(b, x.decalage, x.octets), d)
  {
    if b != [] {
      PoserExtrait(b[1..], x, d);
    }
  }

  lemma {:induction false} GardesExtraits(flux: seq<Trame>, cle: Cle, d: Octets)
    requires FluxVrai(flux, cle, d)
    ensures Extraits(Gardes(flux, cle), d)
  {
    if flux != [] {
      var p, t := flux[..|flux| - 1], flux[|flux| - 1];
      GardesExtraits(p, cle, d);
      if PourLui(t, cle) {
        assert EstExtrait(t, cle, d);
        PoserExtrait(Gardes(p, cle), Bout(t.decalage, t.charge), d);
      }
    }
  }

  /** The line given for `d`, from what was kept of its fragments. */
  ghost predicate LigneDe(l: Ligne, flux: seq<Trame>, cle: Cle, d: Octets)
    requires flux != []
  {
    && l.Reassemble? && l.cle == cle && l.octets == Assembler(|d|, Gardes(flux, cle))
    && l.bouts == |Gardes(flux, cle)| && l.taille == |d| + flux[|flux| - 1].ihl
  }

  /** Reassembly of true fragments, cut anywhere, in any order, repeated, overlapping,
      among packets of other keys. With the packet that first brings enough bytes
      exactly one datagram comes out for this key and the key is free again; its
      bytes are the original's exactly when every byte of it but zeros lies in a
      fragment the dictionary still holds. */
  lemma SortieExacte(e: Etat, flux: seq<Trame>, cle: Cle, d: Octets) returns (l: Ligne)
    requires Sain(e) && cle !in e.enCours && flux != [] && FluxVrai(flux, cle, d)
    requires PasEncore(flux[..|flux| - 1], cle, d) && Acheve(flux, cle, d)
    ensures Lire(e, flux).Some? && cle !in Lire(e, flux).value.enCours
    ensures LignesDe(Lire(e, flux[..|flux| - 1]).value.lignes, cle) == LignesDe(e.lignes, cle)
    ensures LignesDe(Lire(e, flux).value.lignes, cle) == LignesDe(e.lignes, cle) + [l] && LigneDe(l, flux, cle, d)
    ensures l.octets == d <==> SansPerte(Gardes(flux, cle), d)
  {
    hide Pas, LignesDe, Gardes, FinVue, EstExtrait, Somme, Assembler, Extraits, SansPerte, PasEncore, Complete, Tenu;
    var p, t := flux[..|flux| - 1], flux[|flux| - 1];
    RienNeSort(e, p, cle, d);
    GardesExtraits(flux, cle, d);
    Derniere(flux, cle, d);
    var s := Lire(e, p).value;
    RecueVraie(EnCoursDe(s, cle), flux, cle, d);
    l := PasSort(s, flux, cle, d);
    LignesSuite(s.lignes, l, cle);
    AssembleExact(d, Gardes(flux, cle));
  }

  /** The packet that passes the test is a fragment of the datagram. */
  lemma Derniere(flux: seq<Trame>, cle: Cle, d: Octets)
    requires flux != [] && FluxVrai(flux, cle, d) && PasEncore(flux[..|flux| - 1], cle, d) && Acheve(flux, cle, d)
    ensures PourLui(flux[|flux| - 1], cle) && EstExtrait(flux[|flux| - 1], cle, d)
  {
    hide Gardes, FinVue, EstExtrait, Somme;
    Vus(flux, cle);
  }

  /** The turn of the loop that lets the datagram out. */
  lemma PasSort(s: Etat, flux: seq<Trame>, cle: Cle, d: Octets) returns (l: Ligne)
    requires flux != [] && PourLui(flux[|flux| - 1], cle)
    requires var r := Recue(EnCoursDe(s, cle), flux[|flux| - 1]); Tenu(Some(r), flux, cle, d) && Complete(r)
    ensures Pas(s, flux[|flux| - 1]) == Some(Etat(s.enCours - {cle}, s.lignes + [l])) && LigneDe(l, flux, cle, d)
  {
    hide Recue, Pas, Gardes, FinVue, Somme, Assembler;
    var t := flux[|flux| - 1];
    var r := Recue(EnCoursDe(s, cle), t);
    PasRecue(s, t);
    l := Reassemble(t.cle, |r.bouts|, r.fin.value + t.ihl, r.df, Assembler(|d|, r.bouts));
  }

  // ---------------------------------------------------------------------
  // A partition.
  // ---------------------------------------------------------------------

  lemma MorceauExtrait(t: Trame, cle: Cle, c: Decoupe, k: nat)
    requires EstMorceau(t, cle, c, k)
    ensures EstExtrait(t, cle, c.octets)
  {
    BornesDuMorceau(c, k);
  }

  lemma PartitionVraie(flux: seq<Trame>, cle: Cle, c: Decoupe)
    requires FluxDe(flux, cle, c)
    ensures FluxVrai(flux, cle, c.octets)
  {
    hide EstMorceau, EstExtrait;
    forall i | 0 <= i < |flux| && PourLui(flux[i], cle) ensures EstExtrait(flux[i], cle, c.octets) {
      var k: nat :| EstMorceau(flux[i], cle, c, k);
      MorceauExtrait(flux[i], cle, c, k);
    }
  }

  /** One more piece kept. */
  lemma GardesMorceau(b: seq<Bout>, t: Trame, cle: Cle, c: Decoupe, o: seq<nat>, k: nat)
    requires Rangs(c, o) && EstMorceau(t, cle, c, k) && b == BoutsDe(c, o)
    ensures var q := if k in o then o else o + [k];
            && Rangs(c, q) && Poser(b, t.decalage, t.charge) == BoutsDe(c, q)
            && (c.Nombre() - 1 in q <==> c.Nombre() - 1 in o || !t.encore)
  {
    hide BoutsDe, Poser, Rangs, Decoupe.Morceau;
    RangAjoute(c, o, k);
    PoserMorceau(c, o, k);
  }

  lemma RangAjoute(c: Decoupe, o: seq<nat>, k: nat)
    requires Rangs(c, o) && k < c.Nombre()
    ensures Rangs(c, if k in o then o else o + [k])
  {
  }

  /** What is kept of a partition are the pieces that arrived. */
  lemma {:induction false} GardesArrivees(flux: seq<Trame>, cle: Cle, c: Decoupe)
    requires FluxDe(flux, cle, c) && c.Valide()
    ensures Rangs(c, Arrivees(flux, cle, c))
    ensures Gardes(flux, cle) == BoutsDe(c, Arrivees(flux, cle, c))
    ensures FinVue(flux, cle) <==> c.Nombre() - 1 in Arrivees(flux, cle, c)
  {
    ArriveesRangs(flux, cle, c);
    if flux != [] {
      var p, t := flux[..|flux| - 1], flux[|flux| - 1];
      GardesArrivees(p, cle, c);
      Vus(flux, cle);
      hide Gardes, FinVue, Rangs, BoutsDe, EstMorceau;
      if PourLui(t, cle) {
        GardesMorceau(Gardes(p, cle), t, cle, c, Arrivees(p, cle, c), Rang(t, cle, c));
      }
    }
  }

  /** The test passes exactly when no piece is missing. */
  lemma AcheveToutes(flux: seq<Trame>, cle: Cle, c: Decoupe)
    requires FluxDe(flux, cle, c) && c.Valide()
    ensures Rangs(c, Arrivees(flux, cle, c))
    ensures Acheve(flux, cle, c.octets) <==> Toutes(c, Arrivees(flux, cle, c))
  {
    GardesArrivees(flux, cle, c);
    LongueurAtteinte(c, Arrivees(flux, cle, c));
    if Toutes(c, Arrivees(flux, cle, c)) {
      var k: nat := c.Nombre() - 1;
      assert k in Arrivees(flux, cle, c);
    }
  }

  lemma {:induction false} PasEncoreToutes(flux: seq<Trame>, cle: Cle, c: Decoupe)
    requires FluxDe(flux, cle, c) && c.Valide() && !Toutes(c, Arrivees(flux, cle, c))
    ensures PasEncore(flux, cle, c.octets)
  {
    AcheveToutes(flux, cle, c);
    if flux != [] {
      PasEncoreToutes(flux[..|flux| - 1], cle, c);
    }
  }

  lemma ToutesComptees(c: Decoupe, o: seq<nat>)
    requires Rangs(c, o) && Toutes(c, o)
    ensures |o| == c.Nombre()
  {
    var s := set x | x in o;
    DistinctsComptes(o, s);
    Premiers(c.Nombre(), s);
  }

  lemma {:induction false} DistinctsComptes(o: seq<nat>, s: set<nat>)
    requires forall i, j :: 0 <= i < j < |o| ==> o[i] != o[j]
    requires forall x :: x in s <==> x in o
    ensures |s| == |o|
  {
    if o == [] {
      assert s == {};
    } else {
      assert o[0] in s;
      forall x ensures x in s - {o[0]} <==> x in o[1..] {
        assert o == [o[0]] + o[1..];
      }
      DistinctsComptes(o[1..], s - {o[0]});
    }
  }

  lemma {:induction false} Premiers(n: nat, s: set<nat>)
    requires forall x: nat :: x in s <==> x < n
    ensures |s| == n
  {
    if n == 0 {
      assert s == {};
    } else {
      Premiers(n - 1, s - {n - 1});
    }
  }

  /** The line a reassembled datagram must give. */
  ghost predicate Sortie(l: Ligne, cle: Cle, c: Decoupe, derniere: Trame) {
    l.Reassemble? && l.cle == cle && l.octets == c.octets && l.bouts == c.Nombre() && l.taille == |c.octets| + derniere.ihl
  }

  /** As long as a piece is missing, nothing comes out for this key, and what is
      held is what arrived. */
  lemma EnAttente(e: Etat, flux: seq<Trame>, cle: Cle, c: Decoupe)
    requires Sain(e) && cle !in e.enCours && c.Valide() && FluxDe(flux, cle, c)
    requires !Toutes(c, Arrivees(flux, cle, c))
    ensures Rangs(c, Arrivees(flux, cle, c)) && Lire(e, flux).Some?
    ensures var x, o := EnCoursDe(Lire(e, flux).value, cle), Arrivees(flux, cle, c);
            if o == [] then x == None else x.Some? && x.value.bouts == BoutsDe(c, o)
    ensures LignesDe(Lire(e, flux).value.lignes, cle) == LignesDe(e.lignes, cle)
  {
    hide Toutes, Rangs, FluxDe, FluxVrai, PasEncore, Gardes, FinVue, Lire, Sain;
    PasEncoreToutes(flux, cle, c);
    PartitionVraie(flux, cle, c);
    GardesArrivees(flux, cle, c);
    RienNeSort(e, flux, cle, c.octets);
  }

  lemma PrefixeDe(flux: seq<Trame>, cle: Cle, c: Decoupe)
    requires FluxDe(flux, cle, c) && flux != []
    ensures FluxDe(flux[..|flux| - 1], cle, c)
  {
  }

  /** Reassembly. The pieces of a datagram arrive in any order, with duplicates,
      among packets of other keys; the last packet brings the last missing piece.
      Then exactly one datagram came out for this key, with that packet, and its
      bytes are the original's. */
  lemma Reassemblee(e: Etat, flux: seq<Trame>, cle: Cle, c: Decoupe)
    requires Sain(e) && cle !in e.enCours && c.Valide() && flux != [] && FluxDe(flux, cle, c)
    requires !Toutes(c, Arrivees(flux[..|flux| - 1], cle, c)) && Toutes(c, Arrivees(flux, cle, c))
    ensures Lire(e, flux).Some? && cle !in Lire(e, flux).value.enCours
    ensures exists l :: Sortie(l, cle, c, flux[|flux| - 1]) && LignesDe(Lire(e, flux).value.lignes, cle) == LignesDe(e.lignes, cle) + [l]
    ensures LignesDe(Lire(e, flux[..|flux| - 1]).value.lignes, cle) == LignesDe(e.lignes, cle)
  {
    PrefixeDe(flux, cle, c);
    hide Somme, Pas, Toutes, Rangs, FluxDe, FluxVrai, PasEncore, Gardes, Arrivees, Lire, Sain, Acheve, SansPerte, LignesDe, Decoupe.Valide;
    PasEncoreToutes(flux[..|flux| - 1], cle, c);
    var o := Arrivees(flux, cle, c);
    AcheveToutes(flux, cle, c);
    PartitionVraie(flux, cle, c);
    GardesArrivees(flux, cle, c);
    ToutesSansPerte(c, o);
    ToutesComptees(c, o);
    var l := SortieExacte(e, flux, cle, c.octets);
    assert Sortie(l, cle, c, flux[|flux| - 1]);
  }

  // ---------------------------------------------------------------------
  // Fragments that overlap.
  // ---------------------------------------------------------------------

  /** [0, u), [8, u) and [w, |d|): the first two overlap, a hole precedes the last. */
  function TroisTrames(cle: Cle, d: Octets, u: nat, w: nat): seq<Trame>
    requires 16 <= u < w < |d| <= 65515
  {
    [Trame(cle, 20, 20 + u, true, 0, false, d[0..u]), Trame(cle, 20, 12 + u, true, 8, false, d[8..u]),
     Trame(cle, 20, 20 + |d| - w, false, w, false, d[w..|d|])]
  }

  /** Three true fragments of a datagram, the first two overlapping, a hole before
      the last: their lengths add up to the datagram's, it comes out early, and it
      is another one unless the hole held zeros. */
  lemma RecouvrementTrompe(cle: Cle, d: Octets, u: nat, w: nat) returns (flux: seq<Trame>, l: Ligne)
    requires 16 <= u < w < |d| <= 65515 && w <= 2 * u - 8 && u % 8 == 0 && w % 8 == 0
    ensures |flux| == 3 && FluxVrai(flux, cle, d) && forall t :: t in flux ==> PourLui(t, cle) && t.decalage % 8 == 0
    ensures Lire(Etat(map[], []), flux).Some? && LignesDe(Lire(Etat(map[], []), flux).value.lignes, cle) == [l]
    ensures l.Reassemble? && (l.octets == d <==> forall x: nat :: u <= x < w ==> d[x] == 0)
  {
    hide Lire, LignesDe, Assembler, SansPerte, Gardes, PasEncore, Acheve, TroisTrames, TroisBouts, FluxVrai, PourLui;
    flux := TroisTrames(cle, d, u, w);
    TroisVraies(cle, d, u, w);
    TroisGardees(cle, d, u, w);
    l := SortieExacte(Etat(map[], []), flux, cle, d);
    SansLigne(l, cle);
    Troue(d, u, w);
  }

  lemma SansLigne(l: Ligne, cle: Cle)
    ensures LignesDe([], cle) + [l] == [l]
  {
  }

  lemma TroisVraies(cle: Cle, d: Octets, u: nat, w: nat)
    requires 16 <= u < w < |d| <= 65515 && w % 8 == 0
    ensures |TroisTrames(cle, d, u, w)| == 3 && FluxVrai(TroisTrames(cle, d, u, w), cle, d)
    ensures forall t :: t in TroisTrames(cle, d, u, w) ==> PourLui(t, cle) && t.decalage % 8 == 0
  {
  }

  lemma TroisGardees(cle: Cle, d: Octets, u: nat, w: nat)
    requires 16 <= u < w < |d| <= 65515 && w <= 2 * u - 8
    ensures var flux := TroisTrames(cle, d, u, w);
            PasEncore(flux[..2], cle, d) && Acheve(flux, cle, d) && Gardes(flux, cle) == TroisBouts(d, u, w)
  {
    var flux := TroisTrames(cle, d, u, w);
    var x, y, z := Bout(0, d[0..u]), Bout(8, d[8..u]), Bout(w, d[w..|d|]);
    PoserAbsent([], 0, x.octets);
    PoserAbsent([x], 8, y.octets);
    PoserAbsent([x, y], w, z.octets);
    hide Poser, Somme;
    SommeSuite([], x);
    SommeSuite([x], y);
    SommeSuite([x, y], z);
    assert Somme([]) == 0 by { SommeVide(); }
    assert [] + [x] == [x] && [x] + [y] == [x, y] && [x, y] + [z] == [x, y, z];
    assert flux[..2][..1] == flux[..1] && flux[..1][..0] == [];
    assert Gardes(flux[..1], cle) == [x];
    assert Gardes(flux[..2], cle) == [x, y];
    assert Gardes(flux, cle) == [x, y, z];
    assert PourLui(flux[2], cle);
    assert PasEncore(flux[..1], cle, d);
  }

  lemma SommeVide()
    ensures Somme([]) == 0
  {
  }

  function TroisBouts(d: Octets, u: nat, w: nat): seq<Bout>
    requires 8 <= u <= w <= |d|
  {
    [Bout(0, d[0..u]), Bout(8, d[8..u]), Bout(w, d[w..|d|])]
  }

  lemma Troue(d: Octets, u: nat, w: nat)
    requires 16 <= u < w < |d|
    ensures SansPerte(TroisBouts(d, u, w), d) <==> forall x: nat :: u <= x < w ==> d[x] == 0
  {
    var b := TroisBouts(d, u, w);
    forall x: nat | x < |d| ensures Couvert(b, x) <==> x < u || w <= x {
      assert Couvre(b[0], x) <==> x < u;
      assert Couvre(b[2], x) <==> w <= x;
    }
  }
}
