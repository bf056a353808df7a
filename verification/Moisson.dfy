/**
 The choice among channels (crates/bifrost-amorce/src/lib.rs:158-221). Asking a
 channel and checking a signature give `Muet`, `Suspect` or `Authentique` here.
 */
module Moisson {
  import opened Commun

  /** What an authentic channel brought: its profile, its signature, its series. */
  datatype Apport = Apport(profil: string, signature: string, serie: Option<u64>)

  datatype Reponse = Muet(pourquoi: string) | Suspect(pourquoi: string) | Authentique(apport: Apport)

  datatype Canal = Canal(nom: string, reponse: Reponse)

  datatype Issue = IssueMuet(pourquoi: string) | IssueSuspect(pourquoi: string) | IssueAuthentique(serie: Option<u64>)

  datatype Passage = Passage(canal: string, issue: Issue)

  datatype Retenu = Retenu(canal: string, apport: Apport)

  /** `abreger`, over characters; the count it adds is left to `compte`. */
  function Abreger(nom: string, compte: nat -> string): string {
    if |nom| <= 100 then nom else nom[..100] + "... (" + compte(|nom|) + " caracteres)"
  }

  /** `merite_d_etre_retenu`. */
  predicate Merite(tenu: Option<Retenu>, serie: Option<u64>) {
    match (if tenu.Some? then tenu.value.apport.serie else None, serie)
    case (_, None) => tenu.None?
    case (None, Some(_)) => true
    case (Some(ancienne), Some(neuve)) => neuve > ancienne
  }

  // ---------------------------------------------------------------------
  // The specification: the first authentic channel of the highest series.
  // ---------------------------------------------------------------------

  /** Series in order, none being the lowest. */
  function Rang(s: Option<u64>): nat { if s.Some? then s.value + 1 else 0 }

  predicate EstAuthentique(c: Canal) { c.reponse.Authentique? }

  /** `k` is the first of the authentic channels whose series none exceeds. */
  ghost predicate Premier(l: seq<Canal>, k: nat) {
    && k < |l| && EstAuthentique(l[k])
    && (forall j :: 0 <= j < |l| && EstAuthentique(l[j]) ==> Rang(l[j].reponse.apport.serie) <= Rang(l[k].reponse.apport.serie))
    && (forall j :: 0 <= j < k && EstAuthentique(l[j]) ==> Rang(l[j].reponse.apport.serie) < Rang(l[k].reponse.apport.serie))
  }

  ghost predicate Choisi(l: seq<Canal>, compte: nat -> string, r: Option<Retenu>) {
    match r
    case None => forall j :: 0 <= j < |l| ==> !EstAuthentique(l[j])
    case Some(x) => exists k: nat :: Premier(l, k) && x == Retenu(Abreger(l[k].nom, compte), l[k].reponse.apport)
  }

  function IssueDe(r: Reponse): Issue {
    match r
    case Muet(p) => IssueMuet(p)
    case Suspect(p) => IssueSuspect(p)
    case Authentique(a) => IssueAuthentique(a.serie)
  }

  function PassageDe(c: Canal, compte: nat -> string): Passage { Passage(Abreger(c.nom, compte), IssueDe(c.reponse)) }

  lemma MeriteRang(tenu: Option<Retenu>, serie: Option<u64>)
    ensures Merite(tenu, serie) <==> tenu.None? || Rang(serie) > Rang(tenu.value.apport.serie)
  {
  }

  lemma UnDePlus(l: seq<Canal>, c: Canal, compte: nat -> string, r: Option<Retenu>)
    requires Choisi(l, compte, r)
    ensures !EstAuthentique(c) ==> Choisi(l + [c], compte, r)
    ensures EstAuthentique(c) && Merite(r, c.reponse.apport.serie) ==>
              Choisi(l + [c], compte, Some(Retenu(Abreger(c.nom, compte), c.reponse.apport)))
    ensures EstAuthentique(c) && !Merite(r, c.reponse.apport.serie) ==> Choisi(l + [c], compte, r)
  {
    hide Rang, Abreger;
    var m := l + [c];
    if EstAuthentique(c) {
      MeriteRang(r, c.reponse.apport.serie);
    }
    if r.Some? {
      var k: nat :| Premier(l, k) && r.value == Retenu(Abreger(l[k].nom, compte), l[k].reponse.apport);
      assert m[k] == l[k];
      if !EstAuthentique(c) || !Merite(r, c.reponse.apport.serie) {
        assert Premier(m, k);
      } else {
        assert Premier(m, |l|);
      }
    } else if EstAuthentique(c) {
      assert Premier(m, |l|);
    }
  }

  /** `recuperer`: every channel is asked and reported, and the profile kept is the
      first authentic one of the highest series, whatever the other channels are. */
  method Recuperer(canaux: seq<Canal>, compte: nat -> string) returns (retenu: Option<Retenu>, journal: seq<Passage>)
    ensures Choisi(canaux, compte, retenu)
    ensures |journal| == |canaux| && forall i :: 0 <= i < |canaux| ==> journal[i] == PassageDe(canaux[i], compte)
  {
    hide Choisi, Merite, Abreger;
    retenu, journal := None, [];
    RienEncore(compte);
    for i := 0 to |canaux|
      invariant Choisi(canaux[..i], compte, retenu)
      invariant |journal| == i && forall k :: 0 <= k < i ==> journal[k] == PassageDe(canaux[k], compte)
    {
      var canal := canaux[i];
      var nom := Abreger(canal.nom, compte);
      var issue: Issue;
      assert canaux[..i + 1] == canaux[..i] + [canal];
      UnDePlus(canaux[..i], canal, compte, retenu);
      match canal.reponse {
        case Muet(pourquoi) => issue := IssueMuet(pourquoi);
        case Suspect(pourquoi) => issue := IssueSuspect(pourquoi);
        case Authentique(apport) =>
          if Merite(retenu, apport.serie) {
            retenu := Some(Retenu(nom, apport));
          }
          issue := IssueAuthentique(apport.serie);
      }
      journal := journal + [Passage(nom, issue)];
    }
    assert canaux[..|canaux|] == canaux;
  }

  lemma RienEncore(compte: nat -> string)
    ensures forall l: seq<Canal> :: l == [] ==> Choisi(l, compte, None)
  {
  }

  // ---------------------------------------------------------------------
  // What the choice does not depend on.
  // ---------------------------------------------------------------------

  lemma ChoixUnique(l: seq<Canal>, compte: nat -> string, r: Option<Retenu>, s: Option<Retenu>)
    requires Choisi(l, compte, r) && Choisi(l, compte, s)
    ensures r == s
  {
  }

  function Authentiques(l: seq<Canal>): seq<Canal> {
    if l == [] then [] else Authentiques(l[..|l| - 1]) + if EstAuthentique(l[|l| - 1]) then [l[|l| - 1]] else []
  }

  /** The choice is made among the authentic channels alone. */
  lemma {:induction false} ChoisiParmiAuthentiques(l: seq<Canal>, compte: nat -> string, r: Option<Retenu>)
    requires Choisi(Authentiques(l), compte, r)
    ensures Choisi(l, compte, r)
  {
    if l != [] {
      var p, c := l[..|l| - 1], l[|l| - 1];
      var q := Existe(Authentiques(p), compte);
      ChoisiParmiAuthentiques(p, compte, q);
      assert l == p + [c];
      UnDePlus(p, c, compte, q);
      UnDePlus(Authentiques(p), c, compte, q);
      hide Choisi, Merite, Abreger;
      if EstAuthentique(c) {
        var neuf := Some(Retenu(Abreger(c.nom, compte), c.reponse.apport));
        ChoixUnique(Authentiques(l), compte, r, if Merite(q, c.reponse.apport.serie) then neuf else q);
      } else {
        assert Authentiques(l) == Authentiques(p);
        ChoixUnique(Authentiques(p), compte, r, q);
      }
    }
  }

  /** A choice always exists. */
  lemma {:induction false} Existe(l: seq<Canal>, compte: nat -> string) returns (r: Option<Retenu>)
    ensures Choisi(l, compte, r)
  {
    if l == [] {
      r := None;
    } else {
      var p, c := l[..|l| - 1], l[|l| - 1];
      var q := Existe(p, compte);
      assert l == p + [c];
      UnDePlus(p, c, compte, q);
      r := if EstAuthentique(c) && Merite(q, c.reponse.apport.serie) then Some(Retenu(Abreger(c.nom, compte), c.reponse.apport)) else q;
    }
  }

  lemma {:induction false} InsertionIgnoree(a: seq<Canal>, c: Canal, b: seq<Canal>)
    requires !EstAuthentique(c)
    ensures Authentiques(a + [c] + b) == Authentiques(a + b)
    decreases |b|
  {
    if b == [] {
      assert a + [c] + b == a + [c] && a + b == a;
      assert (a + [c])[..|a|] == a;
    } else {
      var m := |b| - 1;
      assert (a + [c] + b)[..|a| + 1 + m] == a + [c] + b[..m];
      assert (a + b)[..|a| + m] == a + b[..m];
      InsertionIgnoree(a, c, b[..m]);
    }
  }

  /** What is kept depends on the authentic channels alone, in their order. */
  lemma SansEffet(a: seq<Canal>, b: seq<Canal>, compte: nat -> string, r: Option<Retenu>, s: Option<Retenu>)
    requires Authentiques(a) == Authentiques(b)
    requires Choisi(a, compte, r) && Choisi(b, compte, s)
    ensures r == s
  {
    var q := Existe(Authentiques(a), compte);
    ChoisiParmiAuthentiques(a, compte, q);
    ChoisiParmiAuthentiques(b, compte, q);
    ChoixUnique(a, compte, r, q);
    ChoixUnique(b, compte, s, q);
  }

  /** A mute or suspect channel, inserted anywhere, never changes what is kept. */
  lemma InsertionSansEffet(a: seq<Canal>, c: Canal, b: seq<Canal>, compte: nat -> string, r: Option<Retenu>, s: Option<Retenu>)
    requires !EstAuthentique(c)
    requires Choisi(a + b, compte, r) && Choisi(a + [c] + b, compte, s)
    ensures r == s
  {
    InsertionIgnoree(a, c, b);
    SansEffet(a + b, a + [c] + b, compte, r, s);
  }

  /** The order of the channels never changes the series kept. */
  lemma SerieSansOrdre(a: seq<Canal>, b: seq<Canal>, compte: nat -> string, r: Option<Retenu>, s: Option<Retenu>)
    requires multiset(a) == multiset(b)
    requires Choisi(a, compte, r) && Choisi(b, compte, s)
    ensures r.Some? <==> s.Some?
    ensures r.Some? ==> r.value.apport.serie == s.value.apport.serie
  {
    if r.Some? {
      SerieAtteinte(a, b, compte, r, s);
    }
    if s.Some? {
      SerieAtteinte(b, a, compte, s, r);
    }
  }

  lemma SerieAtteinte(a: seq<Canal>, b: seq<Canal>, compte: nat -> string, r: Option<Retenu>, s: Option<Retenu>)
    requires multiset(a) == multiset(b) && Choisi(a, compte, r) && Choisi(b, compte, s) && r.Some?
    ensures s.Some? && Rang(r.value.apport.serie) <= Rang(s.value.apport.serie)
  {
    var k: nat :| Premier(a, k) && r.value == Retenu(Abreger(a[k].nom, compte), a[k].reponse.apport);
    assert a[k] in multiset(a);
    assert a[k] in multiset(b);
    var j :| 0 <= j < |b| && b[j] == a[k];
    assert EstAuthentique(b[j]);
  }

  /** A channel without a series never displaces one that has one, wherever it is. */
  lemma SansSerie(l: seq<Canal>, compte: nat -> string, r: Option<Retenu>, j: nat)
    requires Choisi(l, compte, r) && j < |l| && EstAuthentique(l[j]) && l[j].reponse.apport.serie.Some?
    ensures r.Some? && r.value.apport.serie.Some? && r.value.apport.serie.value >= l[j].reponse.apport.serie.value
  {
  }

  /** What is said of each channel: silent, suspect or authentic, under its name cut at
      a hundred characters. */
  lemma JournalExact(c: Canal, compte: nat -> string)
    ensures PassageDe(c, compte).issue ==
      match c.reponse
      case Muet(p) => IssueMuet(p)
      case Suspect(p) => IssueSuspect(p)
      case Authentique(a) => IssueAuthentique(a.serie)
    ensures PassageDe(c, compte).canal == if |c.nom| < 101 then c.nom else c.nom[..100] + "... (" + compte(|c.nom|) + " caracteres)"
  {
  }
}
