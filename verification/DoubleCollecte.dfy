/**
 The bracket of the three collections without a generation number
 (crates/bifrost-cli/src/preuve_routes.rs:220-236, preuve_routes_windows.rs:112-127,
 preuve_dns.rs:496-509): two complete reads, each made of several parts read one
 after the other, that must be equal.
 */
module DoubleCollecte {
  import opened Commun

  /** What the system holds at one instant, part by part. */
  type Etat = seq<string>

  /** How the bracket ends: `Instable` is the source's INSTABLE reason. */
  datatype Collecte = Stable(etat: Etat) | Instable | Illisible(raison: string)

  ghost predicate Execution(e: seq<Etat>, parties: nat) {
    |e| > 0 && forall j :: 0 <= j < |e| ==> |e[j]| == parties
  }

  /** `v` was read between `i` and `k`: each part as it was at some instant of
      that stretch, not all at the same one. */
  ghost predicate Lue(e: seq<Etat>, parties: nat, i: nat, k: nat, v: Etat)
    requires Execution(e, parties) && i <= k < |e|
  {
    |v| == parties && forall c :: 0 <= c < parties ==> PartieLue(e, parties, i, k, c, v[c])
  }

  ghost predicate PartieLue(e: seq<Etat>, parties: nat, i: nat, k: nat, c: nat, v: string)
    requires Execution(e, parties) && i <= k < |e| && c < parties
  {
    exists j :: i <= j <= k && e[j][c] == v
  }

  /** No part comes back to a value it has left. */
  ghost predicate SansRetour(e: seq<Etat>, parties: nat, i: nat, k: nat)
    requires Execution(e, parties) && i <= k < |e|
  {
    forall c, a, b, d :: 0 <= c < parties && i <= a <= b <= d <= k && e[a][c] == e[d][c] ==> e[b][c] == e[a][c]
  }

  ghost predicate Immobile(e: seq<Etat>, i: nat, k: nat)
    requires i <= k < |e|
  {
    forall j :: i <= j <= k ==> e[j] == e[i]
  }

  /** Two equal reads, the second begun after the first ended: at every instant
      between them the system held exactly what was read. */
  lemma DeuxLecturesEgales(e: seq<Etat>, parties: nat, i: nat, m: nat, t: nat, n: nat, k: nat, v: Etat)
    requires Execution(e, parties) && i <= m <= t <= n <= k < |e|
    requires SansRetour(e, parties, i, k)
    requires Lue(e, parties, i, m, v) && Lue(e, parties, n, k, v)
    ensures e[t] == v
  {
    forall c | 0 <= c < parties ensures e[t][c] == v[c] {
      assert PartieLue(e, parties, i, m, c, v[c]) && PartieLue(e, parties, n, k, c, v[c]);
      var a :| i <= a <= m && e[a][c] == v[c];
      var d :| n <= d <= k && e[d][c] == v[c];
    }
  }

  /** One read of a system that does not move is that system. */
  lemma LectureImmobile(e: seq<Etat>, parties: nat, i: nat, k: nat, v: Etat)
    requires Execution(e, parties) && i <= k < |e| && Immobile(e, i, k) && Lue(e, parties, i, k, v)
    ensures v == e[i]
  {
  }

  /** Changes that undo themselves between the reads escape: two equal reads of
      a state the system never held. */
  lemma RetourTrompe() returns (e: seq<Etat>, v: Etat)
    ensures Execution(e, 2) && |e| == 4
    ensures Lue(e, 2, 0, 1, v) && Lue(e, 2, 2, 3, v)
    ensures forall j :: 0 <= j < 4 ==> e[j] != v
    ensures !SansRetour(e, 2, 0, 3)
  {
    var p, q: Etat := ["a", "b"], ["b", "a"];
    e, v := [p, q, p, q], ["a", "a"];
    assert "a"[0] != "b"[0];
    assert PartieLue(e, 2, 0, 1, 0, "a") by { assert e[0][0] == "a"; }
    assert PartieLue(e, 2, 0, 1, 1, "a") by { assert e[1][1] == "a"; }
    assert PartieLue(e, 2, 2, 3, 0, "a") by { assert e[2][0] == "a"; }
    assert PartieLue(e, 2, 2, 3, 1, "a") by { assert e[3][1] == "a"; }
    assert e[0][0] == e[2][0] && e[1][0] != e[0][0];
  }

  /** Any two equal reads of the stretch, one begun when the other ended, give the
      state between them. */
  ghost predicate LecturesFideles(e: seq<Etat>, parties: nat, i: nat, k: nat)
    requires Execution(e, parties) && i <= k < |e|
  {
    forall a: nat, m: nat, d: nat, v: Etat ::
      (i <= a <= m <= d <= k && Lue(e, parties, a, m, v) && Lue(e, parties, m, d, v)) ==> e[m] == v
  }

  /** The double read is faithful exactly where no part comes back to a value it
      has left. */
  lemma FidelesSansRetour(e: seq<Etat>, parties: nat, i: nat, k: nat)
    requires Execution(e, parties) && i <= k < |e|
    ensures LecturesFideles(e, parties, i, k) <==> SansRetour(e, parties, i, k)
  {
    if SansRetour(e, parties, i, k) {
      forall a: nat, m: nat, d: nat, v: Etat | i <= a <= m <= d <= k && Lue(e, parties, a, m, v) && Lue(e, parties, m, d, v)
        ensures e[m] == v
      {
        DeuxLecturesEgales(e, parties, a, m, m, m, d, v);
      }
    } else {
      var c, a, b, d :| 0 <= c < parties && i <= a <= b <= d <= k && e[a][c] == e[d][c] && e[b][c] != e[a][c];
      RetourLu(e, parties, c, a, b, d);
    }
  }

  /** A part that came back: two equal reads around the instant it was away. */
  lemma RetourLu(e: seq<Etat>, parties: nat, c: nat, a: nat, b: nat, d: nat)
    requires Execution(e, parties) && c < parties && a <= b <= d < |e| && e[a][c] == e[d][c]
    ensures var v := e[b][c := e[a][c]]; Lue(e, parties, a, b, v) && Lue(e, parties, b, d, v)
  {
    var v := e[b][c := e[a][c]];
    forall x | 0 <= x < parties ensures PartieLue(e, parties, a, b, x, v[x]) && PartieLue(e, parties, b, d, x, v[x]) {
      if x == c {
        assert e[a][x] == v[x] && e[d][x] == v[x];
      } else {
        assert e[b][x] == v[x];
      }
    }
  }

  /** What a bracket that began at `i` and ended at `k` may answer, after `pannes` failed
      reads: unreadable exactly when a read failed; unstable only of a system that moved;
      stable, it gives the state of a still system, and of some instant of any system
      where no change undoes itself. */
  ghost predicate Fidele(e: seq<Etat>, parties: nat, i: nat, k: nat, pannes: nat, c: Collecte)
    requires Execution(e, parties) && i <= k < |e|
  {
    && (c.Illisible? <==> pannes > 0)
    && (c.Instable? ==> !Immobile(e, i, k))
    && (c.Stable? && Immobile(e, i, k) ==> c.etat == e[i])
    && (c.Stable? && SansRetour(e, parties, i, k) ==> exists t :: i <= t <= k && e[t] == c.etat)
  }

  /** The system being read: any number of changes may happen before each part is
      read, and a read may fail; `pannes` counts those that did. */
  class Systeme {
    const execution: seq<Etat>
    const parties: nat
    var instant: nat
    ghost var pannes: nat

    constructor (execution: seq<Etat>, parties: nat)
      requires Execution(execution, parties)
      ensures Valid() && this.execution == execution && this.parties == parties && instant == 0
    {
      this.execution := execution;
      this.parties := parties;
      instant := 0;
      pannes := 0;
    }

    ghost predicate Valid()
      reads this
    {
      Execution(execution, parties) && instant < |execution|
    }

    method Attendre()
      requires Valid()
      modifies this`instant
      ensures Valid() && old(instant) <= instant
    {
      var pas: nat :| instant <= pas < |execution|;
      instant := pas;
    }

    method LirePartie(c: nat) returns (r: Result<string>)
      requires Valid() && c < parties
      modifies this`instant, this`pannes
      ensures Valid() && old(instant) <= instant
      ensures if r.Ok? then pannes == old(pannes) && r.value == execution[instant][c] else pannes == old(pannes) + 1
    {
      Attendre();
      if * {
        pannes := pannes + 1;
        r := Err("lecture impossible");
      } else {
        r := Ok(execution[instant][c]);
      }
    }

    method LireUneFois() returns (r: Result<Etat>)
      requires Valid()
      modifies this`instant, this`pannes
      ensures Valid() && old(instant) <= instant
      ensures if r.Ok? then pannes == old(pannes) else pannes > old(pannes)
      ensures r.Ok? ==> Lue(execution, parties, old(instant), instant, r.value)
    {
      var v: Etat := [];
      while |v| < parties
        invariant Valid() && old(instant) <= instant && |v| <= parties && pannes == old(pannes)
        invariant forall c :: 0 <= c < |v| ==> PartieLue(execution, parties, old(instant), instant, c, v[c])
      {
        ghost var avant := instant;
        var p := LirePartie(|v|);
        if p.Err? {
          return Err(p.raison);
        }
        forall c | 0 <= c < |v| ensures PartieLue(execution, parties, old(instant), instant, c, v[c]) {
          assert PartieLue(execution, parties, old(instant), avant, c, v[c]);
        }
        v := v + [p.value];
      }
      r := Ok(v);
    }

    /** `encadrer`. Accepted: with no change that undoes itself, one instant had
        exactly the observed state. Refused as unstable: the system moved. */
    method Encadrer() returns (r: Collecte)
      requires Valid()
      modifies this`instant, this`pannes
      ensures Valid() && old(instant) <= instant && old(pannes) <= pannes
      ensures Fidele(execution, parties, old(instant), instant, pannes - old(pannes), r)
    {
      ghost var debut := instant;
      var premiere := LireUneFois();
      if premiere.Err? {
        return Illisible(premiere.raison);
      }
      ghost var milieu := instant;
      var seconde := LireUneFois();
      if seconde.Err? {
        return Illisible(seconde.raison);
      }
      if Immobile(execution, debut, instant) {
        assert Immobile(execution, debut, milieu) && Immobile(execution, milieu, instant);
        LectureImmobile(execution, parties, debut, milieu, premiere.value);
        LectureImmobile(execution, parties, milieu, instant, seconde.value);
      }
      if premiere.value != seconde.value {
        return Instable;
      }
      r := Stable(premiere.value);
      if SansRetour(execution, parties, debut, instant) {
        DeuxLecturesEgales(execution, parties, debut, milieu, milieu, milieu, instant, r.etat);
      }
    }
  }
}
