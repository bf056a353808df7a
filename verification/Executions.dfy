/**
 The world a proof by declaration runs in: a daemon that applies, withdraws,
 fails and restarts (crates/bifrost-daemon/src/supervisor.rs:182-234), and a
 kernel whose ruleset anyone may change, each change bumping its generation.
 A run is a sequence of states; what a reader saw is related to it here.
 */
module Executions {
  import opened Commun

  /** A policy handed to the engine, what the engine read of its host to apply it,
      and their projection: a serialised record, compared as a whole, never read. */
  type Politique = string
  type Environnement = string
  type Projection = string

  const MOTEUR_WFP := "wfp"

  /** An engine and what each projection makes of a policy; either may make none
      (a path that is not UTF-8, a value that does not serialise). */
  datatype Moteur = Moteur(nom: string, wfp: (Politique, Environnement) -> Option<Projection>, nft: Politique -> Option<Projection>)

  /** `projeter`: the WFP engine's projection needs what the engine read of its host. */
  function Projeter(m: Moteur, p: Politique, env: Option<Environnement>): Option<Projection> {
    if m.nom == MOTEUR_WFP then (if env.None? then None else m.wfp(p, env.value)) else m.nft(p)
  }

  datatype Retenue = Rien | Posee(politique: Politique, environnement: Option<Environnement>) | Retiree | Echec

  /** One life of the daemon, and what its last call to the engine left. */
  datatype Demon = Demon(instance: string, application: u64, retenue: Retenue)

  datatype Issue = IssueAucune | IssuePosee | IssueRetiree | IssueEchec

  datatype Declaration = Declaration(instance: string, application: u64, moteur: string, issue: Issue, politique: Option<Projection>)

  /** `Declaration::publier`. */
  function Publier(d: Demon, m: Moteur): Declaration {
    match d.retenue
    case Rien => Declaration(d.instance, d.application, m.nom, IssueAucune, None)
    case Posee(p, env) => Declaration(d.instance, d.application, m.nom, IssuePosee, Projeter(m, p, env))
    case Retiree => Declaration(d.instance, d.application, m.nom, IssueRetiree, None)
    case Echec => Declaration(d.instance, d.application, m.nom, IssueEchec, None)
  }

  /** `Declaration::noter`: every call counts, up to saturation. */
  function Noter(d: Demon, r: Retenue): Demon {
    Demon(d.instance, if d.application == U64_MAX then U64_MAX else d.application + 1, r)
  }

  /** `changements` counts every change of the ruleset; the kernel shows 32 bits of it. */
  datatype Noyau = Noyau(regles: seq<string>, changements: nat) {
    function Generation(): u32 { changements % 0x1_0000_0000 }
  }

  datatype Etat = Etat(demon: Demon, noyau: Noyau, instances: set<string>)

  ghost predicate Initial(s: Etat) {
    s.demon.application == 0 && s.demon.retenue == Rien && (s.demon.instance == "" || s.demon.instance in s.instances)
  }

  /** One step of the world. A restarted daemon draws an instance never used
      before, or none at all when the system has no randomness to give. */
  ghost predicate Pas(s: Etat, t: Etat) {
    || s == t
    || (t.demon.retenue != Rien && t == s.(demon := Noter(s.demon, t.demon.retenue)))
    || (var i := t.demon.instance; (i == "" || i !in s.instances) && t == Etat(Demon(i, 0, Rien), s.noyau, s.instances + {i}))
    || t == s.(noyau := Noyau(t.noyau.regles, s.noyau.changements + 1))
  }

  ghost predicate Execution(e: seq<Etat>) {
    && |e| > 0 && (e[0].demon.instance == "" || e[0].demon.instance in e[0].instances)
    && forall n :: 0 <= n < |e| - 1 ==> Pas(e[n], e[n + 1])
  }

  // ---------------------------------------------------------------------
  // The strict reader.
  // ---------------------------------------------------------------------

  predicate InstanceValide(instance: string) {
    32 <= |instance| <= 128 && forall i :: 0 <= i < |instance| ==> '0' <= instance[i] <= '9' || 'a' <= instance[i] <= 'f'
  }

  /** The coherence rules of `analyser`. */
  predicate Coherente(d: Declaration) {
    && InstanceValide(d.instance)
    && d.moteur != ""
    && match d.issue
       case IssueAucune => d.application == 0 && d.politique.None?
       case IssuePosee => d.application > 0 && d.politique.Some?
       case IssueRetiree => d.application > 0 && d.politique.None?
       case IssueEchec => d.application > 0 && d.politique.None?
  }

  ghost predicate NumeroteSiAppele(s: Etat) { s.demon.application == 0 <==> s.demon.retenue == Rien }

  lemma PasGardeLeNumero(s: Etat, t: Etat)
    requires NumeroteSiAppele(s) && Pas(s, t)
    ensures NumeroteSiAppele(t)
  {
  }

  /** The policy in service has a projection for the engine in service. */
  predicate Projetable(d: Demon, m: Moteur) { d.retenue.Posee? ==> Projeter(m, d.retenue.politique, d.retenue.environnement).Some? }

  /** In every state of every run, what the daemon publishes is accepted by the
      strict reader exactly when it has an instance and its policy a projection. */
  lemma {:induction false} PublieeCoherente(e: seq<Etat>, n: nat, m: Moteur)
    requires Execution(e) && Initial(e[0]) && n < |e| && m.nom != ""
    ensures NumeroteSiAppele(e[n])
    ensures Coherente(Publier(e[n].demon, m)) <==> InstanceValide(e[n].demon.instance) && Projetable(e[n].demon, m)
  {
    if n > 0 {
      PublieeCoherente(e, n - 1, m);
      PasGardeLeNumero(e[n - 1], e[n - 1 + 1]);
    }
  }

  /** The WFP engine accepted a policy and did not say what it read of its host:
      the daemon publishes an installed policy that its own reader refuses. */
  lemma SansEnvironnement(instance: string, p: Politique, m: Moteur) returns (e: seq<Etat>)
    requires InstanceValide(instance) && m.nom == MOTEUR_WFP
    ensures Execution(e) && Initial(e[0]) && |e| == 2
    ensures e[1].demon.retenue == Posee(p, None) && InstanceValide(e[1].demon.instance)
    ensures Publier(e[1].demon, m).issue == IssuePosee && !Coherente(Publier(e[1].demon, m))
  {
    var d := Demon(instance, 0, Rien);
    e := [Etat(d, Noyau([], 0), {instance}), Etat(Noter(d, Posee(p, None)), Noyau([], 0), {instance})];
    assert Pas(e[0], e[1]);
  }

  // ---------------------------------------------------------------------
  // Two equal declarations.
  // ---------------------------------------------------------------------

  ghost predicate VieConnue(s: Etat) { s.demon.instance == "" || s.demon.instance in s.instances }

  ghost predicate MemeVie(s: Etat, t: Etat) {
    && t.demon.instance == s.demon.instance && s.demon.application <= t.demon.application
    && (s.demon.application == t.demon.application < U64_MAX ==> s.demon == t.demon)
  }

  /** Between two states: the same life of the daemon with a number that only
      grows, or another life. */
  ghost predicate SuiteDe(s: Etat, t: Etat) {
    && s.instances <= t.instances && VieConnue(t)
    && s.noyau.changements <= t.noyau.changements
    && (s.noyau.changements == t.noyau.changements ==> s.noyau == t.noyau)
    && (MemeVie(s, t) || t.demon.instance == "" || t.demon.instance !in s.instances)
  }

  lemma SuiteTransitive(s: Etat, t: Etat, u: Etat)
    requires VieConnue(s) && SuiteDe(s, t) && Pas(t, u)
    ensures SuiteDe(s, u)
  {
  }

  lemma {:induction false} ExecutionSuite(e: seq<Etat>, i: nat, k: nat)
    requires Execution(e) && i <= k < |e|
    ensures SuiteDe(e[i], e[k])
    decreases k
  {
    if k == 0 {
    } else if i == k {
      ExecutionSuite(e, i - 1, k - 1);
      SuiteTransitive(e[i - 1], e[i - 1], e[i - 1 + 1]);
    } else {
      ExecutionSuite(e, i, k - 1);
      ExecutionSuite(e, i, i);
      SuiteTransitive(e[i], e[k - 1], e[k - 1 + 1]);
    }
  }

  /** Two equal declarations of a valid instance, below saturation: the daemon
      was in that one state all the way between them. */
  lemma DeclarationStable(e: seq<Etat>, i: nat, j: nat, k: nat, m: Moteur)
    requires Execution(e) && i <= j <= k < |e|
    requires Publier(e[i].demon, m) == Publier(e[k].demon, m)
    requires InstanceValide(e[i].demon.instance) && e[i].demon.application < U64_MAX
    ensures e[j].demon == e[i].demon
  {
    ExecutionSuite(e, i, i);
    ExecutionSuite(e, i, j);
    ExecutionSuite(e, j, k);
    ExecutionSuite(e, i, k);
    assert e[i].demon.instance in e[i].instances;
  }

  /** Two equal generations with fewer than 2^32 changes between: one ruleset
      all the way. */
  lemma GenerationStable(e: seq<Etat>, i: nat, j: nat, k: nat)
    requires Execution(e) && i <= j <= k < |e|
    requires e[i].noyau.Generation() == e[k].noyau.Generation()
    requires e[k].noyau.changements - e[i].noyau.changements < 0x1_0000_0000
    ensures e[j].noyau == e[i].noyau
  {
    ExecutionSuite(e, i, j);
    ExecutionSuite(e, j, k);
    MemeReste(e[i].noyau.changements, e[k].noyau.changements);
  }

  lemma MemeReste(a: nat, b: nat)
    requires a <= b < a + 0x1_0000_0000 && a % 0x1_0000_0000 == b % 0x1_0000_0000
    ensures a == b
  {
  }

  // ---------------------------------------------------------------------
  // Why both bounds are needed.
  // ---------------------------------------------------------------------

  /** Between any two equal declarations of this state, whatever the run, the
      daemon stayed in it. */
  ghost predicate ToujoursStable(d: Demon, m: Moteur) {
    forall e: seq<Etat>, i: nat, j: nat, k: nat ::
      Execution(e) && i <= j <= k < |e| && e[i].demon == d && Publier(e[k].demon, m) == Publier(d, m) ==> e[j].demon == d
  }

  /** Another answer of the engine than `r`. */
  function Autre(r: Retenue): Retenue { if r == Retiree then Echec else Retiree }

  /** A life that called the engine until its number saturated in state `d`, then
      once more, had its kernel changed and changed back, and called it again. */
  function EtatSature(d: Demon, n: nat, capture: seq<string>): Etat {
    var b := Demon(d.instance, U64_MAX, Autre(d.retenue));
    if n == 0 then Etat(Demon(d.instance, 0, Rien), Noyau([], 0), {d.instance})
    else if n < U64_MAX then Etat(Demon(d.instance, n, d.retenue), Noyau([], 0), {d.instance})
    else if n == U64_MAX then Etat(d, Noyau([], 0), {d.instance})
    else if n == U64_MAX + 1 then Etat(b, Noyau([], 0), {d.instance})
    else if n == U64_MAX + 2 then Etat(b, Noyau(capture, 1), {d.instance})
    else if n == U64_MAX + 3 then Etat(b, Noyau([], 2), {d.instance})
    else Etat(d, Noyau([], 2), {d.instance})
  }

  /** A saturated number, in a run from the daemon's start: the daemon left its
      state and came back to it, the two declarations are equal, and the ruleset
      held in between never was under the declared state. */
  lemma SaturationTrompe(d: Demon, m: Moteur, capture: seq<string>) returns (e: seq<Etat>)
    requires InstanceValide(d.instance) && d.application == U64_MAX && d.retenue != Rien && capture != []
    ensures |e| == U64_MAX + 5 && Execution(e) && Initial(e[0])
    ensures e[U64_MAX].demon == d && e[U64_MAX + 4].demon == d
    ensures e[U64_MAX + 2].noyau.regles == capture && Publier(e[U64_MAX + 2].demon, m) != Publier(d, m)
    ensures forall j :: U64_MAX <= j < |e| ==> !(Publier(e[j].demon, m) == Publier(d, m) && e[j].noyau.regles == capture)
  {
    e := seq(U64_MAX + 5, n requires 0 <= n => EtatSature(d, n, capture));
    assert Publier(Demon(d.instance, U64_MAX, Autre(d.retenue)), m).issue != Publier(d, m).issue;
    forall n | 0 <= n < |e| - 1 ensures Pas(e[n], e[n + 1]) {
      PasSature(d, n, capture);
    }
    forall j | U64_MAX <= j < |e| ensures !(Publier(e[j].demon, m) == Publier(d, m) && e[j].noyau.regles == capture) {
      assert e[j] == EtatSature(d, j, capture);
    }
  }

  lemma PasSature(d: Demon, n: nat, capture: seq<string>)
    requires d.application == U64_MAX && d.retenue != Rien && n < U64_MAX + 4
    ensures Pas(EtatSature(d, n, capture), EtatSature(d, n + 1, capture))
  {
    var s, t := EtatSature(d, n, capture), EtatSature(d, n + 1, capture);
    if n <= U64_MAX || n == U64_MAX + 3 {
      assert t == s.(demon := Noter(s.demon, t.demon.retenue));
    } else {
      assert t == s.(noyau := Noyau(t.noyau.regles, s.noyau.changements + 1));
    }
  }

  /** For a daemon with an instance that has called its engine, equal declarations
      attribute what lies between them exactly when its number is not saturated. */
  lemma StableSiNonSature(d: Demon, m: Moteur)
    requires InstanceValide(d.instance) && d.retenue != Rien
    ensures ToujoursStable(d, m) <==> d.application < U64_MAX
  {
    if d.application < U64_MAX {
      forall e: seq<Etat>, i: nat, j: nat, k: nat
        | Execution(e) && i <= j <= k < |e| && e[i].demon == d && Publier(e[k].demon, m) == Publier(d, m)
        ensures e[j].demon == d
      {
        DeclarationStable(e, i, j, k, m);
      }
    } else {
      var e := SaturationTrompe(d, m, ["regle"]);
      var i: nat, j: nat, k: nat := U64_MAX, U64_MAX + 2, U64_MAX + 4;
      assert e[j].demon != d;
      assert Execution(e) && i <= j <= k < |e| && e[i].demon == d && Publier(e[k].demon, m) == Publier(d, m);
    }
  }

  /** 2^32 changes: the generation is the same before and after, and a dump read
      rule by rule in between is a ruleset the kernel never held, while the daemon,
      whose declaration a reader accepts, did nothing. */
  lemma GenerationRevenue(d: Demon) returns (e: seq<Etat>, capture: seq<string>)
    requires InstanceValide(d.instance)
    ensures Execution(e) && |e| == 0x1_0000_0001
    ensures forall j :: 0 <= j < |e| ==> e[j].demon == d
    ensures forall j :: 0 <= j < |e| ==> e[j].noyau.changements == j
    ensures e[0].noyau.regles == [] && e[0].noyau.Generation() == e[0x1_0000_0000].noyau.Generation()
    ensures |capture| == 2
    ensures |e[1].noyau.regles| == 2 && capture[0] == e[1].noyau.regles[0]
    ensures |e[2].noyau.regles| == 2 && capture[1] == e[2].noyau.regles[1]
    ensures forall j :: 0 <= j < |e| ==> e[j].noyau.regles != capture
  {
    var regles := (n: nat) => if n == 1 then ["a", "x"] else if n == 2 then ["y", "b"] else [];
    e := seq(0x1_0000_0001, n requires 0 <= n => Etat(d, Noyau(regles(n), n), {d.instance}));
    capture := ["a", "b"];
    assert "a" != "y" && "b" != "x" by { assert "a"[0] == 'a' && "b"[0] == 'b'; assert "x"[0] == 'x' && "y"[0] == 'y'; }
    forall n | 0 <= n < |e| - 1 ensures Pas(e[n], e[n + 1]) {
    }
    forall j | 0 <= j < |e| ensures e[j].noyau.regles != capture {
      assert e[j].noyau.regles == regles(j);
      if j == 1 {
        assert regles(1)[1] == "x" && capture[1] == "b";
      } else if j == 2 {
        assert regles(2)[0] == "y" && capture[0] == "a";
      }
    }
  }

  /** Within `c` changes of the ruleset, two equal generations fix it. */
  ghost predicate GenerationFiable(c: nat) {
    forall e: seq<Etat>, i: nat, j: nat, k: nat ::
      (Execution(e) && i <= j <= k < |e| && e[i].noyau.Generation() == e[k].noyau.Generation()
       && e[k].noyau.changements - e[i].noyau.changements <= c) ==> e[j].noyau == e[i].noyau
  }

  /** Equal generations attribute a capture exactly while fewer than 2^32 changes
      may lie between them. */
  lemma GenerationFiableSi(c: nat)
    ensures GenerationFiable(c) <==> c < 0x1_0000_0000
  {
    if c < 0x1_0000_0000 {
      forall e: seq<Etat>, i: nat, j: nat, k: nat
        | Execution(e) && i <= j <= k < |e| && e[i].noyau.Generation() == e[k].noyau.Generation()
          && e[k].noyau.changements - e[i].noyau.changements <= c
        ensures e[j].noyau == e[i].noyau
      {
        GenerationStable(e, i, j, k);
      }
    } else {
      var d := Demon(seq(32, _ => '0'), 0, Rien);
      var e, capture := GenerationRevenue(d);
      var i: nat, j: nat, k: nat := 0, 1, 0x1_0000_0000;
      assert e[j].noyau != e[i].noyau;
      assert Execution(e) && i <= j <= k < |e|;
    }
  }

  // ---------------------------------------------------------------------
  // What is published, exactly.
  // ---------------------------------------------------------------------

  /** Any run goes on with a restart under an instance not used yet, the kernel as it
      was, and no declaration before it is the one published then. */
  lemma Redemarrage(e: seq<Etat>, instance: string, m: Moteur) returns (f: seq<Etat>)
    requires Execution(e) && instance != "" && instance !in e[|e| - 1].instances
    ensures Execution(f) && |f| == |e| + 1 && f[..|e|] == e
    ensures f[|e|].demon == Demon(instance, 0, Rien) && f[|e|].noyau == e[|e| - 1].noyau
    ensures forall n :: 0 <= n < |e| ==> Publier(e[n].demon, m) != Publier(f[|e|].demon, m)
  {
    hide Publier, Pas;
    var s := e[|e| - 1];
    var t := Etat(Demon(instance, 0, Rien), s.noyau, s.instances + {instance});
    f := e + [t];
    PasDeRedemarrage(s, instance);
    UnEtatDePlus(e, t);
    forall n | 0 <= n < |e| ensures Publier(e[n].demon, m) != Publier(t.demon, m) {
      ExecutionSuite(e, n, n);
      ExecutionSuite(e, n, |e| - 1);
      InstancePubliee(e[n].demon, t.demon, m);
    }
  }

  /** A run goes on whatever the engine or the kernel does next: a call of some outcome
      counts one, unless the number is the last; a change of the ruleset counts one. */
  lemma RunProlonge(e: seq<Etat>, r: Retenue, regles: seq<string>)
    requires Execution(e)
    ensures var s := e[|e| - 1];
            && (r != Rien ==>
                  Execution(e + [Etat(Demon(s.demon.instance, if s.demon.application < 0xffff_ffff_ffff_ffff then s.demon.application + 1 else s.demon.application, r),
                                      s.noyau, s.instances)]))
            && Execution(e + [Etat(s.demon, Noyau(regles, s.noyau.changements + 1), s.instances)]) && Execution(e + [s])
  {
    hide Pas;
    var s := e[|e| - 1];
    forall t | Pas(s, t) ensures Execution(e + [t]) {
      UnEtatDePlus(e, t);
    }
    Possibles(s, r, regles);
  }

  lemma UnEtatDePlus(e: seq<Etat>, t: Etat)
    requires Execution(e) && Pas(e[|e| - 1], t)
    ensures Execution(e + [t])
  {
    hide Pas;
    var f := e + [t];
    forall n | 0 <= n < |f| - 1 ensures Pas(f[n], f[n + 1]) {
      if n < |e| - 1 {
        assert f[n] == e[n] && f[n + 1] == e[n + 1];
      }
    }
  }

  lemma Possibles(s: Etat, r: Retenue, regles: seq<string>)
    ensures r != Rien ==>
      Pas(s, Etat(Demon(s.demon.instance, if s.demon.application < 0xffff_ffff_ffff_ffff then s.demon.application + 1 else s.demon.application, r), s.noyau, s.instances))
    ensures Pas(s, Etat(s.demon, Noyau(regles, s.noyau.changements + 1), s.instances)) && Pas(s, s)
  {
  }

  lemma PasDeRedemarrage(s: Etat, instance: string)
    requires instance == "" || instance !in s.instances
    ensures Pas(s, Etat(Demon(instance, 0, Rien), s.noyau, s.instances + {instance}))
  {
  }

  lemma InstancePubliee(d: Demon, f: Demon, m: Moteur)
    requires d.instance != f.instance
    ensures Publier(d, m) != Publier(f, m)
  {
  }

  /** An instance is 32 to 128 small hexadecimal digits. */
  lemma InstanceEst(s: string)
    ensures InstanceValide(s) <==>
      31 < |s| < 129 && forall i :: 0 <= i < |s| ==>
        s[i] in {'0', '1', '2', '3', '4', '5', '6', '7', '8', '9', 'a', 'b', 'c', 'd', 'e', 'f'}
  {
  }

  /** The declaration says what the last call to the engine left, and joins a policy only
      to one that stands: the WFP engine's needs its environment, the others' does not. */
  lemma PublieExact(d: Demon, m: Moteur)
    ensures var p := Publier(d, m);
            && p.instance == d.instance && p.application == d.application && p.moteur == m.nom
            && (p.issue == IssueAucune <==> d.retenue == Rien) && (p.issue == IssuePosee <==> d.retenue.Posee?)
            && (p.issue == IssueRetiree <==> d.retenue == Retiree) && (p.issue == IssueEchec <==> d.retenue == Echec)
            && (!d.retenue.Posee? ==> p.politique == None)
            && (d.retenue.Posee? && m.nom != "wfp" ==> p.politique == m.nft(d.retenue.politique))
            && (d.retenue.Posee? && m.nom == "wfp" ==>
                  p.politique == match d.retenue.environnement case None => None case Some(e) => m.wfp(d.retenue.politique, e))
  {
  }
}
