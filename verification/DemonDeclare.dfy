/**
 The routing and DNS declarations of the daemon, and the proof that brackets a
 double read with them (crates/bifrost-daemon/src/supervisor.rs:234-400,
 crates/bifrost-cli/src/declaration.rs:581-664). What is posed is a plan of some type;
 its JSON form is the parameter `projeter`.
 */
module DemonDeclare {
  import opened Commun
  import opened Json
  import opened Declarations
  import Executions
  import opened DoubleCollecte

  datatype Retenue<P> = NonApplicable | Aucun | EnEchec | Pose(plan: P)

  /** One life of the daemon, with its own count of what it noted. */
  datatype Demon<P> = Demon(instance: string, application: u64, retenue: Retenue<P>)

  datatype Instant<P> = Instant(demon: Demon<P>, systeme: Etat, instances: set<string>)

  /** What a declaration is written with. */
  datatype Ecriture<!P> = Ecriture(resultat: string, projeter: P -> Value)

  /** `publier`: the declaration, in its JSON form. */
  function Publier<P>(d: Demon<P>, e: Ecriture<P>): Value {
    var (issue, plan) :=
      match d.retenue
      case NonApplicable => ("non-applicable", Null)
      case Aucun => ("aucun", Null)
      case EnEchec => ("echec", Null)
      case Pose(p) => ("pose", e.projeter(p));
    Objet(map["result" := Texte(e.resultat), "schema_version" := Nombre(1), "instance" := Texte(d.instance),
              "application" := Nombre(d.application), "issue" := Texte(issue), "plan" := plan])
  }

  /** `noter`: every mounting and every dismounting counts, up to saturation. */
  function Noter<P>(d: Demon<P>, r: Retenue<P>): Demon<P> {
    Demon(d.instance, if d.application == U64_MAX then U64_MAX else d.application + 1, r)
  }

  /** One step: the daemon notes, restarts under an instance never used before or
      none, or the system changes. */
  ghost predicate Pas<P>(s: Instant<P>, t: Instant<P>) {
    || s == t
    || t == s.(demon := Noter(s.demon, t.demon.retenue))
    || (var i := t.demon.instance;
        (i == "" || i !in s.instances) && t == Instant(Demon(i, 0, t.demon.retenue), s.systeme, s.instances + {i}))
    || t == s.(systeme := t.systeme)
  }

  ghost predicate Deroule<P>(e: seq<Instant<P>>) {
    && |e| > 0 && VieConnue(e[0])
    && forall n :: 0 <= n < |e| - 1 ==> Pas(e[n], e[n + 1])
  }

  ghost predicate VieConnue<P>(s: Instant<P>) { s.demon.instance == "" || s.demon.instance in s.instances }

  /** Between two instants: the same life with a number that only grows, or another. */
  ghost predicate SuiteDe<P>(s: Instant<P>, t: Instant<P>) {
    && s.instances <= t.instances && VieConnue(t)
    && (|| (t.demon.instance == s.demon.instance && s.demon.application <= t.demon.application
            && (s.demon.application == t.demon.application < U64_MAX ==> s.demon == t.demon))
        || t.demon.instance == "" || t.demon.instance !in s.instances)
  }

  lemma SuiteTransitive<P>(s: Instant<P>, t: Instant<P>, u: Instant<P>)
    requires VieConnue(s) && SuiteDe(s, t) && Pas(t, u)
    ensures SuiteDe(s, u)
  {
  }

  lemma {:induction false} Suite<P>(e: seq<Instant<P>>, i: nat, k: nat)
    requires Deroule(e) && i <= k < |e|
    ensures VieConnue(e[i]) && SuiteDe(e[i], e[k])
    decreases k
  {
    hide Pas, SuiteDe;
    if i == k {
      if k > 0 {
        Suite(e, i - 1, k - 1);
        SuiteTransitive(e[i - 1], e[i - 1], e[i - 1 + 1]);
      }
      SuiteSoi(e[i], if k > 0 then e[i - 1] else e[i]);
    } else {
      Suite(e, i, k - 1);
      SuiteTransitive(e[i], e[k - 1], e[k - 1 + 1]);
    }
  }

  lemma SuiteSoi<P>(s: Instant<P>, avant: Instant<P>)
    requires VieConnue(s) || SuiteDe(avant, s)
    ensures VieConnue(s) && SuiteDe(s, s)
  {
  }

  /** A run goes on whatever happens next: the daemon notes a mounting or a dismounting,
      its number one further unless it is the last; it restarts; the system moves. */
  lemma RunProlonge<P>(e: seq<Instant<P>>, r: Retenue<P>, instance: string, x: Etat)
    requires Deroule(e)
    ensures var s := e[|e| - 1];
            && Deroule(e + [Instant(Demon(s.demon.instance, if s.demon.application < 0xffff_ffff_ffff_ffff then s.demon.application + 1 else s.demon.application, r),
                                    s.systeme, s.instances)])
            && (instance == "" || instance !in s.instances ==> Deroule(e + [Instant(Demon(instance, 0, r), s.systeme, s.instances + {instance})]))
            && Deroule(e + [Instant(s.demon, x, s.instances)]) && Deroule(e + [s])
  {
    hide Pas;
    var s := e[|e| - 1];
    forall t: Instant<P> | Pas(s, t) ensures Deroule(e + [t]) {
      UnInstantDePlus(e, t);
    }
    Possibles(s, r, instance, x);
  }

  lemma UnInstantDePlus<P>(e: seq<Instant<P>>, t: Instant<P>)
    requires Deroule(e) && Pas(e[|e| - 1], t)
    ensures Deroule(e + [t])
  {
    hide Pas;
    var f := e + [t];
    forall n | 0 <= n < |f| - 1 ensures Pas(f[n], f[n + 1]) {
      if n < |e| - 1 {
        assert f[n] == e[n] && f[n + 1] == e[n + 1];
      }
    }
  }

  lemma Possibles<P>(s: Instant<P>, r: Retenue<P>, instance: string, x: Etat)
    ensures Pas(s, Instant(Demon(s.demon.instance, if s.demon.application < 0xffff_ffff_ffff_ffff then s.demon.application + 1 else s.demon.application, r),
                           s.systeme, s.instances))
    ensures instance == "" || instance !in s.instances ==> Pas(s, Instant(Demon(instance, 0, r), s.systeme, s.instances + {instance}))
    ensures Pas(s, Instant(s.demon, x, s.instances)) && Pas(s, s)
  {
  }

  /** The declaration, key by key. */
  lemma PublieExact<P>(d: Demon<P>, e: Ecriture<P>)
    ensures var v := Publier(d, e);
            && v.Objet? && v.m.Keys == {"result", "schema_version", "instance", "application", "issue", "plan"}
            && v.m["result"] == Texte(e.resultat) && v.m["schema_version"] == Nombre(1) && v.m["instance"] == Texte(d.instance)
            && v.m["application"] == Nombre(d.application)
            && (d.retenue.Pose? ==> v.m["issue"] == Texte("pose") && v.m["plan"] == e.projeter(d.retenue.plan))
            && (!d.retenue.Pose? ==> v.m["plan"] == Null)
            && (d.retenue == NonApplicable ==> v.m["issue"] == Texte("non-applicable")) && (d.retenue == Aucun ==> v.m["issue"] == Texte("aucun"))
            && (d.retenue == EnEchec ==> v.m["issue"] == Texte("echec"))
  {
    assert Publier(d, e).m.Keys == {"result", "schema_version", "instance", "application", "issue", "plan"};
  }

  /** What two equal declarations have in common. */
  lemma PublieDit<P>(d: Demon<P>, f: Demon<P>, e: Ecriture<P>)
    requires Publier(d, e) == Publier(f, e)
    ensures d.instance == f.instance && d.application == f.application
  {
    assert Publier(d, e).m["instance"] == Publier(f, e).m["instance"];
    assert Publier(d, e).m["application"] == Publier(f, e).m["application"];
  }

  /** Two equal declarations with an instance, below saturation: the daemon was in that
      one state all the way between them. */
  lemma DeclarationStable<P>(e: seq<Instant<P>>, i: nat, j: nat, k: nat, x: Ecriture<P>)
    requires Deroule(e) && i <= j <= k < |e| && Publier(e[i].demon, x) == Publier(e[k].demon, x)
    requires e[i].demon.instance != "" && e[i].demon.application < U64_MAX
    ensures e[j].demon == e[i].demon
  {
    PublieDit(e[i].demon, e[k].demon, x);
    Suite(e, i, j);
    Suite(e, j, k);
    Suite(e, i, k);
  }

  lemma LongueurDuRun<P>(instants: seq<Instant<P>>, execution: seq<Etat>)
    ensures Monde.MemeRun(instants, execution) ==> |instants| == |execution|
  {
  }

  /** What a still stretch says of a part of it. */
  lemma CalmeDedans<P>(instants: seq<Instant<P>>, execution: seq<Etat>, i: nat, k: nat, a: nat, b: nat)
    requires i <= a <= b <= k < |instants| == |execution| && Monde.MemeRun(instants, execution)
    ensures Calme(instants, i, k) ==>
      instants[a] == instants[i] && instants[k] == instants[i] && Immobile(execution, a, b) && execution[a] == execution[i]
      && Calme(instants, i, a)
  {
  }

  lemma MesureDite(s: Systeme, i: nat, k: nat, pannes: nat, c: Collecte)
    requires s.Valid() && i <= k < |s.execution| && Fidele(s.execution, s.parties, i, k, pannes, c)
    ensures c.Stable? && SansRetour(s.execution, s.parties, i, k) ==> exists t :: i <= t <= k && s.execution[t] == c.etat
    ensures pannes == 0 && Immobile(s.execution, i, k) ==> c == Stable(s.execution[i])
  {
  }

  lemma InstanceNommee(d: Value)
    requires Nommee(d)
    ensures d.Objet? && "instance" in d.m && "application" in d.m && d.m["instance"].Texte? && d.m["instance"].t != "" && d.m["application"].Nombre?
  {
  }

  lemma SansRetourDedans(s: Systeme, i: nat, k: nat, a: nat, b: nat)
    requires s.Valid() && i <= a <= b <= k < |s.execution| && SansRetour(s.execution, s.parties, i, k)
    ensures SansRetour(s.execution, s.parties, a, b)
  {
  }

  lemma NumeroPublie<P>(d: Demon<P>, e: Ecriture<P>)
    ensures Publier(d, e).Objet? && "application" in Publier(d, e).m && Publier(d, e).m["application"] == Nombre(d.application)
    ensures "instance" in Publier(d, e).m && Publier(d, e).m["instance"] == Texte(d.instance)
  {
  }

  /** Nothing moves over a stretch. */
  ghost predicate Calme<P>(e: seq<Instant<P>>, i: nat, k: nat)
    requires i <= k < |e|
  {
    forall j :: i <= j <= k ==> e[j] == e[i]
  }

  /** The daemon and the system read, in one run: any number of steps may pass before
      each read, and a read may fail; `refus` counts the declarations that were not got. */
  class Monde<P> {
    const instants: seq<Instant<P>>
    const ecriture: Ecriture<P>
    const systeme: Systeme
    ghost var refus: nat

    constructor (instants: seq<Instant<P>>, ecriture: Ecriture<P>, systeme: Systeme)
      requires Deroule(instants) && systeme.Valid() && MemeRun(instants, systeme.execution)
      ensures Valid() && this.instants == instants && this.ecriture == ecriture && this.systeme == systeme
    {
      this.instants := instants;
      this.ecriture := ecriture;
      this.systeme := systeme;
      this.refus := 0;
    }

    static ghost predicate MemeRun(instants: seq<Instant<P>>, execution: seq<Etat>) {
      |instants| == |execution| && forall j :: 0 <= j < |execution| ==> instants[j].systeme == execution[j]
    }

    ghost predicate Valid()
      reads systeme
    {
      Deroule(instants) && systeme.Valid() && MemeRun(instants, systeme.execution)
    }

    /** `lire`: what the daemon publishes now. */
    method LireDeclaration() returns (r: Result<Value>)
      requires Valid()
      modifies systeme`instant, this`refus
      ensures Valid() && old(systeme.instant) <= systeme.instant
      ensures if r.Ok? then refus == old(refus) && r.value == Publier(instants[systeme.instant].demon, ecriture) else refus == old(refus) + 1
    {
      systeme.Attendre();
      if * {
        refus := refus + 1;
        r := Err("daemon injoignable");
      } else {
        r := Ok(Publier(instants[systeme.instant].demon, ecriture));
      }
    }

    /** At some instant of the stretch the daemon declared `d` and the system was `etat`. */
    ghost predicate Attribuable(i: nat, k: nat, d: Value, etat: Etat)
      requires i <= k < |instants| == |systeme.execution|
    {
      exists t :: i <= t <= k && Publier(instants[t].demon, ecriture) == d && systeme.execution[t] == etat
    }

    lemma Attribue(debut: nat, n1: nat, fin: nat, n2: nat, d: Value, etat: Etat)
      requires Valid() && debut <= n1 <= fin <= n2 < |instants| == |systeme.execution|
      requires Publier(instants[n1].demon, ecriture) == d && Publier(instants[n2].demon, ecriture) == d
      requires Nommee(d) && d.m["application"].n < U64_MAX && SansRetour(systeme.execution, systeme.parties, debut, n2)
      requires SansRetour(systeme.execution, systeme.parties, n1, fin) ==> exists t :: n1 <= t <= fin && systeme.execution[t] == etat
      ensures Attribuable(debut, n2, d, etat)
    {
      hide Deroule, SansRetour, Publier, MemeRun, Systeme.Valid;
      SansRetourDedans(systeme, debut, n2, n1, fin);
      var t :| n1 <= t <= fin && systeme.execution[t] == etat;
      NumeroPublie(instants[n1].demon, ecriture);
      DeclarationStable(instants, n1, t, n2, ecriture);
    }

    /** N1, the two reads of the system, N2. A success means one instant had the state
        read under the declaration read, and `extraire` gave the plan it declares. When
        nothing moves and no read fails, it is one, unless the declaration gives no plan. */
    method Encadrer(extraire: Value -> Result<P>) returns (res: Result<(Value, P, Etat)>)
      requires Valid() && forall d: Value :: extraire(d).Ok? ==> Nommee(d)
      modifies systeme`instant, systeme`pannes, this`refus
      ensures Valid() && old(systeme.instant) <= systeme.instant && old(systeme.pannes) <= systeme.pannes && old(refus) <= refus
      ensures refus == old(refus) && systeme.pannes == old(systeme.pannes) && Calme(instants, old(systeme.instant), systeme.instant) ==>
        var d := Publier(instants[old(systeme.instant)].demon, ecriture);
        match extraire(d)
        case Ok(p) => res == Ok((d, p, systeme.execution[old(systeme.instant)]))
        case Err(e) => res == Err(e)
      ensures res.Ok? ==> extraire(res.value.0) == Ok(res.value.1) && Nommee(res.value.0)
      ensures res.Ok? ==> exists n :: old(systeme.instant) <= n <= systeme.instant && Publier(instants[n].demon, ecriture) == res.value.0
      ensures res.Ok? && res.value.0.m["application"].n < U64_MAX
              && SansRetour(systeme.execution, systeme.parties, old(systeme.instant), systeme.instant) ==>
        Attribuable(old(systeme.instant), systeme.instant, res.value.0, res.value.2)
    {
      hide Deroule, SansRetour, Publier, Calme, Immobile, Nommee, MemeRun, Fidele, Attribuable;
      LongueurDuRun(instants, systeme.execution);
      ghost var debut := systeme.instant;
      var premiere := LireDeclaration();
      if premiere.Err? {
        return Err(premiere.raison);
      }
      ghost var n1 := systeme.instant;
      CalmeDedans(instants, systeme.execution, debut, n1, n1, n1);
      var attendu := extraire(premiere.value);
      if attendu.Err? {
        return Err(attendu.raison);
      }
      InstanceNommee(premiere.value);
      ghost var pannes := systeme.pannes;
      var mesure := systeme.Encadrer();
      ghost var fin := systeme.instant;
      CalmeDedans(instants, systeme.execution, debut, fin, n1, fin);
      MesureDite(systeme, n1, fin, systeme.pannes - pannes, mesure);
      if !mesure.Stable? {
        return Err("collecte instable ou illisible");
      }
      var seconde := LireDeclaration();
      CalmeDedans(instants, systeme.execution, debut, systeme.instant, n1, fin);
      if seconde.Err? {
        return Err("declaration du daemon illisible ou injoignable apres la collecte");
      }
      if seconde.value != premiere.value {
        return Err("declaration du daemon modifiee pendant la collecte");
      }
      res := Ok((premiere.value, attendu.value, mesure.etat));
      if premiere.value.m["application"].n < U64_MAX && SansRetour(systeme.execution, systeme.parties, debut, systeme.instant) {
        Attribue(debut, n1, fin, systeme.instant, premiere.value, mesure.etat);
      }
    }
  }

  /** A declaration names a life of the daemon and its number. */
  predicate Nommee(d: Value) {
    d.Objet? && d.m.Keys == CLES_ROUTAGE && d.m["instance"].Texte? && d.m["instance"].t != "" && d.m["application"].Nombre?
  }
}
