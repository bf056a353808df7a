/**
 A whole proof by intention, `verifier_avec`: the intention is read, then the system
 twice, then the two are compared (crates/bifrost-cli/src/preuve_routes.rs:802-846,
 preuve_routes_windows.rs:757-783, preuve_dns.rs:1073-1120). `lire` reads an
 observation off the parts collected, for the interface of the plan. What a verdict
 says is said of an instant the system went through, as long as no part came back to
 a value it had left.
 */
module Preuves {
  import opened Commun
  import opened Json
  import opened DoubleCollecte
  import PrefixesIp
  import PlanLinux
  import PlanDns
  import RoutesLinux
  import MarcheLinux
  import PoseLinux
  import RoutesWindows
  import ChoixWindows
  import PoseWindows
  import Dns
  import ChoixDns
  import PoseDns
  import Resolved
  import Declarations
  import ValidateurLinux
  import ValidateurWindows
  import ValidateurDns

  datatype Verdict = Match | Mismatch | Unmeasured

  /** The verdict on what was read: nothing read, or a plan that cannot be compared,
      measures nothing; otherwise no difference, or some. */
  ghost function VerdictLinux(plan: PlanLinux.Plan, obs: Option<RoutesLinux.Observation>, exiger: bool): Verdict {
    if obs.None? || !RoutesLinux.Comparable(plan, Ipv4) || !RoutesLinux.Comparable(plan, Ipv6) then Unmeasured
    else if RoutesLinux.EcartsDuPlan(plan, obs.value, exiger) == [] then Match
    else Mismatch
  }

  /** Under Windows a tie, without a difference, measures nothing either. */
  ghost function VerdictWindows(plan: RoutesWindows.PlanWindows, t: Option<RoutesWindows.TableIpHelper>): Verdict {
    if t.None? then Unmeasured
    else if RoutesWindows.EcartsDuPlan(plan, t.value) != [] then Mismatch
    else if RoutesWindows.VerdictIndecis(plan, t.value) then Unmeasured
    else Match
  }

  ghost function VerdictDns(i: PlanDns.Intention, o: Option<Dns.Observation>, graphie: PlanDns.Adresse -> string): Verdict {
    if o.None? || !Dns.Mesurable(i, o.value) then Unmeasured
    else if forall e :: !Dns.Present(i, o.value, graphie, e) then Match
    else Mismatch
  }

  /** What a collection gave to compare. */
  function Recu<T>(c: Collecte, lire: Etat -> Option<T>): Option<T> { if c.Stable? then lire(c.etat) else None }

  /** Whatever the packet and the kernel's choices: refused, or a legitimate emission. */
  ghost predicate SureLinux(plan: PlanLinux.Plan, obs: RoutesLinux.Observation) {
    forall f: Famille, p: MarcheLinux.Paquet, k: MarcheLinux.Noyau ::
      (MarcheLinux.PaquetDe(f, p) && PlanLinux.OrdreDEvaluation(plan, f).Some?
       && MarcheLinux.PourLeTunnel(PlanLinux.OrdreDEvaluation(plan, f).value, PlanLinux.TableDuTunnel(plan), p)
       && MarcheLinux.NoyauPossible(obs.VueDe(f), p, k)) ==>
        MarcheLinux.IssueSure(f, MarcheLinux.Marche(obs.VueDe(f).regles, p, k, 0).0, p, obs)
  }

  /** Whatever the address the plan covers and the route chosen: an admitted choice. */
  ghost predicate SureWindows(plan: RoutesWindows.PlanWindows, t: RoutesWindows.TableIpHelper) {
    t.tunnel.Some? && forall f: Famille, m: u64 -> nat, x: PrefixesIp.Bits, r: RoutesWindows.RouteLue ::
      (ChoixWindows.MetriquesLues(t, f, m) && ChoixWindows.CouverteParLePlan(plan, f, x) && ChoixWindows.PeutEtreChoisie(t, f, m, x, r)) ==>
        ChoixWindows.ChoixAdmis(plan, f, t, t.tunnel.value, r)
  }

  /** Whatever the name, but the named limits: the tunnel's scope alone is asked, and
      its servers are the plan's. */
  ghost predicate SureDns(i: PlanDns.Intention, o: Dns.Observation) {
    forall v: ChoixDns.Resolveur, n: ChoixDns.Nom ::
      (o.resolved == Some(v.etat) && ChoixDns.Reel(v) && !ChoixDns.Limite(v, n)) ==>
        && o.tunnel.Some? && 0 < o.tunnel.value <= Resolved.I32_MAX
        && ChoixDns.SeuleInterrogee(v, o.tunnel.value, n)
        && ChoixDns.Interroges(ChoixDns.ServeursDe(v, o.tunnel.value), i.plan.serveurs)
  }

  lemma SansEcartLinux(plan: PlanLinux.Plan, obs: RoutesLinux.Observation, exiger: bool)
    requires PlanLinux.PlanDuProduit(plan)
    requires RoutesLinux.Comparable(plan, Ipv4) && RoutesLinux.Comparable(plan, Ipv6)
    requires RoutesLinux.EcartsDuPlan(plan, obs, exiger) == []
    ensures SureLinux(plan, obs)
  {
    forall f: Famille, p: MarcheLinux.Paquet, k: MarcheLinux.Noyau |
      && MarcheLinux.PaquetDe(f, p) && PlanLinux.OrdreDEvaluation(plan, f).Some?
      && MarcheLinux.PourLeTunnel(PlanLinux.OrdreDEvaluation(plan, f).value, PlanLinux.TableDuTunnel(plan), p)
      && MarcheLinux.NoyauPossible(obs.VueDe(f), p, k)
      ensures MarcheLinux.IssueSure(f, MarcheLinux.Marche(obs.VueDe(f).regles, p, k, 0).0, p, obs)
    {
      MarcheLinux.CorrespondanceSure(plan, obs, exiger, f, p, k);
    }
  }

  /** A plan read from an intention is one of the product's, off the kernel's tables. */
  lemma PlanLu(v: Value)
    ensures var r := ValidateurLinux.PlanDeLIntention(v);
            r.Ok? ==> PlanLinux.PlanDuProduit(r.value) && PlanLinux.TableDuTunnel(r.value) !in PlanLinux.TABLES_RESERVEES
  {
    hide PlanLinux.EtapesWireGuard, PlanLinux.EtapesCoeur, Declarations.Entier32, Declarations.InterfaceAdmise;
  }

  /** What a verdict says of what was observed. */
  ghost predicate VraiLinux(v: Verdict, plan: PlanLinux.Plan, obs: Option<RoutesLinux.Observation>, exiger: bool) {
    && v == VerdictLinux(plan, obs, exiger)
    && (v == Match ==> SureLinux(plan, obs.value))
  }

  /** The comparison and its verdict. */
  method JugerLinux(plan: PlanLinux.Plan, obs: Option<RoutesLinux.Observation>, exiger: bool) returns (v: Verdict)
    requires PlanLinux.PlanDuProduit(plan)
    ensures VraiLinux(v, plan, obs, exiger)
  {
    hide SureLinux, RoutesLinux.EcartsDuPlan, RoutesLinux.Comparable, PlanLinux.PlanDuProduit;
    if obs.None? {
      return Unmeasured;
    }
    var r := RoutesLinux.Comparer(plan, obs.value, exiger);
    if r.Err? {
      return Unmeasured;
    }
    v := if r.value == [] then Match else Mismatch;
    if v == Match {
      SansEcartLinux(plan, obs.value, exiger);
    }
  }

  /** The Linux proof. An intention that does not read touches nothing of the system;
      otherwise the verdict is the one on what the two reads gave. */
  method ProuverLinux(intention: Value, systeme: Systeme, lire: (string, Etat) -> Option<RoutesLinux.Observation>)
    returns (v: Verdict, ghost c: Collecte)
    requires systeme.Valid()
    modifies systeme`instant, systeme`pannes
    ensures systeme.Valid() && old(systeme.instant) <= systeme.instant && old(systeme.pannes) <= systeme.pannes
    ensures var plan := ValidateurLinux.PlanDeLIntention(intention);
            if plan.Err? then v == Unmeasured && systeme.instant == old(systeme.instant) && systeme.pannes == old(systeme.pannes)
            else && Fidele(systeme.execution, systeme.parties, old(systeme.instant), systeme.instant, systeme.pannes - old(systeme.pannes), c)
                 && VraiLinux(v, plan.value, Recu(c, e => lire(plan.value.interface, e)), false)
  {
    var lu := ValidateurLinux.PlanDeLIntention(intention);
    if lu.Err? {
      return Unmeasured, Instable;
    }
    var plan := lu.value;
    PlanLu(intention);
    hide ValidateurLinux.PlanDeLIntention, VraiLinux, Fidele, PlanLinux.PlanDuProduit;
    var collecte := systeme.Encadrer();
    c := collecte;
    v := JugerLinux(plan, Recu(collecte, e => lire(plan.interface, e)), false);
  }

  /** On a still system whose reads succeed, the verdict is the one on what it holds. */
  lemma VerdictImmobile<T>(e: seq<Etat>, parties: nat, i: nat, k: nat, c: Collecte, lire: Etat -> Option<T>)
    requires Execution(e, parties) && i <= k < |e| && Fidele(e, parties, i, k, 0, c) && Immobile(e, i, k)
    ensures Recu(c, lire) == lire(e[i])
  {
  }

  /** Whatever moves, as long as no change undoes itself, a verdict given is the one on
      some instant of the reads. */
  lemma VerdictDUnInstant<T>(e: seq<Etat>, parties: nat, i: nat, k: nat, pannes: nat, c: Collecte, lire: Etat -> Option<T>) returns (t: nat)
    requires Execution(e, parties) && i <= k < |e| && Fidele(e, parties, i, k, pannes, c) && SansRetour(e, parties, i, k)
    requires Recu(c, lire).Some?
    ensures i <= t <= k && Recu(c, lire) == lire(e[t])
  {
    t :| i <= t <= k && e[t] == c.etat;
  }

  /** The product's plan posed on the kernel read: the proof answers MATCH. */
  lemma PoseProuvee(plan: PlanLinux.Plan, obs: RoutesLinux.Observation, exiger: bool, pose: Famille -> PoseLinux.Pose)
    requires PlanLinux.PlanDuProduit(plan) && PlanLinux.TableDuTunnel(plan) !in PlanLinux.TABLES_RESERVEES
    requires forall f: Famille :: PoseLinux.Posee(f, plan, obs, exiger, pose(f))
    ensures VerdictLinux(plan, Some(obs), exiger) == Match
  {
    PoseLinux.PlanPose(plan, obs, exiger, pose);
  }

  lemma SansEcartWindows(plan: RoutesWindows.PlanWindows, t: RoutesWindows.TableIpHelper)
    requires RoutesWindows.EcartsDuPlan(plan, t) == [] && !RoutesWindows.VerdictIndecis(plan, t)
    ensures SureWindows(plan, t)
  {
    assert t.tunnel.Some?;
    forall f: Famille, m: u64 -> nat, x: PrefixesIp.Bits, r: RoutesWindows.RouteLue |
      ChoixWindows.MetriquesLues(t, f, m) && ChoixWindows.CouverteParLePlan(plan, f, x) && ChoixWindows.PeutEtreChoisie(t, f, m, x, r)
      ensures ChoixWindows.ChoixAdmis(plan, f, t, t.tunnel.value, r)
    {
      ChoixWindows.CorrespondanceSure(plan, t, f, m, x, r);
    }
  }

  ghost predicate VraiWindows(v: Verdict, plan: RoutesWindows.PlanWindows, t: Option<RoutesWindows.TableIpHelper>) {
    && v == VerdictWindows(plan, t)
    && (v == Match ==> SureWindows(plan, t.value))
  }

  method JugerWindows(plan: RoutesWindows.PlanWindows, t: Option<RoutesWindows.TableIpHelper>) returns (v: Verdict)
    ensures VraiWindows(v, plan, t)
  {
    hide SureWindows, RoutesWindows.EcartsDuPlan, RoutesWindows.VerdictIndecis;
    if t.None? {
      return Unmeasured;
    }
    var r := RoutesWindows.Conclure(plan, t.value);
    v := match r case Match => Match case Mismatch(_) => Mismatch case Unmeasured(_) => Unmeasured;
    if v == Match {
      SansEcartWindows(plan, t.value);
    }
  }

  /** The Windows proof. */
  method ProuverWindows(intention: Value, x: ValidateurWindows.Textes, systeme: Systeme,
                        lire: (string, Etat) -> Option<RoutesWindows.TableIpHelper>) returns (v: Verdict, ghost c: Collecte)
    requires systeme.Valid()
    modifies systeme`instant, systeme`pannes
    ensures systeme.Valid() && old(systeme.instant) <= systeme.instant && old(systeme.pannes) <= systeme.pannes
    ensures var plan := ValidateurWindows.PlanDeLIntention(intention, x);
            if plan.Err? then v == Unmeasured && systeme.instant == old(systeme.instant) && systeme.pannes == old(systeme.pannes)
            else && Fidele(systeme.execution, systeme.parties, old(systeme.instant), systeme.instant, systeme.pannes - old(systeme.pannes), c)
                 && VraiWindows(v, plan.value, Recu(c, e => lire(plan.value.interface, e)))
  {
    var lu := ValidateurWindows.PlanDeLIntention(intention, x);
    if lu.Err? {
      return Unmeasured, Instable;
    }
    var plan := lu.value;
    hide ValidateurWindows.PlanDeLIntention, VraiWindows, Fidele;
    var collecte := systeme.Encadrer();
    c := collecte;
    v := JugerWindows(plan, Recu(collecte, e => lire(plan.interface, e)));
  }

  lemma PoseWindowsProuvee(plan: RoutesWindows.PlanWindows, t: RoutesWindows.TableIpHelper)
    requires PoseWindows.PlanDuProduit(plan) && PoseWindows.Posees(plan, t)
    ensures VerdictWindows(plan, Some(t)) == Match
  {
    PoseWindows.PlanPose(plan, t);
  }

  lemma SansEcartDns(i: PlanDns.Intention, o: Dns.Observation, graphie: PlanDns.Adresse -> string)
    requires i.backend == PlanDns.BackendResolved && i.plan.serveurs != []
    requires Dns.Mesurable(i, o) && forall e :: !Dns.Present(i, o, graphie, e)
    ensures SureDns(i, o)
  {
    hide Dns.Present, ChoixDns.SeuleInterrogee, ChoixDns.Interroges, ChoixDns.Limite, ChoixDns.Reel, Dns.Mesurable;
    forall v: ChoixDns.Resolveur, n: ChoixDns.Nom | o.resolved == Some(v.etat) && ChoixDns.Reel(v) && !ChoixDns.Limite(v, n)
      ensures o.tunnel.Some? && 0 < o.tunnel.value <= Resolved.I32_MAX
      ensures ChoixDns.SeuleInterrogee(v, o.tunnel.value, n)
      ensures ChoixDns.Interroges(ChoixDns.ServeursDe(v, o.tunnel.value), i.plan.serveurs)
    {
      ChoixDns.CorrespondanceSure(i, o, graphie, v, n);
    }
  }

  /** An intention names a server at least. */
  lemma IntentionLue(v: Value, x: ValidateurDns.Textes)
    ensures ValidateurDns.IntentionDns(v, x).Ok? ==> ValidateurDns.IntentionDns(v, x).value.plan.serveurs != []
  {
  }

  ghost predicate VraiDns(v: Verdict, i: PlanDns.Intention, o: Option<Dns.Observation>, graphie: PlanDns.Adresse -> string) {
    && v == VerdictDns(i, o, graphie)
    && (v == Match && i.backend == PlanDns.BackendResolved ==> SureDns(i, o.value))
    && (v == Match && i.backend == PlanDns.BackendResolvConf ==> o.value.resolvConf == Some(Dns.FichierAttendu(i, graphie)))
  }

  method JugerDns(i: PlanDns.Intention, o: Option<Dns.Observation>, graphie: PlanDns.Adresse -> string) returns (v: Verdict)
    requires i.plan.serveurs != []
    ensures VraiDns(v, i, o, graphie)
  {
    hide SureDns, Dns.Mesurable, Dns.PresentResolved;
    if o.None? {
      return Unmeasured;
    }
    var r := Dns.Comparer(i, o.value, graphie);
    if r.Err? {
      return Unmeasured;
    }
    v := if r.value == [] then Match else Mismatch;
    if v == Match {
      SansEcartVrai(i, o.value, graphie);
    } else {
      assert r.value[0] in r.value;
    }
  }

  lemma SansEcartVrai(i: PlanDns.Intention, o: Dns.Observation, graphie: PlanDns.Adresse -> string)
    requires i.plan.serveurs != [] && Dns.Mesurable(i, o) && forall e :: !Dns.Present(i, o, graphie, e)
    ensures i.backend == PlanDns.BackendResolved ==> SureDns(i, o)
    ensures i.backend == PlanDns.BackendResolvConf ==> o.resolvConf == Some(Dns.FichierAttendu(i, graphie))
  {
    hide SureDns, Dns.Mesurable, Dns.PresentResolved;
    if i.backend == PlanDns.BackendResolved {
      SansEcartDns(i, o, graphie);
    } else {
      assert !Dns.Present(i, o, graphie, Dns.ResolvConfContent);
    }
  }

  /** The DNS proof. */
  method ProuverDns(intention: Value, x: ValidateurDns.Textes, systeme: Systeme, lire: (string, Etat) -> Option<Dns.Observation>,
                    graphie: PlanDns.Adresse -> string) returns (v: Verdict, ghost c: Collecte)
    requires systeme.Valid()
    modifies systeme`instant, systeme`pannes
    ensures systeme.Valid() && old(systeme.instant) <= systeme.instant && old(systeme.pannes) <= systeme.pannes
    ensures var i := ValidateurDns.IntentionDns(intention, x);
            if i.Err? then v == Unmeasured && systeme.instant == old(systeme.instant) && systeme.pannes == old(systeme.pannes)
            else && Fidele(systeme.execution, systeme.parties, old(systeme.instant), systeme.instant, systeme.pannes - old(systeme.pannes), c)
                 && VraiDns(v, i.value, Recu(c, e => lire(i.value.plan.interface, e)), graphie)
  {
    var lue := ValidateurDns.IntentionDns(intention, x);
    if lue.Err? {
      return Unmeasured, Instable;
    }
    var i := lue.value;
    IntentionLue(intention, x);
    hide ValidateurDns.IntentionDns, VraiDns, Fidele;
    var collecte := systeme.Encadrer();
    c := collecte;
    v := JugerDns(i, Recu(collecte, e => lire(i.plan.interface, e)), graphie);
  }

  lemma PoseDnsProuvee(i: PlanDns.Intention, o: Dns.Observation, graphie: PlanDns.Adresse -> string, v: ChoixDns.Resolveur, tunnel: Resolved.Lien)
    requires PoseDns.Posee(i, o, v, tunnel)
    ensures VerdictDns(i, Some(o), graphie) == Match
  {
    PoseDns.PlanPose(i, o, graphie, v, tunnel);
  }
}
