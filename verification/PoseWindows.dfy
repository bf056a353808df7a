/**
 The other way round under Windows: tables as they stand once the product's plan is
 posed match (crates/bifrost-cli/src/preuve_routes_windows.rs:461-751). They are
 described by what they hold: the plan's routes and their broadcasts on the tunnel,
 the routes Windows installs for the addresses of every interface, the loopback's,
 and default routes through the gateways of other interfaces.
 */
module PoseWindows {
  import opened Commun
  import opened PrefixesIp
  import opened RoutesWindows
  import opened ChoixWindows

  function ToutesA(f: Famille, b: bool): Bits { seq(Largeur(f), _ => b) }

  /** 224.0.0.0/4 and ff00::/8. */
  function ReseauMulticast(f: Famille): IpNet {
    match f
    case Ipv4 => IpNetBrut(Ipv4, seq(32, i => i < 3), 4)
    case Ipv6 => IpNetBrut(Ipv6, seq(128, i => i < 8), 8)
  }

  /** A route Windows installs for an address: itself, its network, the network's
      broadcast, multicast and the limited broadcast, all on the link. */
  predicate RouteDAdresse(r: RouteLue, a: AdresseLue) {
    var d, n := r.destination, a.adresse;
    && r.interface == a.interface && r.prochainSaut.None? && n.longueur > 0 && d.famille == n.famille
    && (|| d == IpNetBrut(n.famille, n.bits, Largeur(n.famille))
        || d == Masquer(n)
        || DiffusionDirigee(n) == Some(d)
        || d == ReseauMulticast(n.famille)
        || (d.famille == Ipv4 && d == IpNetBrut(Ipv4, ToutesA(Ipv4, true), 32)))
  }

  /** A default route of another interface, whose metrics add up to more than none. */
  predicate DefautDAilleurs(r: RouteLue, t: TableIpHelper, tunnel: u64) {
    && r.interface != tunnel && r.destination.longueur == 0
    && var l := LigneLueDe(t.lignes, r.interface, r.destination.famille); l.Some? && r.metrique + l.value.metrique > 0
  }

  /** A route of the plan, or the broadcast of one, on the tunnel. */
  ghost predicate RoutePosee(plan: PlanWindows, r: RouteLue, tunnel: u64) {
    r.interface == tunnel && r.prochainSaut.None?
    && exists a :: a in plan.routes && (r.destination == a.destination || DiffusionDirigee(a.destination) == Some(r.destination))
  }

  /** The tables once the plan is posed. */
  ghost predicate Posees(plan: PlanWindows, t: TableIpHelper) {
    && t.tunnel.Some?
    && var tunnel := t.tunnel.value;
    && (forall a :: a in plan.routes ==> RouteLue(tunnel, a.destination, None, a.metrique) in t.routes)
    && (forall r, a :: r in t.routes && a in plan.routes && r.interface == tunnel && r.prochainSaut.None? && r.destination == a.destination ==>
          r.metrique == METRIQUE_ROUTE)
    && (forall f :: (exists a :: a in plan.routes && a.destination == ParDefaut(f)) ==>
          LigneLueDe(t.lignes, tunnel, f) == Some(LigneLue(tunnel, f, METRIQUE_INTERFACE_CAPTURE, false)))
    && forall r :: r in t.routes ==>
         || EstBoucleLocale(r.interface)
         || (exists a :: a in t.adresses && RouteDAdresse(r, a))
         || RoutePosee(plan, r, tunnel)
         || DefautDAilleurs(r, t, tunnel)
  }

  /** Every route Windows installs for an address is admitted. */
  lemma AdmiseDAdresse(r: RouteLue, a: AdresseLue, adresses: seq<AdresseLue>)
    requires a in adresses && RouteDAdresse(r, a)
    ensures Classer(r, adresses) != Autre
  {
    var n, d := a.adresse, r.destination;
    if d == Masquer(n) {
      MasquerDeuxFois(n);
    } else if DiffusionDirigee(n) == Some(d) {
      DiffusionEstLaDerniere(n);
      MasquerDedans(n, d);
    } else if d == ReseauMulticast(n.famille) {
      assert Multidiffusion(d);
    }
  }

  lemma MasquerDeuxFois(n: IpNet)
    ensures Masquer(Masquer(n)) == Masquer(n)
  {
    forall i | 0 <= i < |n.bits| ensures Masquer(Masquer(n)).bits[i] == Masquer(n).bits[i] {
    }
  }

  lemma MasquerDedans(n: IpNet, d: IpNet)
    requires Contient(n, d)
    ensures Contient(Masquer(n), d)
  {
    MasquerDeuxFois(n);
  }

  ghost predicate PlanDuProduit(p: PlanWindows) {
    || (exists i, fs, d, m :: p == PlanWireGuard(i, fs, d, m))
    || (exists i, fs, m :: p == PlanCoeur(i, fs, m))
  }

  lemma SeulDefaut(d: IpNet)
    requires d.longueur == 0 && Masquer(d) == d
    ensures d == ParDefaut(d.famille)
  {
    assert Masquer(d).bits == ParDefaut(d.famille).bits;
  }

  /** What the proof needs of a product's plan: masked destinations, the product's
      metric, and a captured line only with a default route. */
  lemma PlanRegulier(p: PlanWindows)
    requires PlanDuProduit(p)
    ensures PlanMasque(p) && forall a :: a in p.routes ==> a.metrique == METRIQUE_ROUTE
    ensures forall l :: l in p.lignes && l.capture ==> exists a :: a in p.routes && a.destination == ParDefaut(l.famille)
  {
    hide Masquer;
    if i, fs, d, m :| p == PlanWireGuard(i, fs, d, m) {
      RoutesMasqueesMasquees(d);
      PlansMasques(i, fs, d, m);
    } else {
      var i, fs, m :| p == PlanCoeur(i, fs, m);
      PlansMasques(i, fs, [], m);
    }
    forall a | a in p.routes && a.destination.longueur == 0 ensures a.destination == ParDefaut(a.destination.famille) {
      SeulDefaut(a.destination);
    }
  }

  lemma PlanPresent(plan: PlanWindows, t: TableIpHelper, f: Famille)
    requires PlanDuProduit(plan) && Posees(plan, t)
    ensures var a := RoutesDe(plan.routes, f);
            !RouteDuPlanAbsente(a, t, t.tunnel.value) && !MetriqueDifferente(a, t, t.tunnel.value)
  {
    PlanRegulier(plan);
    hide PlanDuProduit, PlanMasque, RouteDAdresse, DefautDAilleurs, RoutePosee, LigneLueDe, ParDefaut;
    var tunnel := t.tunnel.value;
    forall a | a in RoutesDe(plan.routes, f) ensures RouteDuPlan(t.routes, tunnel, a.destination).Some? && !AutreMetrique(a, t, tunnel) {
      var i :| 0 <= i < |t.routes| && t.routes[i] == RouteLue(tunnel, a.destination, None, a.metrique);
    }
  }

  lemma LignePosee(plan: PlanWindows, t: TableIpHelper, f: Famille)
    requires PlanDuProduit(plan) && Posees(plan, t)
    ensures !LigneDifferente(LigneDe(plan.lignes, f), t, t.tunnel.value, f)
  {
    PlanRegulier(plan);
    hide PlanDuProduit, PlanMasque, RouteDAdresse, DefautDAilleurs, RoutePosee, LigneLueDe, ParDefaut, LigneDe;
  }

  lemma RienEnTrop(plan: PlanWindows, t: TableIpHelper, f: Famille)
    requires Posees(plan, t)
    ensures !TunnelEnTrop(RoutesDe(plan.routes, f), t, t.tunnel.value, f)
  {
    hide RouteDAdresse, Classer;
    forall r | r in t.routes ensures !EnTrop(RoutesDe(plan.routes, f), t, t.tunnel.value, f, r) {
      ClasseDe(plan, t, r);
    }
  }

  /** A route of such tables is admitted, the plan's, or a default route elsewhere. */
  lemma ClasseDe(plan: PlanWindows, t: TableIpHelper, r: RouteLue)
    requires Posees(plan, t) && r in t.routes
    ensures Classer(r, t.adresses) != Autre || RoutePosee(plan, r, t.tunnel.value) || DefautDAilleurs(r, t, t.tunnel.value)
  {
    hide RouteDAdresse, RoutePosee, DefautDAilleurs, LigneLueDe;
    if a :| a in t.adresses && RouteDAdresse(r, a) {
      AdmiseDAdresse(r, a, t.adresses);
    }
  }

  /** The plan's default route adds up to nothing. */
  lemma EffectiveDuTunnel(plan: PlanWindows, t: TableIpHelper, f: Famille, a: RouteWindows)
    requires PlanDuProduit(plan) && Posees(plan, t) && a in plan.routes && a.destination == ParDefaut(f)
    ensures var rt := RouteDuPlan(t.routes, t.tunnel.value, a.destination); rt.Some? && Effective(t.lignes, f, rt.value) == Some(0)
  {
    PlanPresent(plan, t, f);
    PlanRegulier(plan);
    hide PlanDuProduit, RouteDAdresse, RoutePosee, DefautDAilleurs, RouteDuPlan, LigneLueDe, LigneDifferente, MetriqueDifferente;
    assert a in RoutesDe(plan.routes, f);
  }

  lemma DefautPerd(plan: PlanWindows, t: TableIpHelper, f: Famille, r: RouteLue)
    requires PlanDuProduit(plan) && Posees(plan, t) && DefautDAilleurs(r, t, t.tunnel.value) && r.destination.famille == f
    ensures IssueContre(RoutesDe(plan.routes, f), t, t.tunnel.value, f, r) in {SansObjet, Perd}
  {
    PlanRegulier(plan);
    hide PlanDuProduit, Posees, RouteDAdresse, RoutePosee, Contient, RouteDuPlan, LigneLueDe, PlusSpecifique, RoutesDe;
    var p := PlusSpecifique(RoutesDe(plan.routes, f), r.destination);
    if p.Some? {
      PasPlusLong(p.value.destination, r.destination);
      SeulDefaut(p.value.destination);
      EffectiveDuTunnel(plan, t, f, p.value);
    }
  }

  lemma PasPlusLong(e: IpNet, d: IpNet)
    requires Contient(e, d)
    ensures e.longueur <= d.longueur && e.famille == d.famille
  {
  }

  lemma AucuneConcurrente(plan: PlanWindows, t: TableIpHelper, f: Famille, issue: Issue)
    requires PlanDuProduit(plan) && Posees(plan, t) && issue in {Gagne, Indecise}
    ensures !AutreAvecIssue(RoutesDe(plan.routes, f), t, t.tunnel.value, f, issue)
  {
    hide PlanDuProduit, RouteDAdresse, Classer, IssueContre;
    forall r | r in t.routes ensures !AutreIssue(RoutesDe(plan.routes, f), t, t.tunnel.value, f, issue, r) {
      ClasseDe(plan, t, r);
      if DefautDAilleurs(r, t, t.tunnel.value) && r.destination.famille == f {
        DefautPerd(plan, t, f, r);
      }
    }
  }

  /** A plan of the product posed on such tables: the proof matches. */
  lemma PlanPose(plan: PlanWindows, t: TableIpHelper)
    requires PlanDuProduit(plan) && Posees(plan, t)
    ensures EcartsDuPlan(plan, t) == [] && !VerdictIndecis(plan, t)
  {
    hide PlanDuProduit, Posees, RouteDuPlanAbsente, MetriqueDifferente, LigneDifferente, TunnelEnTrop, AutreAvecIssue;
    assert t.tunnel.Some? by { TunnelPresent(plan, t); }
    forall f: Famille ensures EcartsFamille(plan, f, t, t.tunnel.value) == [] && !EgaliteIndecise(plan, f, t, t.tunnel.value) {
      PlanPresent(plan, t, f);
      LignePosee(plan, t, f);
      RienEnTrop(plan, t, f);
      AucuneConcurrente(plan, t, f, Gagne);
      AucuneConcurrente(plan, t, f, Indecise);
      var a := RoutesDe(plan.routes, f);
      RienRetenu(Candidats(f, RouteDuPlanAbsente(a, t, t.tunnel.value), MetriqueDifferente(a, t, t.tunnel.value),
                           LigneDifferente(LigneDe(plan.lignes, f), t, t.tunnel.value, f),
                           TunnelEnTrop(a, t, t.tunnel.value, f), AutreAvecIssue(a, t, t.tunnel.value, f, Gagne)));
    }
  }

  lemma TunnelPresent(plan: PlanWindows, t: TableIpHelper)
    requires Posees(plan, t)
    ensures t.tunnel.Some?
  {
    hide RouteDAdresse, RoutePosee, DefautDAilleurs;
  }

  /** Both ways at once: on such tables every route that can be chosen for an address
      the plan covers is an admitted choice. */
  lemma PoseSure(plan: PlanWindows, t: TableIpHelper, f: Famille, m: u64 -> nat, x: Bits, r: RouteLue)
    requires PlanDuProduit(plan) && Posees(plan, t)
    requires MetriquesLues(t, f, m) && CouverteParLePlan(plan, f, x) && PeutEtreChoisie(t, f, m, x, r)
    ensures t.tunnel.Some? && ChoixAdmis(plan, f, t, t.tunnel.value, r)
  {
    PlanPose(plan, t);
    CorrespondanceSure(plan, t, f, m, x, r);
  }

  /** Such tables exist, for any product's plan and any tunnel. */
  lemma PoseExiste(plan: PlanWindows, tunnel: u64) returns (t: TableIpHelper)
    requires PlanDuProduit(plan)
    ensures t.tunnel == Some(tunnel) && Posees(plan, t)
  {
    PlanRegulier(plan);
    hide PlanDuProduit, PlanMasque, RouteDAdresse, DefautDAilleurs, ParDefaut, DiffusionDirigee, EstBoucleLocale;
    var routes := seq(|plan.routes|, i requires 0 <= i < |plan.routes| =>
      RouteLue(tunnel, plan.routes[i].destination, None, plan.routes[i].metrique));
    var v4, v6 := LigneLue(tunnel, Ipv4, METRIQUE_INTERFACE_CAPTURE, false), LigneLue(tunnel, Ipv6, METRIQUE_INTERFACE_CAPTURE, false);
    t := TableIpHelper(Some(tunnel), routes, [v4, v6], []);
    assert LigneLueDe([v4, v6][1..], tunnel, Ipv6) == Some(v6);
    forall a | a in plan.routes ensures RouteLue(tunnel, a.destination, None, a.metrique) in t.routes {
      var i :| 0 <= i < |plan.routes| && plan.routes[i] == a;
      assert routes[i] == RouteLue(tunnel, a.destination, None, a.metrique);
    }
    forall r | r in t.routes ensures RoutePosee(plan, r, tunnel) && r.metrique == METRIQUE_ROUTE {
      var i :| 0 <= i < |routes| && routes[i] == r;
      assert plan.routes[i] in plan.routes;
    }
  }
}
