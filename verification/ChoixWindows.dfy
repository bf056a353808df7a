/**
 How Windows chooses a route, as the header of
 crates/bifrost-cli/src/preuve_routes_windows.rs states it: the longest prefix,
 then the smallest sum of the route's metric and its interface's. An interface
 metric that was not read may be anything, and an equality may go either way.
 */
module ChoixWindows {
  import opened Commun
  import opened PrefixesIp
  import opened RoutesWindows

  /** `m` gives every interface of a family its metric; it agrees with what was read. */
  ghost predicate MetriquesLues(t: TableIpHelper, f: Famille, m: u64 -> nat) {
    forall i: u64 :: LigneLueDe(t.lignes, i, f).Some? ==> m(i) == LigneLueDe(t.lignes, i, f).value.metrique
  }

  predicate Candidate(t: TableIpHelper, f: Famille, x: Bits, r: RouteLue) {
    r in t.routes && r.destination.famille == f && Couvre(r.destination, x)
  }

  /** No candidate is more specific than `r`, and none as specific is cheaper. */
  ghost predicate PeutEtreChoisie(t: TableIpHelper, f: Famille, m: u64 -> nat, x: Bits, r: RouteLue) {
    && Candidate(t, f, x, r)
    && forall s :: Candidate(t, f, x, s) ==>
         || s.destination.longueur < r.destination.longueur
         || (s.destination.longueur == r.destination.longueur && r.metrique + m(r.interface) <= s.metrique + m(s.interface))
  }

  /** The plan covers the address. */
  ghost predicate CouverteParLePlan(plan: PlanWindows, f: Famille, x: Bits) {
    exists a :: a in RoutesDe(plan.routes, f) && Couvre(a.destination, x)
  }

  /** A route that the product accepts as the one chosen. */
  ghost predicate ChoixAdmis(plan: PlanWindows, f: Famille, t: TableIpHelper, tunnel: u64, r: RouteLue) {
    || (r.interface == tunnel && (DuPlan(RoutesDe(plan.routes, f), r) || DiffusionDuPlan(RoutesDe(plan.routes, f), r)))
    || Classer(r, t.adresses) != Autre
  }

  /** A route of another interface that can be chosen for an address of the plan
      wins or ties in the comparison. */
  lemma ChoisieGagneOuEgale(plan: PlanWindows, f: Famille, t: TableIpHelper, tunnel: u64, m: u64 -> nat, x: Bits, r: RouteLue)
    requires !RouteDuPlanAbsente(RoutesDe(plan.routes, f), t, tunnel)
    requires MetriquesLues(t, f, m) && PeutEtreChoisie(t, f, m, x, r)
    requires CouverteParLePlan(plan, f, x)
    ensures IssueContre(RoutesDe(plan.routes, f), t, tunnel, f, r) in {Gagne, Indecise}
  {
    var attendues := RoutesDe(plan.routes, f);
    var a :| a in attendues && Couvre(a.destination, x);
    var ra := RouteDuPlan(t.routes, tunnel, a.destination).value;
    assert Candidate(t, f, x, ra);
    AdresseCommune(a.destination, r.destination, x);
    var p := PlusSpecifique(attendues, r.destination).value;
    ContientEstInclusion(p.destination, r.destination);
    var rp := RouteDuPlan(t.routes, tunnel, p.destination).value;
    assert Candidate(t, f, x, rp);
  }

  /** Without a difference nor an undecided tie, in one family. */
  lemma SansEcartFamille(plan: PlanWindows, f: Famille, t: TableIpHelper, tunnel: u64, m: u64 -> nat, x: Bits, r: RouteLue)
    requires EcartsFamille(plan, f, t, tunnel) == [] && !EgaliteIndecise(plan, f, t, tunnel)
    requires MetriquesLues(t, f, m) && CouverteParLePlan(plan, f, x) && PeutEtreChoisie(t, f, m, x, r)
    ensures ChoixAdmis(plan, f, t, tunnel, r)
  {
    var attendues := RoutesDe(plan.routes, f);
    var c := Candidats(f, RouteDuPlanAbsente(attendues, t, tunnel), MetriqueDifferente(attendues, t, tunnel),
                       LigneDifferente(LigneDe(plan.lignes, f), t, tunnel, f),
                       TunnelEnTrop(attendues, t, tunnel, f), AutreAvecIssue(attendues, t, tunnel, f, Gagne));
    RienRetenu(c);
    assert !c[0].0 && !c[3].0 && !c[4].0;
    if r.interface == tunnel {
      assert !EnTrop(attendues, t, tunnel, f, r);
    } else {
      ChoisieGagneOuEgale(plan, f, t, tunnel, m, x, r);
      assert !AutreIssue(attendues, t, tunnel, f, Gagne, r);
      assert !AutreIssue(attendues, t, tunnel, f, Indecise, r);
    }
  }

  /** MATCH under Windows: for every address the plan covers, every route that
      can be chosen is the plan's, on the tunnel, or of an admitted class. */
  lemma CorrespondanceSure(plan: PlanWindows, t: TableIpHelper, f: Famille, m: u64 -> nat, x: Bits, r: RouteLue)
    requires EcartsDuPlan(plan, t) == [] && !VerdictIndecis(plan, t)
    requires MetriquesLues(t, f, m) && CouverteParLePlan(plan, f, x) && PeutEtreChoisie(t, f, m, x, r)
    ensures t.tunnel.Some? && ChoixAdmis(plan, f, t, t.tunnel.value, r)
  {
    var tunnel := t.tunnel.value;
    var e4, e6 := EcartsFamille(plan, Ipv4, t, tunnel), EcartsFamille(plan, Ipv6, t, tunnel);
    assert |e4| + |e6| == |e4 + e6| == 0;
    assert e4 == [] && e6 == [];
    SansEcartFamille(plan, f, t, tunnel, m, x, r);
  }

  /** What an admitted class means for the address: it is the host's own, in a
      network of the route's interface, multicast, or the limited broadcast. */
  ghost predicate DestinationLegitime(r: RouteLue, adresses: seq<AdresseLue>, x: Bits)
    requires |x| == Largeur(r.destination.famille)
  {
    || EstBoucleLocale(r.interface)
    || (exists a :: a in adresses && DuLien(a, r) && a.adresse.famille == r.destination.famille
          && (a.adresse.bits == x || (a.adresse.longueur > 0 && Couvre(a.adresse, x))))
    || AdresseMulticast(r.destination.famille, x)
    || (r.destination.famille == Ipv4 && forall i :: 0 <= i < 32 ==> x[i])
  }

  lemma AdmiseLegitime(r: RouteLue, adresses: seq<AdresseLue>, x: Bits)
    requires Classer(r, adresses) != Autre && Couvre(r.destination, x)
    ensures |x| == Largeur(r.destination.famille)
    ensures DestinationLegitime(r, adresses, x)
  {
    var d := r.destination;
    if Pleine(d) {
      assert x == x[..d.longueur] && d.bits == d.bits[..d.longueur];
    }
    match Classer(r, adresses) {
      case LivraisonLocale =>
      case Connectee =>
        var a :| a in adresses && DuLien(a, r) && a.adresse.longueur == d.longueur && Masquer(a.adresse) == Masquer(d);
        MasquesEgaux(a.adresse, d);
        assert Couvre(a.adresse, x);
      case HoteDuReseau =>
        var a :| a in adresses && DuLien(a, r) && a.adresse.longueur > 0 && Contient(Masquer(a.adresse), d);
        ContientEstInclusion(Masquer(a.adresse), d);
        MasquerCouvre(a.adresse, x);
        assert Couvre(a.adresse, x);
      case MultidiffusionSurLeLien =>
        var n := if d.famille == Ipv4 then 4 else 8;
        forall i | 0 <= i < n ensures x[i] == d.bits[i] {
          assert x[..d.longueur][i] == d.bits[..d.longueur][i];
        }
      case DiffusionLimitee =>
      case Autre =>
    }
  }

  // ---------------------------------------------------------------------
  // Precision.
  // ---------------------------------------------------------------------

  /** No destination of the plan is strictly inside `d`. */
  ghost predicate SansPlanDedans(plan: PlanWindows, f: Famille, d: IpNet) {
    forall a :: a in RoutesDe(plan.routes, f) && Contient(d, a.destination) ==> a.destination.longueur <= d.longueur
  }

  /** Destinations as the plan builds them: masked. */
  ghost predicate PlanMasque(plan: PlanWindows) {
    forall a :: a in plan.routes ==> Masquer(a.destination) == a.destination
  }

  /** For an address both cover, `r` is preferred to `s`, metrics being `m`. */
  predicate Prefere(m: u64 -> nat, r: RouteLue, s: RouteLue) {
    || r.destination.longueur > s.destination.longueur
    || (r.destination.longueur == s.destination.longueur && r.metrique + m(r.interface) < s.metrique + m(s.interface))
  }

  /** `r` beats the plan: on every address of its prefix it is preferred to every
      route of the plan that covers the address. */
  ghost predicate BatLePlan(plan: PlanWindows, f: Famille, t: TableIpHelper, tunnel: u64, m: u64 -> nat, r: RouteLue)
    requires !RouteDuPlanAbsente(RoutesDe(plan.routes, f), t, tunnel)
  {
    forall x: Bits, a :: Couvre(r.destination, x) && a in RoutesDe(plan.routes, f) && Couvre(a.destination, x) ==>
      Prefere(m, r, RouteDuPlan(t.routes, tunnel, a.destination).value)
  }

  /** A route counted as winning, and what the count rests on. */
  ghost predicate Comptee(plan: PlanWindows, f: Famille, t: TableIpHelper, tunnel: u64, m: u64 -> nat, r: RouteLue) {
    && PlanMasque(plan) && MetriquesLues(t, f, m)
    && r in t.routes && r.destination.famille == f
    && LigneLueDe(t.lignes, r.interface, f).Some? && LigneLueDe(t.lignes, tunnel, f).Some?
    && IssueContre(RoutesDe(plan.routes, f), t, tunnel, f, r) == Gagne
  }

  /** On an address a plan destination no longer than `r`'s shares with it, a
      winning route is preferred to the plan's. */
  lemma GagnantePreferee(plan: PlanWindows, f: Famille, t: TableIpHelper, tunnel: u64, m: u64 -> nat, r: RouteLue, x: Bits, a: RouteWindows)
    requires Comptee(plan, f, t, tunnel, m, r)
    requires a in RoutesDe(plan.routes, f) && RouteDuPlan(t.routes, tunnel, a.destination).Some?
    requires Couvre(r.destination, x) && Couvre(a.destination, x) && a.destination.longueur <= r.destination.longueur
    ensures Prefere(m, r, RouteDuPlan(t.routes, tunnel, a.destination).value)
  {
    var attendues := RoutesDe(plan.routes, f);
    var p := PlusSpecifique(attendues, r.destination).value;
    AdresseCommune(a.destination, r.destination, x);
    if a.destination.longueur == r.destination.longueur {
      ContientEstInclusion(p.destination, r.destination);
      MemePrefixeMemeDestination(a.destination, p.destination, x);
    }
  }

  /** Where a plan destination lies strictly inside `r`'s prefix, its first address
      is one for which `r` is never chosen, whatever the metrics. */
  lemma GagnanteBattue(plan: PlanWindows, f: Famille, t: TableIpHelper, tunnel: u64, m: u64 -> nat, r: RouteLue, a: RouteWindows)
    requires a in RoutesDe(plan.routes, f) && RouteDuPlan(t.routes, tunnel, a.destination).Some?
    requires r.destination.famille == f && Contient(r.destination, a.destination) && a.destination.longueur > r.destination.longueur
    ensures Couvre(r.destination, a.destination.bits) && Couvre(a.destination, a.destination.bits)
    ensures !PeutEtreChoisie(t, f, m, a.destination.bits, r)
  {
    var x := a.destination.bits;
    ContientEstInclusion(r.destination, a.destination);
    assert Couvre(a.destination, x);
    assert Candidate(t, f, x, RouteDuPlan(t.routes, tunnel, a.destination).value);
  }

  /** A route counted as winning beats the plan exactly when no destination of the
      plan lies strictly inside its prefix. */
  lemma GagnanteExacte(plan: PlanWindows, f: Famille, t: TableIpHelper, tunnel: u64, m: u64 -> nat, r: RouteLue)
    requires Comptee(plan, f, t, tunnel, m, r) && !RouteDuPlanAbsente(RoutesDe(plan.routes, f), t, tunnel)
    ensures BatLePlan(plan, f, t, tunnel, m, r) <==> SansPlanDedans(plan, f, r.destination)
  {
    if SansPlanDedans(plan, f, r.destination) {
      forall x: Bits, a | Couvre(r.destination, x) && a in RoutesDe(plan.routes, f) && Couvre(a.destination, x)
        ensures Prefere(m, r, RouteDuPlan(t.routes, tunnel, a.destination).value)
      {
        if a.destination.longueur > r.destination.longueur {
          AdresseCommune(r.destination, a.destination, x);
        }
        GagnantePreferee(plan, f, t, tunnel, m, r, x, a);
      }
    } else {
      var a :| a in RoutesDe(plan.routes, f) && Contient(r.destination, a.destination) && a.destination.longueur > r.destination.longueur;
      GagnanteBattue(plan, f, t, tunnel, m, r, a);
      assert !Prefere(m, r, RouteDuPlan(t.routes, tunnel, a.destination).value);
    }
  }

  /** Then no route of the plan is chosen for any address of its prefix. */
  lemma GagnanteGagneVraiment(plan: PlanWindows, f: Famille, t: TableIpHelper, tunnel: u64, m: u64 -> nat,
                              r: RouteLue, x: Bits, a: RouteWindows)
    requires Comptee(plan, f, t, tunnel, m, r) && SansPlanDedans(plan, f, r.destination) && Couvre(r.destination, x)
    requires a in RoutesDe(plan.routes, f) && RouteDuPlan(t.routes, tunnel, a.destination).Some?
    ensures !PeutEtreChoisie(t, f, m, x, RouteDuPlan(t.routes, tunnel, a.destination).value)
  {
    if Couvre(a.destination, x) {
      if a.destination.longueur > r.destination.longueur {
        AdresseCommune(r.destination, a.destination, x);
      }
      GagnantePreferee(plan, f, t, tunnel, m, r, x, a);
      assert Candidate(t, f, x, r);
    }
  }

  lemma MemePrefixeMemeDestination(a: IpNet, b: IpNet, x: Bits)
    requires Masquer(a) == a && Masquer(b) == b && a.famille == b.famille && a.longueur == b.longueur
    requires Couvre(a, x) && Couvre(b, x)
    ensures a == b
  {
  }

  /** Without that condition it can fail: a route of another interface that the
      comparison counts as winning loses, for one of its addresses, to a longer
      destination of the plan. */
  lemma GagnanteBattueParUnPlusLong() returns (plan: PlanWindows, t: TableIpHelper, r: RouteLue, x: Bits)
    ensures PlanMasque(plan) && r in t.routes && Couvre(r.destination, x) && !SansPlanDedans(plan, Ipv4, r.destination)
    ensures IssueContre(RoutesDe(plan.routes, Ipv4), t, 7, Ipv4, r) == Gagne
    ensures LigneLueDe(t.lignes, 7, Ipv4).Some? && LigneLueDe(t.lignes, 9, Ipv4).Some? && r.interface == 9
    ensures forall m: u64 -> nat :: !PeutEtreChoisie(t, Ipv4, m, x, r)
  {
    hide Masquer, Contient, PeutEtreChoisie;
    x := seq(32, _ => false);
    PrefixesNuls(x);
    var un, deux, trois := IpNetBrut(Ipv4, x, 1), IpNetBrut(Ipv4, x, 2), IpNetBrut(Ipv4, x, 3);
    r := RouteLue(9, deux, None, 0);
    var longue := RouteLue(7, trois, None, 0);
    var a, b := RouteWindows(un, 0), RouteWindows(trois, 0);
    plan := PlanWindows(WireGuard, "wg0", 1420, [], [a, b]);
    t := TableIpHelper(Some(7), [RouteLue(7, un, None, 0), longue, r],
                       [LigneLue(7, Ipv4, 0, false), LigneLue(9, Ipv4, 0, false)], []);
    var attendues := RoutesDe(plan.routes, Ipv4);
    assert a in attendues && b in attendues;
    UnSeulContient(attendues, a, b, deux);
    assert t.lignes[0] in t.lignes && t.lignes[1] in t.lignes;
    assert r in t.routes by { assert t.routes[2] == r; }
    forall m: u64 -> nat ensures !PeutEtreChoisie(t, Ipv4, m, x, r) {
      GagnanteBattue(plan, Ipv4, t, 7, m, r, b);
    }
  }

  lemma PrefixesNuls(x: Bits)
    requires |x| == 32 && forall i :: 0 <= i < 32 ==> !x[i]
    ensures forall n :: 0 <= n <= 32 ==> Masquer(IpNetBrut(Ipv4, x, n)) == IpNetBrut(Ipv4, x, n)
    ensures forall n, l :: 0 <= n <= 32 && 0 <= l <= 32 ==>
              (Contient(IpNetBrut(Ipv4, x, n), IpNetBrut(Ipv4, x, l)) <==> n <= l)
  {
    forall n | 0 <= n <= 32 ensures Masquer(IpNetBrut(Ipv4, x, n)) == IpNetBrut(Ipv4, x, n) {
      assert Masquer(IpNetBrut(Ipv4, x, n)).bits == x;
    }
  }

  lemma UnSeulContient(attendues: seq<RouteWindows>, a: RouteWindows, b: RouteWindows, d: IpNet)
    requires forall c :: c in attendues <==> c == a || c == b
    requires Contient(a.destination, d) && !Contient(b.destination, d)
    ensures PlusSpecifique(attendues, d) == Some(a)
  {
  }

  lemma {:induction false} RoutesMasqueesMasquees(autorises: seq<IpNet>)
    ensures forall a :: a in RoutesMasquees(autorises) ==> Masquer(a.destination) == a.destination && a.metrique == METRIQUE_ROUTE
    ensures forall i, j :: 0 <= i < j < |RoutesMasquees(autorises)| ==> RoutesMasquees(autorises)[i] != RoutesMasquees(autorises)[j]
  {
    if autorises != [] {
      RoutesMasqueesMasquees(autorises[..|autorises| - 1]);
      var n := autorises[|autorises| - 1];
      assert Masquer(Masquer(n)).bits == Masquer(n).bits;
    }
  }

  /** The product's plans have masked destinations. */
  lemma PlansMasques(interface: string, familles: seq<Famille>, autorises: seq<IpNet>, mtu: u32)
    ensures PlanMasque(PlanWireGuard(interface, familles, autorises, mtu))
    ensures PlanMasque(PlanCoeur(interface, familles, mtu))
  {
    RoutesMasqueesMasquees(autorises);
    forall f: Famille ensures Masquer(ParDefaut(f)) == ParDefaut(f) {
      assert Masquer(ParDefaut(f)).bits == ParDefaut(f).bits;
    }
  }

  /** The core path covers every address of every family it serves; the
      WireGuard path covers the addresses of its allowed prefixes. */
  lemma AdressesCouvertes(interface: string, familles: seq<Famille>, autorises: seq<IpNet>, mtu: u32, f: Famille, x: Bits)
    requires |x| == Largeur(f)
    ensures f in familles ==> CouverteParLePlan(PlanCoeur(interface, familles, mtu), f, x)
    ensures CouverteParLePlan(PlanWireGuard(interface, familles, autorises, mtu), f, x)
       <==> exists n :: n in autorises && n.famille == f && Couvre(n, x)
  {
    if f in familles {
      var a := RouteWindows(ParDefaut(f), METRIQUE_ROUTE);
      assert a in RoutesDe(PlanCoeur(interface, familles, mtu).routes, f);
    }
    CouvertureMasquee(autorises, f, x);
  }

  lemma {:induction false} CouvertureMasquee(autorises: seq<IpNet>, f: Famille, x: Bits)
    ensures (exists a :: a in RoutesMasquees(autorises) && a.destination.famille == f && Couvre(a.destination, x))
       <==> exists n :: n in autorises && n.famille == f && Couvre(n, x)
  {
    if autorises != [] {
      var k := |autorises| - 1;
      var n := autorises[k];
      CouvertureMasquee(autorises[..k], f, x);
      MasquerCouvre(n, x);
      assert autorises == autorises[..k] + [n];
      assert RouteWindows(Masquer(n), METRIQUE_ROUTE) in RoutesMasquees(autorises);
    }
  }
}
