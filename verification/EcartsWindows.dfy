/**
 What each difference of the Windows comparison says of the tables read
 (crates/bifrost-cli/src/preuve_routes_windows.rs:410-446 and 461-751): the tunnel's
 routes and line, the routes of no admitted class, and the metrics that decide
 between one of them and the plan's. A category is reported exactly when its sentence
 here holds.
 */
module EcartsWindows {
  import opened Commun
  import opened PrefixesIp
  import opened RoutesWindows
  import ChoixWindows
  import TriStable

  // ---------------------------------------------------------------------
  // What is read off the tables.
  // ---------------------------------------------------------------------

  /** Route `k` is the first on the tunnel and on the link towards `d`. */
  ghost predicate PremierePosee(routes: seq<RouteLue>, tunnel: u64, d: IpNet, k: nat) {
    && k < |routes| && Posee(routes[k], tunnel, d) && forall i :: 0 <= i < k ==> !Posee(routes[i], tunnel, d)
  }

  predicate Posee(r: RouteLue, tunnel: u64, d: IpNet) { r.interface == tunnel && r.destination == d && r.prochainSaut == None }

  /** Line `k` is the interface's first for this family. */
  ghost predicate PremiereLigne(lignes: seq<LigneLue>, interface: u64, f: Famille, k: nat) {
    && k < |lignes| && lignes[k].interface == interface && lignes[k].famille == f
    && forall i :: 0 <= i < k ==> !(lignes[i].interface == interface && lignes[i].famille == f)
  }

  /** The plan captures a family: its first line of it says so. */
  ghost predicate Capturee(lignes: seq<LigneInterface>, f: Famille) {
    exists k: nat :: PremiereDuPlan(lignes, f, k) && lignes[k].capture
  }

  ghost predicate PremiereDuPlan(lignes: seq<LigneInterface>, f: Famille, k: nat) {
    k < |lignes| && lignes[k].famille == f && forall i :: 0 <= i < k ==> lignes[i].famille != f
  }

  /** The last address of an IPv4 prefix of 1 to 30 bits, as a host route. */
  predicate EstDiffusion(n: IpNet, d: IpNet) {
    n.famille == Ipv4 && 1 <= n.longueur <= 30 && d.famille == Ipv4 && d.longueur == 32
    && d.bits == n.bits[..n.longueur] + seq(32 - n.longueur, _ => true)
  }

  predicate Entiere(n: IpNet) { n.longueur == match n.famille case Ipv4 => 32 case Ipv6 => 128 }

  /** The address and the route start alike, and are on one interface. */
  predicate Commence(a: AdresseLue, r: RouteLue, n: nat)
    requires n <= |r.destination.bits|
  {
    a.interface == r.interface && a.adresse.famille == r.destination.famille && a.adresse.bits[..n] == r.destination.bits[..n]
  }

  /** The admitted routes: the loopback's; on the link, an address of the interface,
      its network, a host of its network, multicast, the limited broadcast. */
  predicate Admise(r: RouteLue, adresses: seq<AdresseLue>) {
    var d := r.destination;
    || r.interface / 281474976710656 == 24
    || (r.prochainSaut == None
        && (|| (Entiere(d) && exists a | a in adresses :: Commence(a, r, |d.bits|))
            || (d.longueur > 0 && exists a | a in adresses :: a.adresse.longueur == d.longueur && Commence(a, r, d.longueur))
            || (Entiere(d) && exists a | a in adresses ::
                  0 < a.adresse.longueur <= |d.bits| && Commence(a, r, a.adresse.longueur))
            || (d.famille == Ipv4 && d.longueur >= 4 && d.bits[..4] == [true, true, true, false])
            || (d.famille == Ipv6 && d.longueur >= 8 && d.bits[..8] == [true, true, true, true, true, true, true, true])
            || (d.famille == Ipv4 && Entiere(d) && d.bits == seq(32, _ => true))))
  }

  lemma MulticastEst(d: IpNet)
    ensures Multidiffusion(d) <==>
      || (d.famille == Ipv4 && d.longueur >= 4 && d.bits[..4] == [true, true, true, false])
      || (d.famille == Ipv6 && d.longueur >= 8 && d.bits[..8] == [true, true, true, true, true, true, true, true])
  {
    if d.famille == Ipv6 && AdresseMulticast(Ipv6, d.bits) {
      assert d.bits[..8] == [true, true, true, true, true, true, true, true];
    }
    if d.famille == Ipv6 && d.bits[..8] == [true, true, true, true, true, true, true, true] {
      forall i | 0 <= i < 8 ensures d.bits[i] {
        assert d.bits[..8][i];
      }
    }
    if d.famille == Ipv4 {
      assert d.bits[..4] == [d.bits[0], d.bits[1], d.bits[2], d.bits[3]];
    }
  }

  lemma ReseauxDe(a: AdresseLue, r: RouteLue)
    ensures var d := r.destination;
            && (a.adresse.longueur == d.longueur && DuLien(a, r) && Masquer(a.adresse) == Masquer(d)
                <==> a.adresse.longueur == d.longueur && Commence(a, r, d.longueur))
            && (Entiere(d) ==> (DuLien(a, r) && Contient(Masquer(a.adresse), d)
                                <==> a.adresse.longueur <= |d.bits| && Commence(a, r, a.adresse.longueur)))
            && (DuLien(a, r) && a.adresse.famille == d.famille && a.adresse.bits == d.bits <==> Commence(a, r, |d.bits|))
  {
    var d := r.destination;
    if a.adresse.famille == d.famille {
      if a.adresse.longueur == d.longueur {
        MasquesEgaux(a.adresse, d);
      }
      var n := a.adresse.longueur;
      assert Masquer(Masquer(a.adresse)).bits == Masquer(a.adresse).bits;
      MasquesEgaux(IpNetBrut(d.famille, d.bits, n), a.adresse);
      assert a.adresse.bits[..|d.bits|] == a.adresse.bits && d.bits[..|d.bits|] == d.bits;
    }
  }

  lemma AdmiseEst(r: RouteLue, adresses: seq<AdresseLue>)
    ensures Classer(r, adresses) != Autre <==> Admise(r, adresses)
  {
    var d := r.destination;
    forall a: AdresseLue
      ensures a.adresse.longueur == d.longueur && DuLien(a, r) && Masquer(a.adresse) == Masquer(d)
         <==> a.adresse.longueur == d.longueur && Commence(a, r, d.longueur)
      ensures Entiere(d) ==> (DuLien(a, r) && Contient(Masquer(a.adresse), d)
                              <==> a.adresse.longueur <= |d.bits| && Commence(a, r, a.adresse.longueur))
      ensures DuLien(a, r) && a.adresse.famille == d.famille && a.adresse.bits == d.bits <==> Commence(a, r, |d.bits|)
    {
      ReseauxDe(a, r);
    }
    MulticastEst(d);
    assert d.famille == Ipv4 ==> (d.bits == seq(32, _ => true) <==> forall i :: 0 <= i < 32 ==> d.bits[i]);
    hide Masquer, Contient, Commence, DuLien, Multidiffusion;
  }

  // ---------------------------------------------------------------------
  // The functions of the comparison, said of the tables.
  // ---------------------------------------------------------------------

  lemma {:induction false} RouteDuPlanEst(routes: seq<RouteLue>, tunnel: u64, d: IpNet, k: nat)
    ensures PremierePosee(routes, tunnel, d, k) ==> RouteDuPlan(routes, tunnel, d) == Some(routes[k])
    ensures RouteDuPlan(routes, tunnel, d).None? <==> forall i :: 0 <= i < |routes| ==> !Posee(routes[i], tunnel, d)
  {
    if routes != [] && !Posee(routes[0], tunnel, d) {
      if PremierePosee(routes, tunnel, d, k) {
        assert routes[k] == routes[1..][k - 1];
        assert forall i :: 0 <= i < k - 1 ==> routes[1..][i] == routes[i + 1];
      }
      RouteDuPlanEst(routes[1..], tunnel, d, if k > 0 then k - 1 else 0);
    }
  }

  lemma {:induction false} PremiereExiste(routes: seq<RouteLue>, tunnel: u64, d: IpNet) returns (k: nat)
    requires RouteDuPlan(routes, tunnel, d).Some?
    ensures PremierePosee(routes, tunnel, d, k)
  {
    if Posee(routes[0], tunnel, d) {
      k := 0;
    } else {
      var n := PremiereExiste(routes[1..], tunnel, d);
      k := n + 1;
      assert forall i :: 0 < i <= n + 1 ==> routes[1..][i - 1] == routes[i];
    }
  }

  lemma {:induction false} LigneLueEst(lignes: seq<LigneLue>, interface: u64, f: Famille, k: nat)
    ensures PremiereLigne(lignes, interface, f, k) ==> LigneLueDe(lignes, interface, f) == Some(lignes[k])
  {
    if lignes != [] && PremiereLigne(lignes, interface, f, k) && k > 0 {
      assert forall i :: 0 <= i < k ==> lignes[1..][i] == lignes[i + 1];
      LigneLueEst(lignes[1..], interface, f, k - 1);
    }
  }

  lemma {:induction false} LigneExiste(lignes: seq<LigneLue>, interface: u64, f: Famille) returns (k: nat)
    requires LigneLueDe(lignes, interface, f).Some?
    ensures PremiereLigne(lignes, interface, f, k)
  {
    if lignes[0].interface == interface && lignes[0].famille == f {
      k := 0;
    } else {
      var n := LigneExiste(lignes[1..], interface, f);
      k := n + 1;
      assert forall i :: 0 < i <= n + 1 ==> lignes[1..][i - 1] == lignes[i];
    }
  }

  lemma LigneSuivante(lignes: seq<LigneInterface>, f: Famille, k: nat)
    requires lignes != [] && lignes[0].famille != f
    ensures PremiereDuPlan(lignes, f, k + 1) <==> PremiereDuPlan(lignes[1..], f, k)
    ensures !PremiereDuPlan(lignes, f, 0)
  {
    if PremiereDuPlan(lignes, f, k + 1) {
      assert forall i :: 0 <= i < k ==> lignes[1..][i] == lignes[i + 1];
    }
    if PremiereDuPlan(lignes[1..], f, k) {
      assert forall i :: 0 < i < k + 1 ==> lignes[i] == lignes[1..][i - 1];
    }
  }

  lemma {:induction false} CaptureEst(lignes: seq<LigneInterface>, f: Famille)
    ensures (LigneDe(lignes, f).Some? && LigneDe(lignes, f).value.capture) <==> Capturee(lignes, f)
  {
    if lignes != [] {
      if lignes[0].famille == f {
        assert PremiereDuPlan(lignes, f, 0);
      } else {
        CaptureEst(lignes[1..], f);
        if k: nat :| PremiereDuPlan(lignes, f, k) && lignes[k].capture {
          LigneSuivante(lignes, f, if k > 0 then k - 1 else 0);
        }
        if k: nat :| PremiereDuPlan(lignes[1..], f, k) && lignes[1..][k].capture {
          LigneSuivante(lignes, f, k);
        }
      }
    }
  }

  lemma DiffusionEst(n: IpNet, d: IpNet)
    ensures DiffusionDirigee(n) == Some(d) <==> EstDiffusion(n, d)
  {
    if n.famille == Ipv4 && 1 <= n.longueur <= 30 {
      assert DiffusionDirigee(n).value.bits == n.bits[..n.longueur] + seq(32 - n.longueur, _ => true);
    }
  }

  lemma {:induction false} RetenirMembre(c: seq<(bool, Ecart)>, x: Ecart)
    ensures x in Retenir(c) <==> exists i :: 0 <= i < |c| && c[i].0 && c[i].1 == x
  {
    if c != [] {
      var n := |c| - 1;
      RetenirMembre(c[..n], x);
      assert forall i :: 0 <= i < n ==> c[..n][i] == c[i];
    }
  }

  lemma {:induction false} RetenirTrie(c: seq<(bool, Ecart)>)
    requires forall i, j :: 0 <= i < j < |c| ==> Rang(c[i].1) < Rang(c[j].1)
    ensures TriStable.StrictementTrie(Retenir(c), Rang)
  {
    if c != [] {
      var n := |c| - 1;
      RetenirTrie(c[..n]);
      hide Rang;
      forall x | x in Retenir(c[..n]) ensures Rang(x) < Rang(c[n].1) {
        RetenirMembre(c[..n], x);
      }
    }
  }

  /** A category is in the report exactly when it is present. */
  lemma CandidatsDits(f: Famille, absente: bool, metrique: bool, ligne: bool, enTrop: bool, concurrente: bool)
    ensures var e := Retenir(Candidats(f, absente, metrique, ligne, enTrop, concurrente));
            && (Ecart(f, PlanAbsente) in e <==> absente) && (Ecart(f, MetriqueDeRoute) in e <==> metrique)
            && (Ecart(f, MetriqueDInterface) in e <==> ligne) && (Ecart(f, RouteEnTrop) in e <==> enTrop)
            && (Ecart(f, RouteConcurrente) in e <==> concurrente)
            && (e == [] <==> !absente && !metrique && !ligne && !enTrop && !concurrente)
            && TriStable.StrictementTrie(e, Rang) && forall x :: x in e ==> x.Ecart? && x.famille == f
  {
    var c := Candidats(f, absente, metrique, ligne, enTrop, concurrente);
    RetenirTrie(c);
    RienRetenu(c);
    hide Retenir, Rang, TriStable.StrictementTrie;
    forall x ensures x in Retenir(c) <==> exists i :: 0 <= i < 5 && c[i].0 && c[i].1 == x {
      RetenirMembre(c, x);
    }
    assert c[0] == (absente, Ecart(f, PlanAbsente)) && c[1] == (metrique, Ecart(f, MetriqueDeRoute)) && c[2] == (ligne, Ecart(f, MetriqueDInterface))
        && c[3] == (enTrop, Ecart(f, RouteEnTrop)) && c[4] == (concurrente, Ecart(f, RouteConcurrente));
  }

  /** The place of a difference in the report. */
  function Rang(e: Ecart): int {
    match e
    case InterfaceAbsente => -1
    case Ecart(f, c) =>
      (match f case Ipv4 => 0 case Ipv6 => 5)
      + (match c case PlanAbsente => 0 case MetriqueDeRoute => 1 case MetriqueDInterface => 2 case RouteEnTrop => 3 case RouteConcurrente => 4)
  }

  // ---------------------------------------------------------------------
  // The plan's routes and its line.
  // ---------------------------------------------------------------------

  ghost predicate Absente(plan: PlanWindows, f: Famille, t: TableIpHelper, tunnel: u64) {
    exists a :: a in plan.routes && a.destination.famille == f && forall r :: r in t.routes ==> !Posee(r, tunnel, a.destination)
  }

  /** A route of the plan that is there under another metric. */
  ghost predicate AutreMetriqueDeRoute(plan: PlanWindows, f: Famille, t: TableIpHelper, tunnel: u64) {
    exists a, k: nat :: a in plan.routes && a.destination.famille == f && PremierePosee(t.routes, tunnel, a.destination, k)
                        && t.routes[k].metrique != a.metrique
  }

  /** The captured family's line: metric zero, and not the automatic one. */
  ghost predicate LigneImposee(t: TableIpHelper, tunnel: u64, f: Famille) {
    exists k: nat :: PremiereLigne(t.lignes, tunnel, f, k) && t.lignes[k].metrique == 0 && t.lignes[k].metriqueAutomatique == false
  }

  lemma AbsenteEst(plan: PlanWindows, f: Famille, t: TableIpHelper, tunnel: u64)
    ensures RouteDuPlanAbsente(RoutesDe(plan.routes, f), t, tunnel) <==> Absente(plan, f, t, tunnel)
  {
    hide Posee, RoutesDe, RouteDuPlan;
    forall d: IpNet ensures RouteDuPlan(t.routes, tunnel, d).None? <==> forall r :: r in t.routes ==> !Posee(r, tunnel, d) {
      RouteDuPlanEst(t.routes, tunnel, d, 0);
    }
  }

  lemma MetriqueEst(plan: PlanWindows, f: Famille, t: TableIpHelper, tunnel: u64)
    ensures MetriqueDifferente(RoutesDe(plan.routes, f), t, tunnel) <==> AutreMetriqueDeRoute(plan, f, t, tunnel)
  {
    hide RoutesDe, RouteDuPlan, Posee;
    forall a: RouteWindows
      ensures AutreMetrique(a, t, tunnel) <==> exists k: nat :: PremierePosee(t.routes, tunnel, a.destination, k) && t.routes[k].metrique != a.metrique
    {
      forall k: nat ensures PremierePosee(t.routes, tunnel, a.destination, k) ==> k < |t.routes| && RouteDuPlan(t.routes, tunnel, a.destination) == Some(t.routes[k]) {
        RouteDuPlanEst(t.routes, tunnel, a.destination, k);
        PremiereDedans(t.routes, tunnel, a.destination, k);
      }
      if RouteDuPlan(t.routes, tunnel, a.destination).Some? {
        var k := PremiereExiste(t.routes, tunnel, a.destination);
      }
    }
  }

  lemma PremiereDedans(routes: seq<RouteLue>, tunnel: u64, d: IpNet, k: nat)
    ensures PremierePosee(routes, tunnel, d, k) ==> k < |routes|
  {
  }

  lemma LigneEst(plan: PlanWindows, f: Famille, t: TableIpHelper, tunnel: u64)
    ensures LigneDifferente(LigneDe(plan.lignes, f), t, tunnel, f) <==> Capturee(plan.lignes, f) && !LigneImposee(t, tunnel, f)
  {
    CaptureEst(plan.lignes, f);
    hide Capturee, LigneDe, LigneLueDe;
    forall k: nat ensures PremiereLigne(t.lignes, tunnel, f, k) ==> LigneLueDe(t.lignes, tunnel, f) == Some(t.lignes[k]) {
      LigneLueEst(t.lignes, tunnel, f, k);
    }
    if LigneLueDe(t.lignes, tunnel, f).Some? {
      var k := LigneExiste(t.lignes, tunnel, f);
    }
  }

  // ---------------------------------------------------------------------
  // Routes beyond the plan's.
  // ---------------------------------------------------------------------

  /** Of the tunnel: not the plan's, not the broadcast of one, of no admitted kind. */
  ghost predicate DeTrop(plan: PlanWindows, f: Famille, t: TableIpHelper, tunnel: u64, r: RouteLue) {
    && r in t.routes && r.interface == tunnel && r.destination.famille == f && !Admise(r, t.adresses)
    && !(r.prochainSaut == None
         && exists a :: a in plan.routes && a.destination.famille == f && (a.destination == r.destination || EstDiffusion(a.destination, r.destination)))
  }

  lemma EnTropEst(plan: PlanWindows, f: Famille, t: TableIpHelper, tunnel: u64)
    ensures TunnelEnTrop(RoutesDe(plan.routes, f), t, tunnel, f) <==> exists r :: DeTrop(plan, f, t, tunnel, r)
  {
    hide RoutesDe, Classer, Admise, EstDiffusion, DiffusionDirigee;
    forall r ensures r in t.routes && EnTrop(RoutesDe(plan.routes, f), t, tunnel, f, r) <==> DeTrop(plan, f, t, tunnel, r) {
      AdmiseEst(r, t.adresses);
      forall a: RouteWindows ensures DiffusionDirigee(a.destination) == Some(r.destination) <==> EstDiffusion(a.destination, r.destination) {
        DiffusionEst(a.destination, r.destination);
      }
    }
  }

  /** The plan's longest destination that holds every address of `d`. */
  ghost predicate PlusLongue(plan: PlanWindows, f: Famille, d: IpNet, a: RouteWindows) {
    && Enferme(plan, f, d, a) && forall b :: Enferme(plan, f, d, b) ==> b.destination.longueur <= a.destination.longueur
  }

  ghost predicate Enferme(plan: PlanWindows, f: Famille, d: IpNet, a: RouteWindows) {
    a in plan.routes && a.destination.famille == f == d.famille && forall x :: Couvre(d, x) ==> Couvre(a.destination, x)
  }

  /** Both metrics are read: the other's and the plan's, each with its interface's. */
  ghost predicate Sommes(t: TableIpHelper, tunnel: u64, f: Famille, r: RouteLue, d: IpNet, autre: nat, duTunnel: nat) {
    exists i: nat, j: nat, k: nat ::
      PremiereLigne(t.lignes, r.interface, f, i) && PremiereLigne(t.lignes, tunnel, f, j) && PremierePosee(t.routes, tunnel, d, k)
      && autre == r.metrique + t.lignes[i].metrique && duTunnel == t.routes[k].metrique + t.lignes[j].metrique
  }

  /** The other route is longer, or not longer and not known to cost as much. */
  ghost predicate Emporte(plan: PlanWindows, f: Famille, t: TableIpHelper, tunnel: u64, r: RouteLue) {
    exists a :: PlusLongue(plan, f, r.destination, a)
      && (|| r.destination.longueur > a.destination.longueur
          || forall x: nat, y: nat :: Sommes(t, tunnel, f, r, a.destination, x, y) ==> x < y)
  }

  /** Not longer, and known to cost the same. */
  ghost predicate Egale(plan: PlanWindows, f: Famille, t: TableIpHelper, tunnel: u64, r: RouteLue) {
    exists a, x: nat :: PlusLongue(plan, f, r.destination, a) && r.destination.longueur <= a.destination.longueur
      && Sommes(t, tunnel, f, r, a.destination, x, x)
  }

  lemma PlusLongueEst(plan: PlanWindows, f: Famille, d: IpNet, a: RouteWindows)
    requires ChoixWindows.PlanMasque(plan) && d.famille == f
    ensures PlusSpecifique(RoutesDe(plan.routes, f), d).None? ==> !PlusLongue(plan, f, d, a)
    ensures PlusSpecifique(RoutesDe(plan.routes, f), d).Some? && PlusLongue(plan, f, d, a) ==>
              PlusSpecifique(RoutesDe(plan.routes, f), d).value.destination == a.destination
    ensures PlusSpecifique(RoutesDe(plan.routes, f), d).Some? ==> PlusLongue(plan, f, d, PlusSpecifique(RoutesDe(plan.routes, f), d).value)
  {
    hide RoutesDe, Masquer, PlusSpecifique;
    var p := PlusSpecifique(RoutesDe(plan.routes, f), d);
    forall b: RouteWindows ensures b in RoutesDe(plan.routes, f) && Contient(b.destination, d) <==> Enferme(plan, f, d, b) {
      ContientEstInclusion(b.destination, d);
    }
    hide Contient;
    if p.Some? && PlusLongue(plan, f, d, a) {
      MemeReseau(a.destination, p.value.destination, d);
    }
  }

  /** Two masked prefixes of one length that hold the same are one. */
  lemma MemeReseau(a: IpNet, b: IpNet, d: IpNet)
    requires a.famille == b.famille == d.famille && a.longueur == b.longueur && Masquer(a) == a && Masquer(b) == b
    requires (forall x :: Couvre(d, x) ==> Couvre(a, x)) && forall x :: Couvre(d, x) ==> Couvre(b, x)
    ensures a == b
  {
    assert Couvre(d, d.bits);
    MasquesEgaux(a, b);
  }

  lemma SommesEst(t: TableIpHelper, tunnel: u64, f: Famille, r: RouteLue, d: IpNet, x: nat, y: nat)
    ensures Sommes(t, tunnel, f, r, d, x, y) <==>
              Effective(t.lignes, f, r) == Some(x)
              && RouteDuPlan(t.routes, tunnel, d).Some? && Effective(t.lignes, f, RouteDuPlan(t.routes, tunnel, d).value) == Some(y)
  {
    hide LigneLueDe, RouteDuPlan;
    if Sommes(t, tunnel, f, r, d, x, y) {
      var i: nat, j: nat, k: nat :| PremiereLigne(t.lignes, r.interface, f, i) && PremiereLigne(t.lignes, tunnel, f, j)
        && PremierePosee(t.routes, tunnel, d, k)
        && x == r.metrique + t.lignes[i].metrique && y == t.routes[k].metrique + t.lignes[j].metrique;
      LigneLueEst(t.lignes, r.interface, f, i);
      LigneLueEst(t.lignes, tunnel, f, j);
      RouteDuPlanEst(t.routes, tunnel, d, k);
      PremiereDedans(t.routes, tunnel, d, k);
    }
    var p := RouteDuPlan(t.routes, tunnel, d);
    if Effective(t.lignes, f, r) == Some(x) && p.Some? && Effective(t.lignes, f, p.value) == Some(y) {
      var i := LigneExiste(t.lignes, r.interface, f);
      var j := LigneExiste(t.lignes, tunnel, f);
      var k := PremiereExiste(t.routes, tunnel, d);
      LigneLueEst(t.lignes, r.interface, f, i);
      LigneLueEst(t.lignes, tunnel, f, j);
      RouteDuPlanEst(t.routes, tunnel, d, k);
      PremiereDedans(t.routes, tunnel, d, k);
      LigneDedans(t.lignes, r.interface, f, i);
      LigneDedans(t.lignes, tunnel, f, j);
    }
  }

  lemma LigneDedans(lignes: seq<LigneLue>, interface: u64, f: Famille, k: nat)
    ensures PremiereLigne(lignes, interface, f, k) ==> k < |lignes|
  {
  }

  lemma IssueEst(plan: PlanWindows, f: Famille, t: TableIpHelper, tunnel: u64, r: RouteLue)
    requires ChoixWindows.PlanMasque(plan) && r.destination.famille == f
    ensures IssueContre(RoutesDe(plan.routes, f), t, tunnel, f, r) == Gagne <==> Emporte(plan, f, t, tunnel, r)
    ensures IssueContre(RoutesDe(plan.routes, f), t, tunnel, f, r) == Indecise <==> Egale(plan, f, t, tunnel, r)
  {
    hide RoutesDe, PlusSpecifique, PlusLongue, Sommes, Effective, RouteDuPlan, ChoixWindows.PlanMasque;
    var p := PlusSpecifique(RoutesDe(plan.routes, f), r.destination);
    forall a ensures p.None? ==> !PlusLongue(plan, f, r.destination, a)
             ensures p.Some? && PlusLongue(plan, f, r.destination, a) ==> p.value.destination == a.destination
    {
      PlusLongueEst(plan, f, r.destination, a);
    }
    if p.Some? {
      PlusLongueEst(plan, f, r.destination, p.value);
      var d := p.value.destination;
      forall x: nat, y: nat
        ensures Sommes(t, tunnel, f, r, d, x, y) <==>
                  Effective(t.lignes, f, r) == Some(x)
                  && RouteDuPlan(t.routes, tunnel, d).Some? && Effective(t.lignes, f, RouteDuPlan(t.routes, tunnel, d).value) == Some(y)
      {
        SommesEst(t, tunnel, f, r, d, x, y);
      }
    }
  }

  /** Of another interface, of no admitted kind, with this outcome. */
  ghost predicate Ailleurs(f: Famille, t: TableIpHelper, tunnel: u64, r: RouteLue) {
    r in t.routes && r.interface != tunnel && r.destination.famille == f && !Admise(r, t.adresses)
  }

  lemma AilleursEst(plan: PlanWindows, f: Famille, t: TableIpHelper, tunnel: u64)
    requires ChoixWindows.PlanMasque(plan)
    ensures AutreAvecIssue(RoutesDe(plan.routes, f), t, tunnel, f, Gagne) <==> exists r :: Ailleurs(f, t, tunnel, r) && Emporte(plan, f, t, tunnel, r)
    ensures AutreAvecIssue(RoutesDe(plan.routes, f), t, tunnel, f, Indecise) <==> exists r :: Ailleurs(f, t, tunnel, r) && Egale(plan, f, t, tunnel, r)
  {
    hide RoutesDe, Classer, Admise, IssueContre, Emporte, Egale, ChoixWindows.PlanMasque;
    forall r | r in t.routes && r.destination.famille == f
      ensures Classer(r, t.adresses) != Autre <==> Admise(r, t.adresses)
      ensures IssueContre(RoutesDe(plan.routes, f), t, tunnel, f, r) == Gagne <==> Emporte(plan, f, t, tunnel, r)
      ensures IssueContre(RoutesDe(plan.routes, f), t, tunnel, f, r) == Indecise <==> Egale(plan, f, t, tunnel, r)
    {
      AdmiseEst(r, t.adresses);
      IssueEst(plan, f, t, tunnel, r);
    }
  }

  // ---------------------------------------------------------------------
  // The report.
  // ---------------------------------------------------------------------

  /** Each category of a family is reported exactly when its sentence holds. */
  lemma EcartsExacts(plan: PlanWindows, f: Famille, t: TableIpHelper, tunnel: u64)
    requires ChoixWindows.PlanMasque(plan)
    ensures var e := EcartsFamille(plan, f, t, tunnel);
            && (Ecart(f, PlanAbsente) in e <==> Absente(plan, f, t, tunnel))
            && (Ecart(f, MetriqueDeRoute) in e <==> AutreMetriqueDeRoute(plan, f, t, tunnel))
            && (Ecart(f, MetriqueDInterface) in e <==> Capturee(plan.lignes, f) && !LigneImposee(t, tunnel, f))
            && (Ecart(f, RouteEnTrop) in e <==> exists r :: DeTrop(plan, f, t, tunnel, r))
            && (Ecart(f, RouteConcurrente) in e <==> exists r :: Ailleurs(f, t, tunnel, r) && Emporte(plan, f, t, tunnel, r))
            && TriStable.StrictementTrie(e, Rang) && forall x :: x in e ==> x.Ecart? && x.famille == f
    ensures EgaliteIndecise(plan, f, t, tunnel) <==> exists r :: Ailleurs(f, t, tunnel, r) && Egale(plan, f, t, tunnel, r)
    ensures EcartsFamille(plan, f, t, tunnel) == [] <==>
      && !Absente(plan, f, t, tunnel) && !AutreMetriqueDeRoute(plan, f, t, tunnel) && (Capturee(plan.lignes, f) ==> LigneImposee(t, tunnel, f))
      && (forall r :: !DeTrop(plan, f, t, tunnel, r)) && forall r :: Ailleurs(f, t, tunnel, r) ==> !Emporte(plan, f, t, tunnel, r)
  {
    hide Absente, AutreMetriqueDeRoute, Capturee, LigneImposee, DeTrop, Ailleurs, Emporte, Egale, RoutesDe, LigneDe, RouteDuPlanAbsente,
         MetriqueDifferente, LigneDifferente, TunnelEnTrop, AutreAvecIssue, Retenir, Candidats, Rang, TriStable.StrictementTrie, ChoixWindows.PlanMasque;
    var a := RoutesDe(plan.routes, f);
    CandidatsDits(f, RouteDuPlanAbsente(a, t, tunnel), MetriqueDifferente(a, t, tunnel), LigneDifferente(LigneDe(plan.lignes, f), t, tunnel, f),
                  TunnelEnTrop(a, t, tunnel, f), AutreAvecIssue(a, t, tunnel, f, Gagne));
    AbsenteEst(plan, f, t, tunnel);
    MetriqueEst(plan, f, t, tunnel);
    LigneEst(plan, f, t, tunnel);
    EnTropEst(plan, f, t, tunnel);
    AilleursEst(plan, f, t, tunnel);
  }

  /** What a match says of one family. */
  ghost predicate Conforme(plan: PlanWindows, f: Famille, t: TableIpHelper, tunnel: u64) {
    && (forall a :: a in plan.routes && a.destination.famille == f ==>
          exists k: nat :: PremierePosee(t.routes, tunnel, a.destination, k) && t.routes[k].metrique == a.metrique)
    && (Capturee(plan.lignes, f) ==> LigneImposee(t, tunnel, f))
    && (forall r :: !DeTrop(plan, f, t, tunnel, r))
    && forall r :: Ailleurs(f, t, tunnel, r) ==> !Emporte(plan, f, t, tunnel, r) && !Egale(plan, f, t, tunnel, r)
  }

  lemma RoutesPosees(plan: PlanWindows, f: Famille, t: TableIpHelper, tunnel: u64)
    ensures !Absente(plan, f, t, tunnel) && !AutreMetriqueDeRoute(plan, f, t, tunnel) <==>
              forall a :: a in plan.routes && a.destination.famille == f ==>
                exists k: nat :: PremierePosee(t.routes, tunnel, a.destination, k) && t.routes[k].metrique == a.metrique
  {
    hide PremierePosee, Posee;
    forall a: RouteWindows | a in plan.routes && a.destination.famille == f
      ensures (exists r :: r in t.routes && Posee(r, tunnel, a.destination)) <==> exists k: nat :: PremierePosee(t.routes, tunnel, a.destination, k)
      ensures forall j: nat, k: nat :: PremierePosee(t.routes, tunnel, a.destination, k) && PremierePosee(t.routes, tunnel, a.destination, j) ==> j == k < |t.routes|
    {
      PremiereOuAucune(t.routes, tunnel, a.destination);
    }
  }

  lemma PremiereOuAucune(routes: seq<RouteLue>, tunnel: u64, d: IpNet)
    ensures (exists r :: r in routes && Posee(r, tunnel, d)) <==> exists k: nat :: PremierePosee(routes, tunnel, d, k)
    ensures forall j: nat, k: nat :: PremierePosee(routes, tunnel, d, k) && PremierePosee(routes, tunnel, d, j) ==> j == k < |routes|
  {
    RouteDuPlanEst(routes, tunnel, d, 0);
    if RouteDuPlan(routes, tunnel, d).Some? {
      var k := PremiereExiste(routes, tunnel, d);
    }
  }

  lemma DeuxFamilles(a: seq<Ecart>, b: seq<Ecart>)
    requires TriStable.StrictementTrie(a, Rang) && TriStable.StrictementTrie(b, Rang)
    requires (forall x :: x in a ==> x.Ecart? && x.famille == Ipv4) && forall x :: x in b ==> x.Ecart? && x.famille == Ipv6
    ensures TriStable.StrictementTrie(a + b, Rang) && (a + b == [] <==> a == [] && b == [])
  {
    assert |a + b| == |a| + |b|;
  }

  lemma FamilleExacte(plan: PlanWindows, f: Famille, t: TableIpHelper, tunnel: u64)
    requires ChoixWindows.PlanMasque(plan)
    ensures EcartsFamille(plan, f, t, tunnel) == [] && !EgaliteIndecise(plan, f, t, tunnel) <==> Conforme(plan, f, t, tunnel)
  {
    hide Absente, AutreMetriqueDeRoute, Capturee, LigneImposee, DeTrop, Ailleurs, Emporte, Egale, PremierePosee, EcartsFamille, EgaliteIndecise,
         ChoixWindows.PlanMasque, TriStable.StrictementTrie;
    EcartsExacts(plan, f, t, tunnel);
    RoutesPosees(plan, f, t, tunnel);
  }

  /** The verdict: MATCH exactly when the tunnel is there and both families conform;
      a tunnel that is not there is the only difference; differences come in order. */
  lemma VerdictExact(plan: PlanWindows, t: TableIpHelper)
    requires ChoixWindows.PlanMasque(plan)
    ensures EcartsDuPlan(plan, t) == [] && !VerdictIndecis(plan, t) <==> t.tunnel.Some? && forall f: Famille :: Conforme(plan, f, t, t.tunnel.value)
    ensures t.tunnel.None? ==> EcartsDuPlan(plan, t) == [InterfaceAbsente]
    ensures TriStable.StrictementTrie(EcartsDuPlan(plan, t), Rang)
  {
    hide Conforme, EcartsFamille, EgaliteIndecise, ChoixWindows.PlanMasque;
    if t.tunnel.Some? {
      var tunnel := t.tunnel.value;
      FamilleExacte(plan, Ipv4, t, tunnel);
      FamilleExacte(plan, Ipv6, t, tunnel);
      OrdreDeFamille(plan, Ipv4, t, tunnel);
      OrdreDeFamille(plan, Ipv6, t, tunnel);
      DeuxFamilles(EcartsFamille(plan, Ipv4, t, tunnel), EcartsFamille(plan, Ipv6, t, tunnel));
      if Conforme(plan, Ipv4, t, tunnel) && Conforme(plan, Ipv6, t, tunnel) {
        forall f: Famille ensures Conforme(plan, f, t, tunnel) {
          match f { case Ipv4 => case Ipv6 => }
        }
      }
    }
  }

  lemma OrdreDeFamille(plan: PlanWindows, f: Famille, t: TableIpHelper, tunnel: u64)
    requires ChoixWindows.PlanMasque(plan)
    ensures TriStable.StrictementTrie(EcartsFamille(plan, f, t, tunnel), Rang)
    ensures forall x :: x in EcartsFamille(plan, f, t, tunnel) ==> x.Ecart? && x.famille == f
  {
    hide Absente, AutreMetriqueDeRoute, Capturee, LigneImposee, DeTrop, Ailleurs, Emporte, Egale, EcartsFamille, ChoixWindows.PlanMasque;
    EcartsExacts(plan, f, t, tunnel);
  }

  // ---------------------------------------------------------------------
  // The product's plans.
  // ---------------------------------------------------------------------

  /** The network of a prefix: its leading bits, then zeros. */
  function Reseau(n: IpNet): IpNet { IpNetBrut(n.famille, n.bits[..n.longueur] + seq(|n.bits| - n.longueur, _ => false), n.longueur) }

  lemma {:induction false} RoutesMasqueesSont(autorises: seq<IpNet>, a: RouteWindows)
    ensures a in RoutesMasquees(autorises) <==> a.metrique == 0 && exists n :: n in autorises && a.destination == Reseau(n)
  {
    if autorises != [] {
      var k := |autorises| - 1;
      RoutesMasqueesSont(autorises[..k], a);
      assert autorises == autorises[..k] + [autorises[k]];
      assert Masquer(autorises[k]).bits == Reseau(autorises[k]).bits;
      hide Reseau, Masquer;
    }
  }

  lemma LigneDAssemblage(plan: PlanWindows, chemin: Chemin, interface: string, familles: seq<Famille>, routes: seq<RouteWindows>, mtu: u32, f: Famille)
    requires plan == Assembler(chemin, interface, familles, routes, mtu)
    ensures plan.interface == interface && plan.routes == routes && forall l :: l in plan.lignes ==> l.mtu == mtu && l.sondesDad == 0
    ensures Capturee(plan.lignes, f) <==> f in familles && exists r :: r in routes && r.destination.longueur == 0 && r.destination.famille == f
  {
    CaptureEst(plan.lignes, f);
    var l := plan.lignes;
    assert |l| == 2 ==> LigneDe(l[1..], Ipv6) == Some(l[1]);
  }

  /** The WireGuard path routes exactly the networks of the allowed prefixes, metric
      zero, and captures the served families that have a default route. */
  lemma PlanWireGuardEst(interface: string, familles: seq<Famille>, autorises: seq<IpNet>, mtu: u32, f: Famille, a: RouteWindows)
    ensures var p := PlanWireGuard(interface, familles, autorises, mtu);
            && (a in p.routes <==> a.metrique == 0 && exists n :: n in autorises && a.destination == Reseau(n))
            && (Capturee(p.lignes, f) <==> f in familles && exists n :: n in autorises && n.longueur == 0 && n.famille == f)
            && p.interface == interface && ChoixWindows.PlanMasque(p)
  {
    var p := PlanWireGuard(interface, familles, autorises, mtu);
    ChoixWindows.PlansMasques(interface, familles, autorises, mtu);
    LigneDAssemblage(p, WireGuard, interface, familles, RoutesMasquees(autorises), mtu, f);
    hide RoutesMasquees, Capturee, Masquer;
    forall b: RouteWindows ensures b in p.routes <==> b.metrique == 0 && exists n :: n in autorises && b.destination == Reseau(n) {
      RoutesMasqueesSont(autorises, b);
    }
    forall n | n in autorises && n.longueur == 0 && n.famille == f ensures RouteWindows(Reseau(n), 0) in p.routes {
    }
  }

  /** The core path routes the default of each served family, metric zero, and
      captures it. */
  lemma PlanCoeurEst(interface: string, familles: seq<Famille>, mtu: u32, f: Famille, a: RouteWindows)
    ensures var p := PlanCoeur(interface, familles, mtu);
            && (a in p.routes <==> a.destination.famille in familles && a.metrique == 0 && a.destination.longueur == 0
                                   && forall i :: 0 <= i < |a.destination.bits| ==> !a.destination.bits[i])
            && (Capturee(p.lignes, f) <==> f in familles)
            && p.interface == interface && ChoixWindows.PlanMasque(p)
  {
    var p := PlanCoeur(interface, familles, mtu);
    ChoixWindows.PlansMasques(interface, familles, [], mtu);
    LigneDAssemblage(p, Coeur, interface, familles, p.routes, mtu, f);
    hide Capturee, Masquer, ChoixWindows.PlanMasque;
    assert f in familles ==> RouteWindows(ParDefaut(f), 0) in p.routes;
    assert a.destination.longueur == 0 && (forall i :: 0 <= i < |a.destination.bits| ==> !a.destination.bits[i]) ==>
           a.destination.bits == ParDefaut(a.destination.famille).bits;
  }
}
