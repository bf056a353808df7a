/**
 The other way round: a kernel as it stands once the product's plan is posed
 matches, and one unadmitted route more in `main` is reported, and is a way out
 exactly as far as its prefix is not covered
 (crates/bifrost-cli/src/preuve_routes.rs:547-682). The kernel is described by what it
 holds, not by what the comparison asks: its stock rules, the routes it installs for
 the addresses of its interfaces, any default route of `main`, and the plan's rules
 and routes
 (crates/bifrost-cli/src/preuve_routes/recettes.rs:111-203).
 */
module PoseLinux {
  import opened Commun
  import opened Octets
  import opened PlanLinux
  import opened RoutesLinux
  import MarcheLinux
  import FuitesLinux

  const TABLE_PAR_DEFAUT: u32 := 253

  /** A rule of the plan, as the kernel returns it. */
  predicate Rendue(a: Regle, r: RegleLue, exiger: bool) {
    r == RegleLue(r.pref, VersTable, a.consultation.TableConsultee(), a.selecteur.HorsMarque?, 0, SelecteursDe(a.selecteur),
                  a.consultation.Suppression(), None, None, r.protocole)
    && (a.priorite.Some? ==> r.pref == a.priorite.value) && (exiger ==> r.protocole == PROTOCOLE_PRODUIT)
  }

  /** The plan's rules consult different tables, or one with different suppressions. */
  ghost predicate Distinctes(ordre: seq<Regle>) {
    forall i, j :: 0 <= i < j < |ordre| ==>
      || ordre[i].consultation.TableConsultee() != ordre[j].consultation.TableConsultee()
      || ordre[i].consultation.Suppression() != ordre[j].consultation.Suppression()
  }

  /** A rule of someone else that takes nothing from the tunnel: it jumps nowhere,
      leads to no table but the local one or the tunnel's, and the local table it
      exposes holds admitted classes only. */
  ghost predicate Inoffensive(f: Famille, ordre: seq<Regle>, t: u32, vue: Vue, tunnel: Option<u32>, exiger: bool, r: RegleLue) {
    && DuProduit(ordre, r, exiger).None? && !EstTiers(ordre, r, t, exiger)
    && (Consultee(ordre, r, exiger).Some? ==> !AutreExposee(f, vue, tunnel, Consultee(ordre, r, exiger).value))
  }

  /** The plan is in place: harmless rules, then the plan's in its order, then any
      rules that are not the plan's; the tunnel's table is the plan's; without its
      default routes, `main` holds admitted classes only. */
  ghost predicate EnPlace(f: Famille, ordre: seq<Regle>, t: u32, routes: nat, obs: Observation, exiger: bool,
                          avant: seq<RegleLue>, siennes: seq<RegleLue>, apres: seq<RegleLue>) {
    var vue := obs.VueDe(f);
    && vue.regles == avant + siennes + apres
    && (forall i :: 0 <= i < |avant| ==> Inoffensive(f, ordre, t, vue, obs.tunnel, exiger, avant[i]))
    && |siennes| == |ordre| && (forall j :: 0 <= j < |ordre| ==> Rendue(ordre[j], siennes[j], exiger))
    && (forall i :: 0 <= i < |apres| ==> DuProduit(ordre, apres[i], exiger).None?)
    && TableConforme(vue.routes, t, routes, obs.tunnel, exiger)
    && !AutreExposee(f, vue, obs.tunnel, (TABLE_MAIN, Some(0)))
  }

  lemma ReglesEnPlace(f: Famille, ordre: seq<Regle>, t: u32, routes: nat, obs: Observation, exiger: bool,
                      avant: seq<RegleLue>, siennes: seq<RegleLue>, apres: seq<RegleLue>, i: nat)
    requires Distinctes(ordre) && EnPlace(f, ordre, t, routes, obs, exiger, avant, siennes, apres)
    requires i < |obs.VueDe(f).regles|
    ensures var du := DuProduit(ordre, obs.VueDe(f).regles[i], exiger);
            if |avant| <= i < |avant| + |ordre| then du == Some(i - |avant|) else du == None
    ensures i < |avant| ==> Inoffensive(f, ordre, t, obs.VueDe(f), obs.tunnel, exiger, obs.VueDe(f).regles[i])
  {
  }

  lemma ReglesConformesEnPlace(f: Famille, ordre: seq<Regle>, t: u32, routes: nat, obs: Observation, exiger: bool,
                               avant: seq<RegleLue>, siennes: seq<RegleLue>, apres: seq<RegleLue>)
    requires Distinctes(ordre) && EnPlace(f, ordre, t, routes, obs, exiger, avant, siennes, apres)
    ensures ReglesConformes(ordre, obs.VueDe(f).regles, exiger)
  {
    var regles := obs.VueDe(f).regles;
    var positions: seq<nat> := seq(|ordre|, j requires 0 <= j => |avant| + j);
    forall i, j | 0 <= i < |regles| && 0 <= j < |positions| ensures DuProduit(ordre, regles[i], exiger) == Some(j) <==> i == positions[j] {
      ReglesEnPlace(f, ordre, t, routes, obs, exiger, avant, siennes, apres, i);
    }
    assert ALeurPlace(ordre, regles, exiger, positions);
  }

  /** What stands before the anchor takes nothing from the tunnel. */
  lemma RienAvant(f: Famille, ordre: seq<Regle>, t: u32, routes: nat, obs: Observation, exiger: bool,
                  avant: seq<RegleLue>, siennes: seq<RegleLue>, apres: seq<RegleLue>, ancre: nat, i: nat)
    requires Distinctes(ordre) && EnPlace(f, ordre, t, routes, obs, exiger, avant, siennes, apres)
    requires EstAncre(ordre, obs.VueDe(f).regles, t, exiger, ancre) && i < ancre
    ensures !EstTiers(ordre, obs.VueDe(f).regles[i], t, exiger)
    ensures var c := Consultee(ordre, obs.VueDe(f).regles[i], exiger); c.Some? ==> !AutreExposee(f, obs.VueDe(f), obs.tunnel, c.value)
  {
  }

  /** A family where the plan is in place has no difference. */
  lemma FamilleEnPlace(f: Famille, ordre: seq<Regle>, t: u32, routes: nat, obs: Observation, exiger: bool,
                       avant: seq<RegleLue>, siennes: seq<RegleLue>, apres: seq<RegleLue>)
    requires Distinctes(ordre) && EnPlace(f, ordre, t, routes, obs, exiger, avant, siennes, apres)
    ensures EcartsAttendus(f, ordre, t, routes, obs, exiger) == []
  {
    ReglesConformesEnPlace(f, ordre, t, routes, obs, exiger, avant, siennes, apres);
    hide ReglesConformes, EstTiers, Consultee, AutreExposee, EstAncre, Distinctes;
    forall ancre: nat | EstAncre(ordre, obs.VueDe(f).regles, t, exiger, ancre) && ancre <= |obs.VueDe(f).regles|
      ensures !TiersAvant(ordre, obs.VueDe(f).regles, t, exiger, ancre)
      ensures !AutreAvant(f, ordre, obs.VueDe(f), obs.tunnel, exiger, ancre)
    {
      forall i: nat | i < ancre
        ensures !EstTiers(ordre, obs.VueDe(f).regles[i], t, exiger)
        ensures var c := Consultee(ordre, obs.VueDe(f).regles[i], exiger); c.Some? ==> !AutreExposee(f, obs.VueDe(f), obs.tunnel, c.value)
      {
        RienAvant(f, ordre, t, routes, obs, exiger, avant, siennes, apres, ancre, i);
      }
    }
  }

  /** The product's own plans have distinguishable rules. */
  lemma PlanDistinct(p: Plan, f: Famille)
    requires PlanDuProduit(p)
    ensures OrdreDEvaluation(p, f).Some? && Distinctes(OrdreDEvaluation(p, f).value)
  {
    if m, t :| p == PlanWireGuard(p.interface, m, t) {
      OrdreWireGuard(p.interface, m, t, f);
    } else {
      var c :| p == PlanCoeur(p.interface, c);
      OrdreCoeur(p.interface, c, f);
    }
  }

  // ---------------------------------------------------------------------
  // The kernel, described.
  // ---------------------------------------------------------------------

  const MULTIDIFFUSION_V6: Adresse := [0xff, 0, 0, 0, 0, 0, 0, 0, 0, 0, 0, 0, 0, 0, 0, 0]

  /** One next hop, on this interface, without a gateway. */
  predicate Nue(x: Route, index: u32) { x.oif == Some(index) && x.srcLen == 0 && x.iif.None? && Simple(x) && Directe(x) }

  /** A route the kernel installs for an address: the address itself, and the whole
      network on the loopback; the connected network in `main`; both ends of an IPv4
      network as broadcast; the first address of an IPv6 one as anycast; IPv6
      multicast on the link. */
  predicate RouteDAdresse(f: Famille, x: Route, a: AdresseLue) {
    var reseau := Masquer(a.adresse, a.prefixe);
    && Nue(x, a.index)
    && (|| (x.table == TABLE_LOCAL && x.genre == 2 && (x.dst, x.dstLen) in {(a.adresse, 8 * LargeurDe(f)), (reseau, a.prefixe)})
        || (x.table == TABLE_MAIN && x.genre == 1 && x.dst == reseau && x.dstLen == a.prefixe)
        || (x.table == TABLE_LOCAL && f == Ipv4 && x.genre == 3 && x.dstLen == 32 && x.dst in {reseau, Derniere(a.adresse, a.prefixe)})
        || (x.table == TABLE_LOCAL && f == Ipv6 && x.genre == 4 && x.dstLen == 128 && x.dst == reseau)
        || (x.table == TABLE_LOCAL && f == Ipv6 && x.genre == 5 && x.dstLen == 8 && x.dst == MULTIDIFFUSION_V6))
  }

  /** A route that is not the plan's: in another table; `local` and `main` hold the
      addresses' routes, and `main` any default route. */
  ghost predicate RouteDuSysteme(f: Famille, x: Route, t: u32, adresses: seq<AdresseLue>) {
    && x.table != t
    && (x.table == TABLE_LOCAL || (x.table == TABLE_MAIN && x.dstLen > 0) ==>
          exists a :: a in adresses && |a.adresse| == LargeurDe(f) && RouteDAdresse(f, x, a))
  }

  /** The plan's route, as the kernel returns it. */
  predicate RouteRendue(d: RouteParDefaut, x: Route, tunnel: u32, exiger: bool) {
    && x == Route(d.table, 1, x.dst, 0, x.src, 0, 0, x.protocole, x.portee, 0, Some(tunnel), None, None, None, None, None, None,
                  x.metrique, x.sourcePreferee, x.metriques, x.flux, x.preference, false)
    && (exiger ==> x.protocole == PROTOCOLE_PRODUIT)
  }

  /** A rule that leads nowhere but to `local`: the kernel's first, or one that
      rejects or does nothing. */
  predicate RegleDAvant(r: RegleLue) {
    (r.action == VersTable && r.table == TABLE_LOCAL) || r.action in {Neutre, TrouNoir, Injoignable, Interdit}
  }

  /** A rule the kernel has of its own: every packet to this table. */
  predicate RegleDuNoyau(r: RegleLue, table: u32) {
    r == RegleLue(r.pref, VersTable, table, false, 0, SelecteursDe(Tout), None, None, None, r.protocole)
  }

  /** The kernel's last rules. */
  predicate RegleDApres(r: RegleLue) { RegleDuNoyau(r, TABLE_MAIN) || RegleDuNoyau(r, TABLE_PAR_DEFAUT) }

  /** The rules and the routes of one family, in the order of the dump. */
  datatype Pose = Pose(avant: seq<RegleLue>, siennes: seq<RegleLue>, apres: seq<RegleLue>,
                       routesAvant: seq<Route>, route: Route, routesApres: seq<Route>)

  /** The plan's rules are in place, in its order, between the kernel's. */
  ghost predicate ReglesPosees(f: Famille, p: Plan, obs: Observation, exiger: bool, q: Pose) {
    var ordre := OrdreDEvaluation(p, f);
    && obs.VueDe(f).regles == q.avant + q.siennes + q.apres
    && (forall r :: r in q.avant ==> RegleDAvant(r)) && (forall r :: r in q.apres ==> RegleDApres(r))
    && ordre.Some? && |q.siennes| == |ordre.value| && (forall j :: 0 <= j < |ordre.value| ==> Rendue(ordre.value[j], q.siennes[j], exiger))
  }

  /** The plan is posed on this kernel. */
  ghost predicate Posee(f: Famille, p: Plan, obs: Observation, exiger: bool, q: Pose) {
    var vue, t := obs.VueDe(f), TableDuTunnel(p);
    && ReglesPosees(f, p, obs, exiger, q) && vue.routes == q.routesAvant + [q.route] + q.routesApres
    && (forall x :: x in q.routesAvant + q.routesApres ==> RouteDuSysteme(f, x, t, vue.adresses))
    && obs.tunnel.Some? && RouteRendue(RouteParDefaut(f, t, p.interface), q.route, obs.tunnel.value, exiger)
  }

  /** Every route the kernel installs for an address is admitted. */
  lemma AdmiseDAdresse(f: Famille, x: Route, a: AdresseLue, tunnel: Option<u32>, adresses: seq<AdresseLue>)
    requires a in adresses && |a.adresse| == LargeurDe(f) && RouteDAdresse(f, x, a) && (x.table == TABLE_MAIN ==> x.dstLen > 0)
    ensures Classer(f, x, tunnel, adresses) != Autre
  {
    ExtremesDuReseau(a.adresse, a.prefixe);
    hide Masquer, Derniere;
  }

  lemma RienDIllegitime(f: Famille, p: Plan, obs: Observation, exiger: bool, q: Pose, c: (u32, Option<u32>))
    requires Posee(f, p, obs, exiger, q) && TableDuTunnel(p) !in TABLES_RESERVEES
    requires c.0 == TABLE_LOCAL || c == (TABLE_MAIN, Some(0))
    ensures !AutreExposee(f, obs.VueDe(f), obs.tunnel, c)
  {
    hide RouteDAdresse, Rendue, RegleDAvant, RegleDApres, Classer;
    var vue := obs.VueDe(f);
    forall x | x in vue.routes && Passe(x, c.0, c.1) ensures Classer(f, x, obs.tunnel, vue.adresses) != Autre {
      assert x != q.route;
      assert RouteDuSysteme(f, x, TableDuTunnel(p), vue.adresses);
      var a :| a in vue.adresses && |a.adresse| == LargeurDe(f) && RouteDAdresse(f, x, a);
      AdmiseDAdresse(f, x, a, obs.tunnel, vue.adresses);
    }
  }

  /** A rule of before or of after is none of the plan's, and one of before leads
      away from nothing. */
  lemma ReglesDesAutres(ordre: seq<Regle>, t: u32, r: RegleLue, exiger: bool)
    requires OrdreBienForme(ordre, t) && t !in TABLES_RESERVEES && (RegleDAvant(r) || RegleDApres(r))
    ensures DuProduit(ordre, r, exiger).None?
    ensures RegleDAvant(r) ==> !EstTiers(ordre, r, t, exiger)
    ensures RegleDAvant(r) && Consultee(ordre, r, exiger).Some? ==> Consultee(ordre, r, exiger).value.0 == TABLE_LOCAL
  {
    forall j | 0 <= j < |ordre| ensures !Correspond(ordre[j], r, exiger) {
    }
  }

  lemma {:induction false} TableConcat(a: seq<Route>, b: seq<Route>, t: u32)
    ensures DansLaTable(a + b, t) == DansLaTable(a, t) + DansLaTable(b, t)
  {
    if a == [] {
      assert a + b == b;
    } else {
      assert (a + b)[1..] == a[1..] + b;
      TableConcat(a[1..], b, t);
    }
  }

  lemma {:induction false} TableVide(a: seq<Route>, t: u32)
    requires forall x :: x in a ==> x.table != t
    ensures DansLaTable(a, t) == []
  {
    if a != [] {
      TableVide(a[1..], t);
    }
  }

  lemma TablePosee(f: Famille, p: Plan, obs: Observation, exiger: bool, q: Pose)
    requires Posee(f, p, obs, exiger, q)
    ensures TableConforme(obs.VueDe(f).routes, TableDuTunnel(p), 1, obs.tunnel, exiger)
  {
    var t := TableDuTunnel(p);
    hide Rendue, RegleDAvant, RegleDApres, RouteDAdresse, OrdreDEvaluation;
    forall x | x in q.routesAvant + q.routesApres ensures x.table != t {
      assert RouteDuSysteme(f, x, t, obs.VueDe(f).adresses);
    }
    TableVide(q.routesAvant, t);
    TableVide(q.routesApres, t);
    TableConcat(q.routesAvant + [q.route], q.routesApres, t);
    TableConcat(q.routesAvant, [q.route], t);
    assert [q.route][1..] == [];
  }

  /** A described kernel has the plan in place. */
  lemma PoseeEnPlace(f: Famille, p: Plan, obs: Observation, exiger: bool, q: Pose)
    requires PlanDuProduit(p) && TableDuTunnel(p) !in TABLES_RESERVEES && Posee(f, p, obs, exiger, q)
    ensures EnPlace(f, OrdreDEvaluation(p, f).value, TableDuTunnel(p), 1, obs, exiger, q.avant, q.siennes, q.apres)
  {
    var ordre, t := OrdreDEvaluation(p, f).value, TableDuTunnel(p);
    PlanDuProduitBienForme(p, f);
    TablePosee(f, p, obs, exiger, q);
    RienDIllegitime(f, p, obs, exiger, q, (TABLE_MAIN, Some(0)));
    hide OrdreDEvaluation, OrdreBienForme, PlanDuProduit, DuProduit, EstTiers, Consultee, AutreExposee, TableConforme, Rendue,
         RouteDuSysteme, RouteRendue, RegleDAvant, RegleDApres;
    forall i | 0 <= i < |q.avant| ensures Inoffensive(f, ordre, t, obs.VueDe(f), obs.tunnel, exiger, q.avant[i]) {
      ReglesDesAutres(ordre, t, q.avant[i], exiger);
      var c := Consultee(ordre, q.avant[i], exiger);
      if c.Some? {
        RienDIllegitime(f, p, obs, exiger, q, c.value);
      }
    }
    forall i | 0 <= i < |q.apres| ensures DuProduit(ordre, q.apres[i], exiger).None? {
      ReglesDesAutres(ordre, t, q.apres[i], exiger);
    }
  }

  /** A plan of the product posed in both families on the kernel described: the
      proof matches. */
  lemma PlanPose(p: Plan, obs: Observation, exiger: bool, pose: Famille -> Pose)
    requires PlanDuProduit(p) && TableDuTunnel(p) !in TABLES_RESERVEES
    requires forall f: Famille :: Posee(f, p, obs, exiger, pose(f))
    ensures Comparable(p, Ipv4) && Comparable(p, Ipv6) && EcartsDuPlan(p, obs, exiger) == []
  {
    forall f: Famille ensures Comparable(p, f) && EcartsFamille(p, f, obs, exiger) == [] {
      PlanDuProduitBienForme(p, f);
      PlanDistinct(p, f);
      assert Posee(f, p, obs, exiger, pose(f));
      PoseeEnPlace(f, p, obs, exiger, pose(f));
      FamilleEnPlace(f, OrdreDEvaluation(p, f).value, TableDuTunnel(p), 1, obs, exiger, pose(f).avant, pose(f).siennes, pose(f).apres);
    }
  }

  /** Both ways at once: on such a kernel every packet the plan sends to the tunnel
      is refused or leaves by an emission the product accepts. */
  lemma PoseSure(p: Plan, obs: Observation, exiger: bool, pose: Famille -> Pose, f: Famille, paquet: MarcheLinux.Paquet, k: MarcheLinux.Noyau)
    requires PlanDuProduit(p) && TableDuTunnel(p) !in TABLES_RESERVEES
    requires forall g: Famille :: Posee(g, p, obs, exiger, pose(g))
    requires MarcheLinux.PaquetDe(f, paquet) && MarcheLinux.NoyauPossible(obs.VueDe(f), paquet, k)
    requires match p.chemin case WireGuard(m, _) => paquet.marque != m case Coeur(c) => c != Some(paquet.compte)
    ensures MarcheLinux.IssueSure(f, MarcheLinux.Marche(obs.VueDe(f).regles, paquet, k, 0).0, paquet, obs)
  {
    hide Posee, MarcheLinux.Marche, MarcheLinux.NoyauPossible, MarcheLinux.IssueSure, EcartsDuPlan, Comparable, PlanDuProduit, OrdreDEvaluation;
    PlanPose(p, obs, exiger, pose);
    PlanDuProduitBienForme(p, f);
    MarcheLinux.PaquetsDuTunnel(p, f, paquet);
    MarcheLinux.CorrespondanceSure(p, obs, exiger, f, paquet, k);
  }

  // ---------------------------------------------------------------------
  // One route too many: what leaves is what is reported.
  // ---------------------------------------------------------------------

  lemma SienneReconnue(ordre: seq<Regle>, siennes: seq<RegleLue>, exiger: bool, j: nat)
    requires Distinctes(ordre) && |siennes| == |ordre| && (forall n :: 0 <= n < |ordre| ==> Rendue(ordre[n], siennes[n], exiger)) && j < |ordre|
    ensures DuProduit(ordre, siennes[j], exiger) == Some(j)
  {
  }

  /** The plan's rules that spare the LAN and that lead to the tunnel: every rule
      before them is the core account's. */
  lemma RangsDuPlan(p: Plan, f: Famille) returns (j: nat, n: nat)
    requires PlanDuProduit(p)
    ensures OrdreDEvaluation(p, f).Some?
    ensures var ordre := OrdreDEvaluation(p, f).value;
            && j < n == |ordre| - 1 && ordre[j].consultation == MainSansDefaut && ordre[j].selecteur == Tout
            && PremiereVers(ordre, TableDuTunnel(p), n)
            && (forall i :: 0 <= i < j ==> p.chemin.Coeur? && p.chemin.compte.Some? && ordre[i].selecteur == Compte(p.chemin.compte.value))
  {
    hide OrdreDEvaluation, EtapesCoeur, EtapesWireGuard;
    if m, t :| p == PlanWireGuard(p.interface, m, t) {
      OrdreWireGuard(p.interface, m, t, f);
      j, n := 0, 1;
    } else {
      var c :| p == PlanCoeur(p.interface, c);
      OrdreCoeur(p.interface, c, f);
      j := if c.Some? then 1 else 0;
      n := j + 1;
    }
  }

  /** The plan's rules are in place behind a local rule that rejects nothing, `main`
      holds an illegitimate route, and this packet for the tunnel, which the local
      table does not take, finds no better one there. */
  ghost predicate Intruse(p: Plan, f: Famille, obs: Observation, exiger: bool, q: Pose, r: Route, paquet: MarcheLinux.Paquet) {
    && Ajoutee(p, f, obs, exiger, q, r, paquet.marque, paquet.compte)
    && (forall a :: a in q.avant ==> a.action in {VersTable, Neutre})
    && MarcheLinux.PaquetDe(f, paquet)
    && (forall x :: !MarcheLinux.Meilleure(obs.VueDe(f), TABLE_LOCAL, paquet, x))
    && MarcheLinux.Meilleure(obs.VueDe(f), TABLE_MAIN, paquet, r)
  }

  /** The plan's rules in place, an illegitimate route in `main`, a mark and an account
      the plan sends to the tunnel. */
  ghost predicate Ajoutee(p: Plan, f: Famille, obs: Observation, exiger: bool, q: Pose, r: Route, marque: bv32, compte: u32) {
    && PlanDuProduit(p) && TableDuTunnel(p) !in TABLES_RESERVEES && ReglesPosees(f, p, obs, exiger, q)
    && (match p.chemin case WireGuard(m, _) => marque != m case Coeur(c) => c != Some(compte))
    && r in obs.VueDe(f).routes && r.table == TABLE_MAIN && r.dstLen > 0
    && Classer(f, r, obs.tunnel, obs.VueDe(f).adresses) == Autre
  }

  /** Then a kernel that looks up the longest prefix emits the packet by that route, and
      the comparison says so. */
  lemma IntruseSort(p: Plan, f: Famille, obs: Observation, exiger: bool, q: Pose, r: Route, paquet: MarcheLinux.Paquet)
    returns (k: MarcheLinux.Noyau, i: nat)
    requires Intruse(p, f, obs, exiger, q, r, paquet)
    ensures MarcheLinux.NoyauPrecis(obs.VueDe(f), paquet, k)
    ensures MarcheLinux.Marche(obs.VueDe(f).regles, paquet, k, 0) == (MarcheLinux.Sortie(r), i)
    ensures Comparable(p, f) && Ecart(f, RoutesAvantTunnel) in EcartsFamille(p, f, obs, exiger)
  {
    hide Intruse, OrdreDEvaluation, Classer, MarcheLinux.Meilleure, MarcheLinux.Couvre, MarcheLinux.SansEffet, MarcheLinux.Decide,
         MarcheLinux.Exposee, MarcheLinux.Marche, MarcheLinux.NoyauPrecis,
         MarcheLinux.PaquetDe, EstAncre, AutreDevant, TiersDevant, ReglesConformes, TableConforme, Comparable;
    var ordre, ancre;
    ordre, i, ancre := IntruseEnVue(p, f, obs, exiger, q, r, paquet);
    k := MarcheLinux.AutreVraimentChoisie(f, ordre, obs, exiger, i, r, paquet);
    AutreRapportee(f, ordre, TableDuTunnel(p), obs, exiger, i, ancre, r);
  }

  /** What such a route meets: its rule exposes it, and the tunnel's rule comes after. */
  lemma EnVue(p: Plan, f: Famille, obs: Observation, exiger: bool, q: Pose, r: Route, marque: bv32, compte: u32)
    returns (ordre: seq<Regle>, j: nat, ancre: nat)
    requires Ajoutee(p, f, obs, exiger, q, r, marque, compte)
    ensures Comparable(p, f) && OrdreDEvaluation(p, f) == Some(ordre) && j < |ordre|
    ensures |q.avant| + j < |obs.VueDe(f).regles| && MarcheLinux.Exposee(f, ordre, obs, exiger, |q.avant| + j, r)
    ensures MarcheLinux.Decide(obs.VueDe(f).regles[|q.avant| + j], marque, compte, true)
    ensures forall i :: 0 <= i < j ==> ordre[i].selecteur.Compte? && ordre[i].selecteur.uid != compte
    ensures EstAncre(ordre, obs.VueDe(f).regles, TableDuTunnel(p), exiger, ancre) && |q.avant| + j < ancre
  {
    hide OrdreDEvaluation, PlanDuProduit, Classer, MarcheLinux.Decide, MarcheLinux.Exposee,
         Distinctes, Rendue, RegleDAvant, RegleDApres, OrdreBienForme, EstAncre, PremiereVers;
    var n;
    j, n := RangsDuPlan(p, f);
    ordre := OrdreDEvaluation(p, f).value;
    PlanDuProduitBienForme(p, f);
    PlanDistinct(p, f);
    ancre := |q.avant| + n;
    SienneDecide(ordre, f, obs, exiger, q, j, r, marque, compte);
    AncrePosee(f, ordre, TableDuTunnel(p), obs, exiger, q, n);
    TunnelComparable(p, f, n);
  }

  /** The rules before pass the packet on. */
  lemma IntruseEnVue(p: Plan, f: Famille, obs: Observation, exiger: bool, q: Pose, r: Route, paquet: MarcheLinux.Paquet)
    returns (ordre: seq<Regle>, i: nat, ancre: nat)
    requires Intruse(p, f, obs, exiger, q, r, paquet)
    ensures Comparable(p, f) && OrdreDEvaluation(p, f) == Some(ordre)
    ensures MarcheLinux.PaquetDe(f, paquet) && MarcheLinux.Exposee(f, ordre, obs, exiger, i, r)
    ensures MarcheLinux.Meilleure(obs.VueDe(f), r.table, paquet, r)
    ensures MarcheLinux.Decide(obs.VueDe(f).regles[i], paquet.marque, paquet.compte, true)
    ensures forall m :: 0 <= m < i ==> MarcheLinux.SansEffet(obs.VueDe(f), paquet, obs.VueDe(f).regles[m])
    ensures EstAncre(ordre, obs.VueDe(f).regles, TableDuTunnel(p), exiger, ancre) && i < ancre
  {
    hide OrdreDEvaluation, PlanDuProduit, Classer, MarcheLinux.Couvre, MarcheLinux.SansEffet, MarcheLinux.Decide, MarcheLinux.Exposee,
         Rendue, RegleDAvant, RegleDApres, EstAncre;
    var j;
    ordre, j, ancre := EnVue(p, f, obs, exiger, q, r, paquet.marque, paquet.compte);
    i := |q.avant| + j;
    forall m: nat | m < i ensures MarcheLinux.SansEffet(obs.VueDe(f), paquet, obs.VueDe(f).regles[m]) {
      AvantSansEffet(p, ordre, f, obs, exiger, q, j, m, paquet);
    }
  }

  /** The usable local routes, and those of `main` longer than `r`, match by
      destination; no local one throws. */
  predicate RoutesSimples(vue: Vue, r: Route) {
    forall x | x in vue.routes :: MarcheLinux.Utilisable(x) ==>
      && (x.table == TABLE_LOCAL ==> FuitesLinux.ParDestination(x) && x.genre != 9)
      && (x.table == TABLE_MAIN && x.dstLen > r.dstLen ==> FuitesLinux.ParDestination(x))
  }

  /** Behind the kernel's own first rule, with local and longer routes that match by
      destination: some packet of this mark and account leaves by the added route,
      illegitimately and before the tunnel's rule, exactly when the route is usable,
      off the tunnel and the host, and neither the networks it may emit towards nor
      the local and longer prefixes cover its own. The comparison reports it in every
      case. */
  lemma IntruseExacte(p: Plan, f: Famille, obs: Observation, exiger: bool, q: Pose, r: Route, marque: bv32, compte: u32)
    returns (i: nat)
    requires Ajoutee(p, f, obs, exiger, q, r, marque, compte) && (forall a :: a in q.avant ==> RegleDuNoyau(a, TABLE_LOCAL))
    requires RoutesSimples(obs.VueDe(f), r)
    ensures i < |obs.VueDe(f).regles|
    ensures FuitesLinux.Fuit(f, obs, i, r, marque, compte) <==>
              MarcheLinux.Utilisable(r) && !FuitesLinux.AdmiseTelle(r, obs)
              && !FuitesLinux.RecouvreRoute(f, r, FuitesLinux.ReseauxAdmis(f, r, obs) + FuitesLinux.Ecrans(f, obs.VueDe(f), i, r, marque, compte))
    ensures Comparable(p, f) && Ecart(f, RoutesAvantTunnel) in EcartsFamille(p, f, obs, exiger)
  {
    hide Ajoutee, OrdreDEvaluation, RoutesSimples, Comparable, EstAncre, AutreDevant, TiersDevant, ReglesConformes, TableConforme, Consultee,
         MarcheLinux.Decide, FuitesLinux.Fuit, FuitesLinux.RecouvreRoute, FuitesLinux.Ecrans, FuitesLinux.ReseauxAdmis, FuitesLinux.AdmiseTelle,
         FuitesLinux.VoieSimple, MarcheLinux.Utilisable, FuitesLinux.ParDestination, RegleDuNoyau, MarcheLinux.Exposee;
    var ordre, j, ancre := EnVue(p, f, obs, exiger, q, r, marque, compte);
    i := |q.avant| + j;
    VoieDeLIntruse(p, ordre, f, obs, exiger, q, j, r, marque, compte);
    FuitesLinux.FuiteExacte(f, ordre, obs, exiger, i, r, marque, compte);
    AutreRapportee(f, ordre, TableDuTunnel(p), obs, exiger, i, ancre, r);
  }

  lemma VoieDeLIntruse(p: Plan, ordre: seq<Regle>, f: Famille, obs: Observation, exiger: bool, q: Pose, j: nat, r: Route, marque: bv32, compte: u32)
    requires Ajoutee(p, f, obs, exiger, q, r, marque, compte) && OrdreDEvaluation(p, f) == Some(ordre) && j < |ordre|
    requires forall a :: a in q.avant ==> RegleDuNoyau(a, TABLE_LOCAL)
    requires RoutesSimples(obs.VueDe(f), r)
    requires forall i :: 0 <= i < j ==> ordre[i].selecteur.Compte? && ordre[i].selecteur.uid != compte
    ensures FuitesLinux.VoieSimple(obs.VueDe(f), |q.avant| + j, r, marque, compte)
  {
    hide MarcheLinux.Utilisable, FuitesLinux.ParDestination, PlanDuProduit, OrdreDEvaluation, Classer;
    var regles := obs.VueDe(f).regles;
    forall n | 0 <= n < |q.avant| ensures MarcheLinux.Decide(regles[n], marque, compte, true) && RegleDuNoyau(regles[n], TABLE_LOCAL) {
      assert regles[n] == q.avant[n] && q.avant[n] in q.avant;
    }
    forall n | |q.avant| <= n < |q.avant| + j ensures MarcheLinux.Decide(regles[n], marque, compte, false) {
      assert regles[n] == q.siennes[n - |q.avant|] && Rendue(ordre[n - |q.avant|], q.siennes[n - |q.avant|], exiger);
    }
  }

  lemma TunnelComparable(p: Plan, f: Famille, n: nat)
    requires OrdreDEvaluation(p, f).Some? && PremiereVers(OrdreDEvaluation(p, f).value, TableDuTunnel(p), n)
    ensures Comparable(p, f)
  {
    hide OrdreDEvaluation;
  }

  lemma AutreRapportee(f: Famille, ordre: seq<Regle>, t: u32, obs: Observation, exiger: bool, i: nat, ancre: nat, r: Route)
    requires MarcheLinux.Exposee(f, ordre, obs, exiger, i, r) && EstAncre(ordre, obs.VueDe(f).regles, t, exiger, ancre) && i < ancre
    ensures AutreDevant(f, ordre, t, obs, exiger)
  {
    hide Classer, Consultee, Passe;
    assert AutreExposee(f, obs.VueDe(f), obs.tunnel, Consultee(ordre, obs.VueDe(f).regles[i], exiger).value);
    assert AutreAvant(f, ordre, obs.VueDe(f), obs.tunnel, exiger, ancre);
  }

  /** The plan's rule that spares the LAN takes the packet and exposes the route. */
  lemma SienneDecide(ordre: seq<Regle>, f: Famille, obs: Observation, exiger: bool, q: Pose, j: nat, r: Route, marque: bv32, compte: u32)
    requires obs.VueDe(f).regles == q.avant + q.siennes + q.apres && j < |ordre| && Distinctes(ordre)
    requires |q.siennes| == |ordre| && (forall n :: 0 <= n < |ordre| ==> Rendue(ordre[n], q.siennes[n], exiger))
    requires ordre[j].consultation == MainSansDefaut && ordre[j].selecteur == Tout
    requires r in obs.VueDe(f).routes && r.table == TABLE_MAIN && r.dstLen > 0 && Classer(f, r, obs.tunnel, obs.VueDe(f).adresses) == Autre
    ensures MarcheLinux.Exposee(f, ordre, obs, exiger, |q.avant| + j, r)
    ensures MarcheLinux.Decide(obs.VueDe(f).regles[|q.avant| + j], marque, compte, true)
  {
    SienneReconnue(ordre, q.siennes, exiger, j);
    hide Classer, DuProduit, Distinctes;
    assert Rendue(ordre[j], q.siennes[j], exiger);
    assert obs.VueDe(f).regles[|q.avant| + j] == q.siennes[j];
  }

  /** The rules before it let the packet past. */
  lemma AvantSansEffet(p: Plan, ordre: seq<Regle>, f: Famille, obs: Observation, exiger: bool, q: Pose, j: nat, m: nat, paquet: MarcheLinux.Paquet)
    requires obs.VueDe(f).regles == q.avant + q.siennes + q.apres && j < |ordre| && m < |q.avant| + j
    requires |q.siennes| == |ordre| && (forall n :: 0 <= n < |ordre| ==> Rendue(ordre[n], q.siennes[n], exiger))
    requires forall a :: a in q.avant ==> RegleDAvant(a) && a.action in {VersTable, Neutre}
    requires forall x :: !MarcheLinux.Meilleure(obs.VueDe(f), TABLE_LOCAL, paquet, x)
    requires forall i :: 0 <= i < j ==> ordre[i].selecteur.Compte? && ordre[i].selecteur.uid != paquet.compte
    ensures MarcheLinux.SansEffet(obs.VueDe(f), paquet, obs.VueDe(f).regles[m])
  {
    hide MarcheLinux.Meilleure;
    var regle := obs.VueDe(f).regles[m];
    if m < |q.avant| {
      assert regle in q.avant;
    } else {
      var n := m - |q.avant|;
      assert regle == q.siennes[n] && Rendue(ordre[n], q.siennes[n], exiger);
    }
  }

  lemma AncrePosee(f: Famille, ordre: seq<Regle>, t: u32, obs: Observation, exiger: bool, q: Pose, n: nat)
    requires OrdreBienForme(ordre, t) && t !in TABLES_RESERVEES && Distinctes(ordre) && PremiereVers(ordre, t, n)
    requires obs.VueDe(f).regles == q.avant + q.siennes + q.apres && forall r :: r in q.avant ==> RegleDAvant(r)
    requires |q.siennes| == |ordre| && forall j :: 0 <= j < |ordre| ==> Rendue(ordre[j], q.siennes[j], exiger)
    ensures EstAncre(ordre, obs.VueDe(f).regles, t, exiger, |q.avant| + n)
  {
    var regles := obs.VueDe(f).regles;
    hide DuProduit, OrdreBienForme, RegleDAvant, Distinctes, Rendue;
    SienneReconnue(ordre, q.siennes, exiger, n);
    forall i | 0 <= i < |q.avant| + n ensures DuProduit(ordre, regles[i], exiger) != Some(n) {
      if i < |q.avant| {
        ReglesDesAutres(ordre, t, regles[i], exiger);
      } else {
        SienneReconnue(ordre, q.siennes, exiger, i - |q.avant|);
      }
    }
    assert regles[|q.avant| + n] == q.siennes[n];
  }
}
