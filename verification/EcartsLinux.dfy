/**
 What each difference of the Linux comparison says of the fields the kernel returns
 (crates/bifrost-cli/src/preuve_routes.rs:344-364, 464-517 and 547-682): the rules and
 the route `ip` leaves for a plan of the product, written out, and the routes of no
 admitted class. A category is reported exactly when its sentence here holds.
 */
module EcartsLinux {
  import opened Commun
  import opened Octets
  import opened PlanLinux
  import opened RoutesLinux
  import TriStable

  // ---------------------------------------------------------------------
  // The rules of a plan, field by field.
  // ---------------------------------------------------------------------

  datatype Motif = Motif(pref: Option<u32>, table: u32, inverse: bool, marque: Option<(bv32, bv32)>, comptes: Option<(u32, u32)>,
                         suppression: Option<u32>)

  /** What `ip rule` shows of a plan, in evaluation order. */
  function Motifs(c: Chemin): (m: seq<Motif>)
    ensures |m| > 0
  {
    match c
    case WireGuard(m, t) => [Motif(None, 254, false, None, None, Some(0)), Motif(None, t, true, Some((m, 0xffff_ffff)), None, None)]
    case Coeur(u) =>
      (if u.Some? then [Motif(Some(9100), 254, false, None, Some((u.value, u.value)), None)] else [])
      + [Motif(Some(9110), 254, false, None, None, Some(0)), Motif(Some(9120), 2847, false, None, None, None)]
  }

  function TableDe(c: Chemin): u32 { match c case WireGuard(_, t) => t case Coeur(_) => 2847 }

  /** The rule carries this and nothing else; in daemon mode, the product's label. */
  predicate Porte(r: RegleLue, m: Motif, exiger: bool) {
    && r == RegleLue(r.pref, VersTable, m.table, m.inverse, 0,
                     Selecteurs(m.marque, m.comptes,
                                AutresSelecteurs(None, None, 0, None, None, None, None, None, None, None, None, None, None, None, None)),
                     m.suppression, None, None, r.protocole)
    && (m.pref.Some? ==> r.pref == m.pref.value)
    && (exiger ==> r.protocole == 0xb1)
  }

  ghost predicate DuPlan(regles: seq<RegleLue>, c: Chemin, exiger: bool, i: nat)
    requires i < |regles|
  {
    exists j :: 0 <= j < |Motifs(c)| && Porte(regles[i], Motifs(c)[j], exiger)
  }

  /** Each rule of the plan is at one place, and the places are in its order. */
  ghost predicate UneFoisEnOrdre(regles: seq<RegleLue>, m: seq<Motif>, exiger: bool) {
    exists places: seq<nat> :: Places(regles, m, exiger, places)
  }

  ghost predicate Places(regles: seq<RegleLue>, m: seq<Motif>, exiger: bool, places: seq<nat>) {
    && |places| == |m| && (forall j :: 0 <= j < |m| ==> places[j] < |regles|)
    && (forall j, k :: 0 <= j < k < |m| ==> places[j] < places[k])
    && forall i, j :: 0 <= i < |regles| && 0 <= j < |m| ==> (Porte(regles[i], m[j], exiger) <==> i == places[j])
  }

  lemma MotifExclusif(r: RegleLue, c: Chemin, exiger: bool, j: nat, k: nat)
    requires j < |Motifs(c)| && k < |Motifs(c)| && Porte(r, Motifs(c)[j], exiger) && Porte(r, Motifs(c)[k], exiger)
    ensures j == k
  {
  }

  /** The expected rules of a plan, one by one. */
  lemma MotifsDuPlan(p: Plan, f: Famille, j: nat, r: RegleLue, exiger: bool)
    requires PlanDuProduit(p) && j < |Motifs(p.chemin)|
    ensures OrdreDEvaluation(p, f).Some? && |OrdreDEvaluation(p, f).value| == |Motifs(p.chemin)|
    ensures Correspond(OrdreDEvaluation(p, f).value[j], r, exiger) <==> Porte(r, Motifs(p.chemin)[j], exiger)
    ensures TableDuTunnel(p) == TableDe(p.chemin)
    ensures OrdreDEvaluation(p, f).value[j].consultation == MainSansDefaut <==> Motifs(p.chemin)[j].suppression == Some(0)
    ensures OrdreDEvaluation(p, f).value[j].consultation == Table(TableDe(p.chemin)) <==> j == |Motifs(p.chemin)| - 1
  {
    hide OrdreDEvaluation, EtapesWireGuard, EtapesCoeur;
    if m, t :| p == PlanWireGuard(p.interface, m, t) {
      OrdreWireGuard(p.interface, m, t, f);
    } else {
      var c :| p == PlanCoeur(p.interface, c);
      OrdreCoeur(p.interface, c, f);
    }
  }

  lemma DuProduitEst(p: Plan, f: Famille, r: RegleLue, exiger: bool, j: nat)
    requires PlanDuProduit(p) && j < |Motifs(p.chemin)|
    ensures OrdreDEvaluation(p, f).Some?
    ensures DuProduit(OrdreDEvaluation(p, f).value, r, exiger) == Some(j) <==> Porte(r, Motifs(p.chemin)[j], exiger)
  {
    hide OrdreDEvaluation, Correspond, Porte, Motifs, PlanDuProduit;
    MotifsDuPlan(p, f, j, r, exiger);
    var d := DuProduit(OrdreDEvaluation(p, f).value, r, exiger);
    if d.Some? {
      MotifsDuPlan(p, f, d.value, r, exiger);
      if Porte(r, Motifs(p.chemin)[j], exiger) {
        MotifExclusif(r, p.chemin, exiger, d.value, j);
      }
    }
  }

  lemma DuProduitAucun(p: Plan, f: Famille, r: RegleLue, exiger: bool)
    requires PlanDuProduit(p)
    ensures OrdreDEvaluation(p, f).Some?
    ensures DuProduit(OrdreDEvaluation(p, f).value, r, exiger).None? <==>
              forall j :: 0 <= j < |Motifs(p.chemin)| ==> !Porte(r, Motifs(p.chemin)[j], exiger)
  {
    hide OrdreDEvaluation, Correspond, Porte, Motifs, PlanDuProduit;
    forall j | 0 <= j < |Motifs(p.chemin)|
      ensures OrdreDEvaluation(p, f).Some? && |OrdreDEvaluation(p, f).value| == |Motifs(p.chemin)|
      ensures DuProduit(OrdreDEvaluation(p, f).value, r, exiger) == Some(j) <==> Porte(r, Motifs(p.chemin)[j], exiger)
    {
      MotifsDuPlan(p, f, j, r, exiger);
      DuProduitEst(p, f, r, exiger, j);
    }
    MotifsDuPlan(p, f, 0, r, exiger);
    var d := DuProduit(OrdreDEvaluation(p, f).value, r, exiger);
    if d.Some? {
      assert Porte(r, Motifs(p.chemin)[d.value], exiger);
    }
  }

  // ---------------------------------------------------------------------
  // The product's rules.
  // ---------------------------------------------------------------------

  lemma Comparables(p: Plan, f: Famille)
    requires PlanDuProduit(p)
    ensures Comparable(p, f)
  {
    PlanDuProduitBienForme(p, f);
  }

  /** A category is in the report exactly when it is present. */
  lemma EcartsDits(f: Famille, regles: bool, table: bool, tiers: bool, routes: bool)
    ensures var e := EcartsDe(f, regles, table, tiers, routes);
            && (Ecart(f, ReglesProduit) in e <==> regles) && (Ecart(f, TableTunnel) in e <==> table)
            && (Ecart(f, ReglesAvantTunnel) in e <==> tiers) && (Ecart(f, RoutesAvantTunnel) in e <==> routes)
            && (e == [] <==> !regles && !table && !tiers && !routes)
  {
  }

  lemma Categories(p: Plan, f: Famille, obs: Observation, exiger: bool)
    requires PlanDuProduit(p)
    ensures Comparable(p, f) && OrdreDEvaluation(p, f).Some?
    ensures var e, ordre, t := EcartsFamille(p, f, obs, exiger), OrdreDEvaluation(p, f).value, TableDuTunnel(p);
            && (Ecart(f, ReglesProduit) in e <==> !ReglesConformes(ordre, obs.VueDe(f).regles, exiger))
            && (Ecart(f, TableTunnel) in e <==> !TableConforme(obs.VueDe(f).routes, t, 1, obs.tunnel, exiger))
            && (Ecart(f, ReglesAvantTunnel) in e <==> TiersDevant(f, ordre, t, obs, exiger))
            && (Ecart(f, RoutesAvantTunnel) in e <==> AutreDevant(f, ordre, t, obs, exiger))
            && (e == [] <==> forall c :: Ecart(f, c) !in e)
  {
    Comparables(p, f);
    PlanDuProduitBienForme(p, f);
    hide OrdreDEvaluation, PlanDuProduit, Comparable, ReglesConformes, TableConforme, TiersDevant, AutreDevant, EcartsDe, OrdreBienForme;
    var ordre, t := OrdreDEvaluation(p, f).value, TableDuTunnel(p);
    var regles, table, tiers, routes := !ReglesConformes(ordre, obs.VueDe(f).regles, exiger),
        !TableConforme(obs.VueDe(f).routes, t, 1, obs.tunnel, exiger), TiersDevant(f, ordre, t, obs, exiger), AutreDevant(f, ordre, t, obs, exiger);
    EcartsDits(f, regles, table, tiers, routes);
    assert EcartsFamille(p, f, obs, exiger) == EcartsDe(f, regles, table, tiers, routes);
  }

  /** The rules category is absent exactly when each rule `ip` leaves for the plan is
      there once, in order. */
  lemma ReglesExactes(p: Plan, f: Famille, obs: Observation, exiger: bool)
    requires PlanDuProduit(p)
    ensures Comparable(p, f)
    ensures Ecart(f, ReglesProduit) !in EcartsFamille(p, f, obs, exiger) <==> UneFoisEnOrdre(obs.VueDe(f).regles, Motifs(p.chemin), exiger)
  {
    Categories(p, f, obs, exiger);
    var ordre, regles, m := OrdreDEvaluation(p, f).value, obs.VueDe(f).regles, Motifs(p.chemin);
    hide OrdreDEvaluation, DuProduit, Porte, Motifs, PlanDuProduit, Comparable, TableConforme, TiersDevant, AutreDevant, EcartsFamille;
    forall i, j | 0 <= i < |regles| && 0 <= j < |m| ensures DuProduit(ordre, regles[i], exiger) == Some(j) <==> Porte(regles[i], m[j], exiger) {
      DuProduitEst(p, f, regles[i], exiger, j);
    }
    assert |ordre| == |m| by { MotifsDuPlan(p, f, 0, RegleQuelconque(), exiger); }
    if ReglesConformes(ordre, regles, exiger) {
      var places :| ALeurPlace(ordre, regles, exiger, places);
      assert Places(regles, m, exiger, places);
    }
    if UneFoisEnOrdre(regles, m, exiger) {
      var places :| Places(regles, m, exiger, places);
      assert ALeurPlace(ordre, regles, exiger, places);
    }
  }

  function RegleQuelconque(): RegleLue {
    RegleLue(0, Neutre, 0, false, 0, Selecteurs(None, None, AUCUN_AUTRE), None, None, None, 0)
  }

  /** In daemon mode, a rule of the plan that only bears another originator is a
      difference. */
  lemma EtiquetteDeRegle(p: Plan, f: Famille, obs: Observation, j: nat)
    requires PlanDuProduit(p) && j < |Motifs(p.chemin)|
    requires forall r :: r in obs.VueDe(f).regles && Porte(r, Motifs(p.chemin)[j], false) ==> r.protocole != 0xb1
    ensures Comparable(p, f) && Ecart(f, ReglesProduit) in EcartsFamille(p, f, obs, true)
  {
    ReglesExactes(p, f, obs, true);
    var regles, m := obs.VueDe(f).regles, Motifs(p.chemin);
    hide EcartsFamille, Motifs, PlanDuProduit, Comparable;
    if places :| Places(regles, m, true, places) {
      Portee(regles, m, places, j);
    }
  }

  lemma Portee(regles: seq<RegleLue>, m: seq<Motif>, places: seq<nat>, j: nat)
    requires j < |m| && Places(regles, m, true, places)
    ensures exists r :: r in regles && Porte(r, m[j], false) && r.protocole == 0xb1
  {
    assert Porte(regles[places[j]], m[j], true);
  }

  // ---------------------------------------------------------------------
  // The tunnel's table.
  // ---------------------------------------------------------------------

  /** `default dev <tunnel>`, usable, and nothing else; in daemon mode, the label. */
  predicate ParLeTunnel(r: Route, tunnel: Option<u32>, exiger: bool) {
    && r.genre == 1 && r.dstLen == 0 && r.srcLen == 0 && r.tos == 0 && r.iif == None
    && tunnel != None && r.oif == tunnel
    && r.passerelle == None && r.via == None && r.multichemin == None && r.prochainSaut == None && r.encapsulation == None
    && r.drapeaux & 1 == 0 && r.drapeaux & 16 == 0 && r.expire == false
    && (exiger ==> r.protocole == 0xb1)
  }

  ghost predicate SeuleRoute(routes: seq<Route>, t: u32, i: nat) {
    i < |routes| && forall k :: 0 <= k < |routes| ==> (routes[k].table == t <==> k == i)
  }

  lemma {:induction false} UneSeule(routes: seq<Route>, t: u32)
    ensures |DansLaTable(routes, t)| == 0 <==> forall k :: 0 <= k < |routes| ==> routes[k].table != t
    ensures |DansLaTable(routes, t)| == 1 <==> exists i: nat :: SeuleRoute(routes, t, i)
  {
    if routes != [] {
      UneSeule(routes[1..], t);
      assert routes == [routes[0]] + routes[1..];
      if i: nat :| SeuleRoute(routes[1..], t, i) && routes[0].table != t {
        assert SeuleRoute(routes, t, i + 1);
      }
      if (forall k :: 0 <= k < |routes[1..]| ==> routes[1..][k].table != t) && routes[0].table == t {
        assert forall k :: 0 < k < |routes| ==> routes[k] == routes[1..][k - 1];
        assert SeuleRoute(routes, t, 0);
      }
      if i: nat :| SeuleRoute(routes, t, i) {
        if i > 0 {
          assert SeuleRoute(routes[1..], t, i - 1);
        }
      }
    }
  }

  lemma Drapeaux(d: bv32)
    ensures d & 0x11 == 0 <==> d & 1 == 0 && d & 16 == 0
  {
  }

  /** The table category is absent exactly when the tunnel's table is one route, the
      plan's. */
  lemma TableExacte(p: Plan, f: Famille, obs: Observation, exiger: bool)
    requires PlanDuProduit(p)
    ensures Comparable(p, f)
    ensures Ecart(f, TableTunnel) !in EcartsFamille(p, f, obs, exiger) <==>
              exists i: nat :: SeuleRoute(obs.VueDe(f).routes, TableDe(p.chemin), i) && ParLeTunnel(obs.VueDe(f).routes[i], obs.tunnel, exiger)
  {
    Categories(p, f, obs, exiger);
    var ordre, regles, routes := OrdreDEvaluation(p, f).value, obs.VueDe(f).regles, obs.VueDe(f).routes;
    MotifsDuPlan(p, f, 0, RegleQuelconque(), exiger);
    PlanDuProduitBienForme(p, f);
    hide OrdreDEvaluation, PlanDuProduit, Comparable, ReglesConformes, TiersDevant, AutreDevant, EcartsFamille, OrdreBienForme, Motifs, Porte;
    UneSeule(routes, TableDe(p.chemin));
    RouteConformeEst(obs, exiger);
    hide RouteConforme, ParLeTunnel;
    if i: nat :| SeuleRoute(routes, TableDe(p.chemin), i) {
      assert forall k :: SeuleRoute(routes, TableDe(p.chemin), k) ==> k == i;
      assert routes[i] in routes;
    }
  }

  lemma RouteConformeEst(obs: Observation, exiger: bool)
    ensures forall r :: RouteConforme(r, obs.tunnel, exiger) <==> ParLeTunnel(r, obs.tunnel, exiger)
  {
    forall r ensures RouteConforme(r, obs.tunnel, exiger) <==> ParLeTunnel(r, obs.tunnel, exiger) {
      Drapeaux(r.drapeaux);
    }
  }

  /** In daemon mode, a tunnel route that only bears another originator is a difference. */
  lemma EtiquetteDeRoute(p: Plan, f: Famille, obs: Observation)
    requires PlanDuProduit(p)
    requires forall r :: r in obs.VueDe(f).routes && r.table == TableDe(p.chemin) ==> r.protocole != 0xb1
    ensures Comparable(p, f) && Ecart(f, TableTunnel) in EcartsFamille(p, f, obs, true)
  {
    TableExacte(p, f, obs, true);
    hide EcartsFamille, PlanDuProduit, Comparable;
    forall i: nat | SeuleRoute(obs.VueDe(f).routes, TableDe(p.chemin), i) ensures !ParLeTunnel(obs.VueDe(f).routes[i], obs.tunnel, true) {
      assert obs.VueDe(f).routes[i] in obs.VueDe(f).routes;
    }
  }

  // ---------------------------------------------------------------------
  // What precedes the tunnel's rule.
  // ---------------------------------------------------------------------

  /** The first rule that is the plan's towards the tunnel. */
  ghost predicate Ancree(regles: seq<RegleLue>, c: Chemin, exiger: bool, a: nat) {
    var m := Motifs(c)[|Motifs(c)| - 1];
    a < |regles| && Porte(regles[a], m, exiger) && forall i :: 0 <= i < a ==> !Porte(regles[i], m, exiger)
  }

  /** A rule that is none of the plan's. */
  predicate DUnAutre(r: RegleLue, c: Chemin, exiger: bool) { forall j | 0 <= j < |Motifs(c)| :: !Porte(r, Motifs(c)[j], exiger) }

  /** A goto, or a table that is neither `local` nor the tunnel's. */
  predicate Detourne(r: RegleLue, c: Chemin) { r.action == Saut || (r.action == VersTable && r.table != 255 && r.table != TableDe(c)) }

  lemma AncreEst(p: Plan, f: Famille, regles: seq<RegleLue>, exiger: bool, a: nat)
    requires PlanDuProduit(p)
    ensures OrdreDEvaluation(p, f).Some?
    ensures EstAncre(OrdreDEvaluation(p, f).value, regles, TableDuTunnel(p), exiger, a) <==> Ancree(regles, p.chemin, exiger, a)
  {
    var n := |Motifs(p.chemin)| - 1;
    hide OrdreDEvaluation, PlanDuProduit, DuProduit, Porte, Motifs;
    MotifsDuPlan(p, f, n, RegleQuelconque(), exiger);
    var ordre, t := OrdreDEvaluation(p, f).value, TableDuTunnel(p);
    forall j: nat | j < |ordre| ensures ordre[j].consultation == Table(t) <==> j == n {
      MotifsDuPlan(p, f, j, RegleQuelconque(), exiger);
    }
    forall i | 0 <= i < |regles| ensures DuProduit(ordre, regles[i], exiger) == Some(n) <==> Porte(regles[i], Motifs(p.chemin)[n], exiger) {
      DuProduitEst(p, f, regles[i], exiger, n);
    }
    assert PremiereVers(ordre, t, n);
  }

  lemma TiersEst(p: Plan, f: Famille, r: RegleLue, exiger: bool)
    requires PlanDuProduit(p)
    ensures OrdreDEvaluation(p, f).Some?
    ensures EstTiers(OrdreDEvaluation(p, f).value, r, TableDuTunnel(p), exiger) <==> DUnAutre(r, p.chemin, exiger) && Detourne(r, p.chemin)
  {
    DuProduitAucun(p, f, r, exiger);
    MotifsDuPlan(p, f, 0, r, exiger);
    hide OrdreDEvaluation, PlanDuProduit, DuProduit, Porte, Motifs;
  }

  /** The rules-before category is reported exactly when, before the tunnel's rule,
      a rule that is none of the plan's jumps or leads to another table. */
  lemma TiersExacts(p: Plan, f: Famille, obs: Observation, exiger: bool)
    requires PlanDuProduit(p)
    ensures Comparable(p, f)
    ensures Ecart(f, ReglesAvantTunnel) in EcartsFamille(p, f, obs, exiger) <==>
              exists a: nat, i: nat :: Ancree(obs.VueDe(f).regles, p.chemin, exiger, a) && i < a
                && DUnAutre(obs.VueDe(f).regles[i], p.chemin, exiger) && Detourne(obs.VueDe(f).regles[i], p.chemin)
  {
    Categories(p, f, obs, exiger);
    var ordre, t, regles := OrdreDEvaluation(p, f).value, TableDuTunnel(p), obs.VueDe(f).regles;
    hide OrdreDEvaluation, PlanDuProduit, Comparable, ReglesConformes, TableConforme, AutreDevant, EcartsFamille, EstTiers, EstAncre, Ancree, DUnAutre,
         Detourne;
    forall a: nat ensures EstAncre(ordre, regles, t, exiger, a) <==> Ancree(regles, p.chemin, exiger, a) {
      AncreEst(p, f, regles, exiger, a);
    }
    forall i | 0 <= i < |regles|
      ensures EstTiers(ordre, regles[i], t, exiger) <==> DUnAutre(regles[i], p.chemin, exiger) && Detourne(regles[i], p.chemin)
    {
      TiersEst(p, f, regles[i], exiger);
    }
    AncreeDedans(regles, p.chemin, exiger);
  }

  lemma AncreeDedans(regles: seq<RegleLue>, c: Chemin, exiger: bool)
    ensures forall a: nat :: Ancree(regles, c, exiger, a) ==> a < |regles|
  {
  }

  // ---------------------------------------------------------------------
  // The routes looked up before it.
  // ---------------------------------------------------------------------

  predicate UnSeulSaut(r: Route) { r.multichemin == None && r.prochainSaut == None && r.encapsulation == None }

  predicate SansPasserelle(r: Route) { r.passerelle == None && r.via == None }

  /** The route starts on the link, for every source and every entry interface. */
  predicate DuLien(r: Route, a: AdresseLue) {
    UnSeulSaut(r) && SansPasserelle(r) && r.srcLen == 0 && r.iif == None && r.dstLen > 0 && r.oif == Some(a.index)
  }

  /** The admitted routes, by kind: a refusal or a throw; a delivery to the host; any
      emission on the tunnel; the network of an address of the interface, written
      without host bits; one host of it, as broadcast (IPv4) or anycast; multicast. */
  ghost predicate Admise(f: Famille, r: Route, tunnel: Option<u32>, adresses: seq<AdresseLue>) {
    || (6 <= r.genre <= 9)
    || (UnSeulSaut(r) && SansPasserelle(r) && r.genre == 2)
    || (UnSeulSaut(r) && r.genre in {1, 3, 4, 5} && tunnel != None && r.oif == tunnel)
    || (r.genre == 1 && exists a :: a in adresses && DuLien(r, a) && r.dstLen == a.prefixe && MemePrefixe(r.dst, a.adresse, a.prefixe)
                                   && FinNulle(r.dst, a.prefixe))
    || ((r.genre == 4 || (r.genre == 3 && f == Ipv4)) && r.dstLen == 8 * |r.dst| % 256
        && exists a :: a in adresses && DuLien(r, a) && MemePrefixe(r.dst, a.adresse, a.prefixe))
    || (r.genre == 5 && UnSeulSaut(r) && SansPasserelle(r) && |r.dst| > 0
        && match f case Ipv4 => r.dstLen >= 4 && r.dst[0] & 0xf0 == 0xe0 case Ipv6 => r.dstLen >= 8 && r.dst[0] == 0xff)
  }

  lemma AdmiseEst(f: Famille, r: Route, tunnel: Option<u32>, adresses: seq<AdresseLue>)
    ensures Classer(f, r, tunnel, adresses) != Autre <==> Admise(f, r, tunnel, adresses)
  {
    hide Masquer, MemePrefixe, FinNulle;
    forall a | a in adresses
      ensures Masquer(a.adresse, a.prefixe) == r.dst <==> MemePrefixe(r.dst, a.adresse, a.prefixe) && FinNulle(r.dst, a.prefixe)
      ensures Masquer(r.dst, a.prefixe) == Masquer(a.adresse, a.prefixe) <==> MemePrefixe(r.dst, a.adresse, a.prefixe)
    {
      MasqueEst(a.adresse, a.prefixe, r.dst);
      MasquesEgaux(r.dst, a.adresse, a.prefixe);
    }
  }

  /** Which class an admitted route falls in: the kind settles all but a tunnel's. */
  lemma ClasseParGenre(f: Famille, r: Route, tunnel: Option<u32>, adresses: seq<AdresseLue>)
    ensures var c := Classer(f, r, tunnel, adresses);
            && (c == Rejet <==> r.genre in {6, 7, 8}) && (c == RegleSuivante <==> r.genre == 9)
            && (c == LivraisonLocale <==> r.genre == 2 && UnSeulSaut(r) && SansPasserelle(r))
            && (c == Tunnel <==> r.genre in {1, 3, 4, 5} && UnSeulSaut(r) && tunnel != None && r.oif == tunnel)
            && (c == Connectee ==> r.genre == 1) && (c == HoteDuReseau ==> r.genre in {3, 4}) && (c == MultidiffusionSurLeLien ==> r.genre == 5)
  {
    hide Masquer, Multidiffusion;
  }

  /** A rule looks this route up: the plan's rule that spares the LAN, in `main` and
      past the default routes; or one that is none of the plan's, in `local`, past
      its suppression. */
  ghost predicate Consulte(r: RegleLue, c: Chemin, exiger: bool, x: Route) {
    || ((exists j :: 0 <= j < |Motifs(c)| && Motifs(c)[j].suppression == Some(0) && Porte(r, Motifs(c)[j], exiger)) && x.table == 254 && x.dstLen > 0)
    || (DUnAutre(r, c, exiger) && r.action == VersTable && r.table == 255 && x.table == 255
        && (r.suppressionPrefixe.Some? ==> x.dstLen > r.suppressionPrefixe.value))
  }

  lemma ConsulteEst(p: Plan, f: Famille, r: RegleLue, exiger: bool, x: Route)
    requires PlanDuProduit(p)
    ensures OrdreDEvaluation(p, f).Some?
    ensures (var c := Consultee(OrdreDEvaluation(p, f).value, r, exiger); c.Some? && Passe(x, c.value.0, c.value.1))
       <==> Consulte(r, p.chemin, exiger, x)
  {
    DuProduitAucun(p, f, r, exiger);
    hide OrdreDEvaluation, PlanDuProduit, DuProduit, Porte, Motifs;
    var ordre, m := OrdreDEvaluation(p, f).value, Motifs(p.chemin);
    forall j: nat | j < |m|
      ensures |ordre| == |m| && (ordre[j].consultation == MainSansDefaut <==> m[j].suppression == Some(0))
      ensures DuProduit(ordre, r, exiger) == Some(j) <==> Porte(r, m[j], exiger)
    {
      MotifsDuPlan(p, f, j, r, exiger);
      DuProduitEst(p, f, r, exiger, j);
    }
    MotifsDuPlan(p, f, 0, r, exiger);
  }

  /** The routes-before category is reported exactly when a rule before the tunnel's
      looks up a route of no admitted kind. */
  lemma RoutesExactes(p: Plan, f: Famille, obs: Observation, exiger: bool)
    requires PlanDuProduit(p)
    ensures Comparable(p, f)
    ensures Ecart(f, RoutesAvantTunnel) in EcartsFamille(p, f, obs, exiger) <==>
              exists a: nat, i: nat, x :: Ancree(obs.VueDe(f).regles, p.chemin, exiger, a) && i < a && x in obs.VueDe(f).routes
                && Consulte(obs.VueDe(f).regles[i], p.chemin, exiger, x) && !Admise(f, x, obs.tunnel, obs.VueDe(f).adresses)
  {
    Categories(p, f, obs, exiger);
    var ordre, t, vue := OrdreDEvaluation(p, f).value, TableDuTunnel(p), obs.VueDe(f);
    hide OrdreDEvaluation, PlanDuProduit, Comparable, ReglesConformes, TableConforme, TiersDevant, EcartsFamille, EstAncre, Ancree, Consulte, Consultee,
         Passe, Classer, Admise;
    forall a: nat ensures EstAncre(ordre, vue.regles, t, exiger, a) <==> Ancree(vue.regles, p.chemin, exiger, a) {
      AncreEst(p, f, vue.regles, exiger, a);
    }
    AncreeDedans(vue.regles, p.chemin, exiger);
    forall i: nat | i < |vue.regles|
      ensures (var c := Consultee(ordre, vue.regles[i], exiger); c.Some? && AutreExposee(f, vue, obs.tunnel, c.value))
         <==> exists x :: x in vue.routes && Consulte(vue.regles[i], p.chemin, exiger, x) && !Admise(f, x, obs.tunnel, vue.adresses)
    {
      forall x
        ensures (var c := Consultee(ordre, vue.regles[i], exiger); c.Some? && Passe(x, c.value.0, c.value.1)) <==> Consulte(vue.regles[i], p.chemin, exiger, x)
        ensures Classer(f, x, obs.tunnel, vue.adresses) == Autre <==> !Admise(f, x, obs.tunnel, vue.adresses)
      {
        ConsulteEst(p, f, vue.regles[i], exiger, x);
        AdmiseEst(f, x, obs.tunnel, vue.adresses);
      }
    }
  }

  /** What a match says, category by category, in both families. */
  ghost predicate Conforme(p: Plan, f: Famille, obs: Observation, exiger: bool) {
    var vue := obs.VueDe(f);
    && UneFoisEnOrdre(vue.regles, Motifs(p.chemin), exiger)
    && (exists i: nat :: SeuleRoute(vue.routes, TableDe(p.chemin), i) && ParLeTunnel(vue.routes[i], obs.tunnel, exiger))
    && (forall a: nat, i: nat :: Ancree(vue.regles, p.chemin, exiger, a) && i < a ==>
          !(DUnAutre(vue.regles[i], p.chemin, exiger) && Detourne(vue.regles[i], p.chemin)))
    && forall a: nat, i: nat, x ::
         (Ancree(vue.regles, p.chemin, exiger, a) && i < a && x in vue.routes && Consulte(vue.regles[i], p.chemin, exiger, x)) ==>
           Admise(f, x, obs.tunnel, vue.adresses)
  }

  /** MATCH, for every plan of the product and every kernel: the plan's rules are there
      once and in order, its route alone in the tunnel's table, and before the tunnel's
      rule nothing leads elsewhere and only admitted routes are looked up. */
  lemma CorrespondanceExacte(p: Plan, obs: Observation, exiger: bool)
    requires PlanDuProduit(p)
    ensures Comparable(p, Ipv4) && Comparable(p, Ipv6)
    ensures EcartsDuPlan(p, obs, exiger) == [] <==> forall f: Famille :: Conforme(p, f, obs, exiger)
  {
    hide PlanDuProduit, Comparable, EcartsFamille, OrdreDEvaluation, UneFoisEnOrdre, ParLeTunnel, SeuleRoute, Ancree, DUnAutre, Detourne, Consulte,
         Admise, ReglesConformes, TableConforme, TiersDevant, AutreDevant;
    forall f: Famille ensures Comparable(p, f) && (EcartsFamille(p, f, obs, exiger) == [] <==> Conforme(p, f, obs, exiger)) {
      Categories(p, f, obs, exiger);
      FamilleExacte(p, f, obs, exiger);
    }
  }

  lemma FamilleExacte(p: Plan, f: Famille, obs: Observation, exiger: bool)
    requires PlanDuProduit(p)
    ensures Comparable(p, f)
    ensures (forall c :: Ecart(f, c) !in EcartsFamille(p, f, obs, exiger)) <==> Conforme(p, f, obs, exiger)
  {
    hide PlanDuProduit, Comparable, EcartsFamille, UneFoisEnOrdre, ParLeTunnel, SeuleRoute, Ancree, DUnAutre, Detourne, Consulte, Admise;
    ReglesExactes(p, f, obs, exiger);
    TableExacte(p, f, obs, exiger);
    TiersExacts(p, f, obs, exiger);
    RoutesExactes(p, f, obs, exiger);
    AncreeDedans(obs.VueDe(f).regles, p.chemin, exiger);
    var e := EcartsFamille(p, f, obs, exiger);
    if Conforme(p, f, obs, exiger) {
      forall c ensures Ecart(f, c) !in e {
        match c { case ReglesProduit => case TableTunnel => case ReglesAvantTunnel => case RoutesAvantTunnel => }
      }
    }
  }

  /** The place of a difference in the report. */
  function Rang(e: Ecart): int {
    (match e.famille case Ipv4 => 0 case Ipv6 => 4)
    + (match e.categorie case ReglesProduit => 0 case TableTunnel => 1 case ReglesAvantTunnel => 2 case RoutesAvantTunnel => 3)
  }

  /** The report names each difference once, IPv4 first, in that order. */
  lemma EnOrdre(p: Plan, obs: Observation, exiger: bool)
    requires Comparable(p, Ipv4) && Comparable(p, Ipv6)
    ensures TriStable.StrictementTrie(EcartsDuPlan(p, obs, exiger), Rang)
  {
    hide Comparable, ReglesConformes, TableConforme, TiersDevant, AutreDevant;
    FamilleEnOrdre(p, Ipv4, obs, exiger);
    FamilleEnOrdre(p, Ipv6, obs, exiger);
    hide EcartsFamille;
  }

  lemma FamilleEnOrdre(p: Plan, f: Famille, obs: Observation, exiger: bool)
    requires Comparable(p, f)
    ensures var e := EcartsFamille(p, f, obs, exiger);
            TriStable.StrictementTrie(e, Rang) && forall x :: x in e ==> x.famille == f
  {
    hide ReglesConformes, TableConforme, TiersDevant, AutreDevant;
  }
}
