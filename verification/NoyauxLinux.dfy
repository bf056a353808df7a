/**
 Kernels as `PoseLinux` describes them exist, for every plan of the product
 (crates/bifrost-cli/src/preuve_routes/recettes.rs:24-203).
 */
module NoyauxLinux {
  import opened Commun
  import opened Octets
  import opened PlanLinux
  import opened RoutesLinux
  import opened PoseLinux
  import MarcheLinux
  import FuitesLinux

  function Rendre(a: Regle): RegleLue {
    RegleLue(if a.priorite.Some? then a.priorite.value else 0, VersTable, a.consultation.TableConsultee(), a.selecteur.HorsMarque?, 0,
             SelecteursDe(a.selecteur), a.consultation.Suppression(), None, None, PROTOCOLE_PRODUIT)
  }

  function DuNoyau(pref: u32, table: u32): RegleLue { RegleLue(pref, VersTable, table, false, 0, SelecteursDe(Tout), None, None, None, 2) }

  function Nouvelle(table: u32, dst: Adresse, dstLen: u8, oif: u32, passerelle: Option<Adresse>, protocole: u8): Route {
    Route(table, 1, dst, dstLen, [], 0, 0, protocole, 0, 0, Some(oif), None, passerelle, None, None, None, None, None, None, None, None, None, false)
  }

  function ParDefaut(lien: AdresseLue): Route { Nouvelle(TABLE_MAIN, [], 0, lien.index, Some(lien.adresse), 3) }

  function DuReseau(lien: AdresseLue): Route {
    Nouvelle(TABLE_MAIN, Masquer(lien.adresse, lien.prefixe), lien.prefixe, lien.index, None, 2)
  }

  function DuTunnel(p: Plan, tunnel: u32): Route { Nouvelle(TableDuTunnel(p), [], 0, tunnel, None, PROTOCOLE_PRODUIT) }

  function Siennes(p: Plan, f: Famille): (l: seq<RegleLue>)
    ensures OrdreDEvaluation(p, f).Some? ==> |l| == |OrdreDEvaluation(p, f).value|
    ensures OrdreDEvaluation(p, f).Some? ==> forall j :: 0 <= j < |l| ==> l[j] == Rendre(OrdreDEvaluation(p, f).value[j])
  {
    match OrdreDEvaluation(p, f)
    case Some(o) => seq(|o|, j requires 0 <= j < |o| => Rendre(o[j]))
    case None => []
  }

  /** An interface holds one address: `main` has its connected route and a default
      route through a gateway, and the routes `plus`. */
  function Minimale(p: Plan, f: Famille, tunnel: u32, lien: AdresseLue, plus: seq<Route>): Pose {
    Pose([DuNoyau(0, TABLE_LOCAL)], Siennes(p, f), [DuNoyau(32766, TABLE_MAIN), DuNoyau(32767, TABLE_PAR_DEFAUT)],
         [ParDefaut(lien), DuReseau(lien)] + plus, DuTunnel(p, tunnel), [])
  }

  function VueDeLaPose(q: Pose, lien: AdresseLue): Vue { Vue(q.avant + q.siennes + q.apres, q.routesAvant + [q.route] + q.routesApres, [lien]) }

  function Observee(p: Plan, tunnel: u32, lien: Famille -> AdresseLue, plus: Famille -> seq<Route>): Observation {
    Observation(Some(tunnel), VueDeLaPose(Minimale(p, Ipv4, tunnel, lien(Ipv4), plus(Ipv4)), lien(Ipv4)),
                VueDeLaPose(Minimale(p, Ipv6, tunnel, lien(Ipv6), plus(Ipv6)), lien(Ipv6)))
  }

  lemma VueObservee(p: Plan, f: Famille, tunnel: u32, lien: Famille -> AdresseLue, plus: Famille -> seq<Route>)
    ensures Observee(p, tunnel, lien, plus).VueDe(f) == VueDeLaPose(Minimale(p, f, tunnel, lien(f), plus(f)), lien(f))
    ensures Observee(p, tunnel, lien, plus).tunnel == Some(tunnel)
  {
    hide Minimale, VueDeLaPose;
  }

  lemma ReglesMinimales(p: Plan, f: Famille, exiger: bool, obs: Observation, q: Pose)
    requires PlanDuProduit(p) && q.siennes == Siennes(p, f) && obs.VueDe(f).regles == q.avant + q.siennes + q.apres
    requires q.avant == [DuNoyau(0, TABLE_LOCAL)] && q.apres == [DuNoyau(32766, TABLE_MAIN), DuNoyau(32767, TABLE_PAR_DEFAUT)]
    ensures ReglesPosees(f, p, obs, exiger, q)
  {
    PlanDuProduitBienForme(p, f);
    hide OrdreDEvaluation, PlanDuProduit, OrdreBienForme;
    var ordre := OrdreDEvaluation(p, f).value;
    assert forall r :: r in q.avant ==> r == DuNoyau(0, TABLE_LOCAL);
    assert forall r :: r in q.apres ==> r == DuNoyau(32766, TABLE_MAIN) || r == DuNoyau(32767, TABLE_PAR_DEFAUT);
    assert forall r :: r in q.avant ==> RegleDAvant(r);
    assert forall r :: r in q.apres ==> RegleDApres(r);
    assert forall j :: 0 <= j < |ordre| ==> Rendue(ordre[j], q.siennes[j], exiger);
  }

  lemma RoutesMinimales(f: Famille, p: Plan, tunnel: u32, exiger: bool, lien: AdresseLue)
    requires TableDuTunnel(p) !in TABLES_RESERVEES && |lien.adresse| == LargeurDe(f)
    ensures RouteDuSysteme(f, ParDefaut(lien), TableDuTunnel(p), [lien]) && RouteDuSysteme(f, DuReseau(lien), TableDuTunnel(p), [lien])
    ensures RouteRendue(RouteParDefaut(f, TableDuTunnel(p), p.interface), DuTunnel(p, tunnel), tunnel, exiger)
  {
    hide Masquer;
    assert RouteDAdresse(f, DuReseau(lien), lien);
  }

  /** A kernel the plan is posed on in both families, whatever the addresses of its
      link. */
  lemma PoseExiste(p: Plan, tunnel: u32, exiger: bool, lien: Famille -> AdresseLue) returns (obs: Observation, pose: Famille -> Pose)
    requires PlanDuProduit(p) && TableDuTunnel(p) !in TABLES_RESERVEES && forall f: Famille :: |lien(f).adresse| == LargeurDe(f)
    ensures forall f: Famille :: Posee(f, p, obs, exiger, pose(f))
  {
    var sans: Famille -> seq<Route> := _ => [];
    obs, pose := Observee(p, tunnel, lien, sans), f => Minimale(p, f, tunnel, lien(f), []);
    hide Observee, PlanDuProduit, ParDefaut, DuReseau, DuTunnel, DuNoyau, RouteDuSysteme, RouteRendue, ReglesPosees, Siennes, TableDuTunnel;
    forall f: Famille ensures Posee(f, p, obs, exiger, pose(f)) {
      var q := Minimale(p, f, tunnel, lien(f), []);
      assert sans(f) == [] && pose(f) == q;
      VueObservee(p, f, tunnel, lien, sans);
      ReglesMinimales(p, f, exiger, obs, q);
      RoutesMinimales(f, p, tunnel, exiger, lien(f));
      assert q.routesAvant + q.routesApres == [ParDefaut(lien(f)), DuReseau(lien(f))];
    }
  }

  /** A route to one host through a gateway of the link. */
  function Detour(f: Famille, lien: AdresseLue, dst: Adresse): Route {
    Nouvelle(TABLE_MAIN, dst, 8 * LargeurDe(f), lien.index, Some(lien.adresse), 3)
  }

  lemma DetourAutre(f: Famille, lien: AdresseLue, dst: Adresse, tunnel: u32, marque: bv32, compte: u32)
    requires lien.index != tunnel && |dst| == LargeurDe(f)
    ensures var r := Detour(f, lien, dst);
            && r.table == TABLE_MAIN && r.dstLen == 8 * LargeurDe(f) > 0 && MarcheLinux.Utilisable(r)
            && MarcheLinux.Couvre(r, MarcheLinux.Paquet([], dst, 0, None, marque, compte)) && Classer(f, r, Some(tunnel), [lien]) == Autre
  {
    FuitesLinux.SoiMeme(dst, 8 * LargeurDe(f));
    hide MemePrefixe;
  }

  lemma SeuleLongue(vue: Vue, a: Route, b: Route, r: Route, t: Route, p: MarcheLinux.Paquet)
    requires vue.routes == [a, b, r, t] && a.dstLen <= r.dstLen && b.dstLen <= r.dstLen && t.dstLen <= r.dstLen
    requires r.table == TABLE_MAIN && MarcheLinux.Utilisable(r) && MarcheLinux.Couvre(r, p)
    requires a.table != TABLE_LOCAL && b.table != TABLE_LOCAL && t.table != TABLE_LOCAL
    ensures MarcheLinux.Meilleure(vue, TABLE_MAIN, p, r)
    ensures forall x :: !MarcheLinux.Meilleure(vue, TABLE_LOCAL, p, x)
  {
    hide MarcheLinux.Utilisable, MarcheLinux.Couvre;
  }

  /** And one with a route added: to any one host, through a gateway of the link. */
  lemma IntruseExiste(p: Plan, f: Famille, tunnel: u32, exiger: bool, lien: Famille -> AdresseLue, dst: Adresse, marque: bv32, compte: u32)
    returns (obs: Observation, q: Pose, r: Route, paquet: MarcheLinux.Paquet)
    requires PlanDuProduit(p) && TableDuTunnel(p) !in TABLES_RESERVEES && lien(f).index != tunnel
    requires lien(f).prefixe <= 8 * LargeurDe(f) && |dst| == LargeurDe(f)
    requires match p.chemin case WireGuard(m, _) => marque != m case Coeur(c) => c != Some(compte)
    ensures Intruse(p, f, obs, exiger, q, r, paquet)
  {
    hide Detour, Observee, PlanDuProduit, ReglesPosees, Siennes, Classer, MarcheLinux.Couvre, MarcheLinux.Utilisable, MarcheLinux.Meilleure,
         Masquer, TableDuTunnel, DuNoyau;
    r := Detour(f, lien(f), dst);
    var plus: Famille -> seq<Route> := g => if g == f then [r] else [];
    assert plus(f) == [r];
    obs, q := Observee(p, tunnel, lien, plus), Minimale(p, f, tunnel, lien(f), [r]);
    paquet := MarcheLinux.Paquet([], dst, 0, None, marque, compte);
    DetourAutre(f, lien(f), dst, tunnel, marque, compte);
    VueObservee(p, f, tunnel, lien, plus);
    ReglesMinimales(p, f, exiger, obs, q);
    assert obs.VueDe(f).routes == [ParDefaut(lien(f)), DuReseau(lien(f)), r, DuTunnel(p, tunnel)];
    SeuleLongue(obs.VueDe(f), ParDefaut(lien(f)), DuReseau(lien(f)), r, DuTunnel(p, tunnel), paquet);
    assert DuNoyau(0, TABLE_LOCAL).action == VersTable by { NoyauVersTable(); }
  }

  lemma NoyauVersTable()
    ensures DuNoyau(0, TABLE_LOCAL).action == VersTable
  {
  }
}
