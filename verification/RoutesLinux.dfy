/**
 `prove routes` under Linux (crates/bifrost-cli/src/preuve_routes.rs): what the
 kernel returns, the legitimacy rule, and the comparison of one family with the
 product's plan. What a comparison without a difference means for the kernel's
 lookup is proved in `MarcheLinux`.
 */
module RoutesLinux {
  import opened Commun
  import opened Octets
  import opened PlanLinux
  import TriStable

  datatype Action = VersTable | Saut | Neutre | TrouNoir | Injoignable | Interdit

  /** The selectors no plan rule uses; a rule may carry any of them. */
  datatype AutresSelecteurs = AutresSelecteurs(
    src: Option<(Adresse, u8)>, dst: Option<(Adresse, u8)>, tos: u8, dscp: Option<(u8, u8)>,
    iif: Option<seq<u8>>, oif: Option<seq<u8>>, protocoleIp: Option<u8>,
    portSource: Option<(u16, u16)>, portDestination: Option<(u16, u16)>,
    masquePortSource: Option<u16>, masquePortDestination: Option<u16>,
    tunnelId: Option<u64>, l3mdev: Option<u8>, flux: Option<u32>, etiquetteFlux: Option<(u32, u32)>)

  const AUCUN_AUTRE: AutresSelecteurs :=
    AutresSelecteurs(None, None, 0, None, None, None, None, None, None, None, None, None, None, None, None)

  datatype Selecteurs = Selecteurs(marque: Option<(bv32, bv32)>, compte: Option<(u32, u32)>, autres: AutresSelecteurs)

  datatype RegleLue = RegleLue(
    pref: u32, action: Action, table: u32, inverse: bool, drapeaux: u32, selecteurs: Selecteurs,
    suppressionPrefixe: Option<u32>, suppressionGroupe: Option<u32>, cibleSaut: Option<u32>, protocole: u8)

  datatype Route = Route(
    table: u32, genre: u8, dst: Adresse, dstLen: u8, src: Adresse, srcLen: u8, tos: u8,
    protocole: u8, portee: u8, drapeaux: bv32, oif: Option<u32>, iif: Option<u32>,
    passerelle: Option<Adresse>, via: Option<seq<u8>>, multichemin: Option<seq<u8>>, prochainSaut: Option<u32>,
    encapsulation: Option<seq<u8>>, metrique: Option<u32>, sourcePreferee: Option<Adresse>,
    metriques: Option<seq<u8>>, flux: Option<u32>, preference: Option<u8>, expire: bool)

  datatype AdresseLue = AdresseLue(index: u32, prefixe: u8, adresse: Adresse)

  /** One family, rules in dump order, which is the kernel's evaluation order. */
  datatype Vue = Vue(regles: seq<RegleLue>, routes: seq<Route>, adresses: seq<AdresseLue>)

  datatype Observation = Observation(tunnel: Option<u32>, ipv4: Vue, ipv6: Vue) {
    function VueDe(f: Famille): Vue {
      match f case Ipv4 => ipv4 case Ipv6 => ipv6
    }
  }

  // ---------------------------------------------------------------------
  // The rules of the plan, as the kernel returns them.
  // ---------------------------------------------------------------------

  function SelecteursDe(s: Selecteur): Selecteurs {
    match s
    case Tout => Selecteurs(None, None, AUCUN_AUTRE)
    case HorsMarque(m) => Selecteurs(Some((m, 0xffff_ffff)), None, AUCUN_AUTRE)
    case Compte(u) => Selecteurs(None, Some((u, u)), AUCUN_AUTRE)
  }

  /** `Attendue::correspond`. */
  predicate Correspond(a: Regle, r: RegleLue, exigerEtiquette: bool) {
    && r.action == VersTable
    && r.table == a.consultation.TableConsultee()
    && r.inverse == a.selecteur.HorsMarque?
    && r.drapeaux == 0
    && r.selecteurs == SelecteursDe(a.selecteur)
    && r.suppressionPrefixe == a.consultation.Suppression()
    && r.suppressionGroupe == None
    && r.cibleSaut == None
    && (a.priorite.Some? ==> a.priorite.value == r.pref)
    && (exigerEtiquette ==> r.protocole == PROTOCOLE_PRODUIT)
  }

  /** The first expected rule that this kernel rule is. */
  function DuProduit(attendues: seq<Regle>, r: RegleLue, exigerEtiquette: bool): (j: Option<nat>)
    ensures j.Some? ==> j.value < |attendues| && Correspond(attendues[j.value], r, exigerEtiquette)
    ensures j.Some? ==> forall i :: 0 <= i < j.value ==> !Correspond(attendues[i], r, exigerEtiquette)
    ensures j.None? ==> forall i :: 0 <= i < |attendues| ==> !Correspond(attendues[i], r, exigerEtiquette)
  {
    if attendues == [] then None
    else if Correspond(attendues[0], r, exigerEtiquette) then Some(0)
    else match DuProduit(attendues[1..], r, exigerEtiquette)
      case Some(k) => Some(k + 1)
      case None => None
  }

  // ---------------------------------------------------------------------
  // The legitimacy rule.
  // ---------------------------------------------------------------------

  datatype Classe = Tunnel | LivraisonLocale | Connectee | HoteDuReseau | MultidiffusionSurLeLien | Rejet | RegleSuivante | Autre

  predicate Multidiffusion(f: Famille, r: Route) {
    match f
    case Ipv4 => r.dstLen >= 4 && |r.dst| > 0 && r.dst[0] & 0xf0 == 0xe0
    case Ipv6 => r.dstLen >= 8 && |r.dst| > 0 && r.dst[0] == 0xff
  }

  predicate Simple(r: Route) { r.multichemin.None? && r.prochainSaut.None? && r.encapsulation.None? }

  predicate Directe(r: Route) { r.passerelle.None? && r.via.None? }

  predicate SurLeLien(r: Route) { Simple(r) && Directe(r) && r.srcLen == 0 && r.iif.None? }

  /** `(dst.len() * 8) as u8`: the cast keeps eight bits. */
  function Pleine(r: Route): u8 { |r.dst| * 8 % 0x100 }

  function Classer(f: Famille, r: Route, tunnel: Option<u32>, adresses: seq<AdresseLue>): Classe {
    if 6 <= r.genre <= 8 then Rejet
    else if r.genre == 9 then RegleSuivante
    else if r.genre == 2 && Simple(r) && Directe(r) then LivraisonLocale
    else if (r.genre == 1 || 3 <= r.genre <= 5) && Simple(r) && tunnel.Some? && r.oif == tunnel then Tunnel
    else if r.genre == 1 && SurLeLien(r) && r.dstLen > 0
            && exists a | a in adresses :: r.oif == Some(a.index) && a.prefixe == r.dstLen && Masquer(a.adresse, a.prefixe) == r.dst
    then Connectee
    else if (r.genre == 4 || (r.genre == 3 && f == Ipv4)) && SurLeLien(r) && r.dstLen > 0 && r.dstLen == Pleine(r)
            && exists a | a in adresses :: r.oif == Some(a.index) && Masquer(r.dst, a.prefixe) == Masquer(a.adresse, a.prefixe)
    then HoteDuReseau
    else if r.genre == 5 && Simple(r) && Directe(r) && Multidiffusion(f, r) then MultidiffusionSurLeLien
    else Autre
  }

  datatype Jugees = Jugees(
    tunnelInterface: nat, localDelivery: nat, connected: nat, ownNetworkHost: nat,
    multicastOnLink: nat, rejecting: nat, nextRule: nat, other: nat)

  const AUCUNE_JUGEE: Jugees := Jugees(0, 0, 0, 0, 0, 0, 0, 0)

  /** The count a class is reported under. */
  function CompteDe(j: Jugees, c: Classe): nat {
    match c
    case Tunnel => j.tunnelInterface
    case LivraisonLocale => j.localDelivery
    case Connectee => j.connected
    case HoteDuReseau => j.ownNetworkHost
    case MultidiffusionSurLeLien => j.multicastOnLink
    case Rejet => j.rejecting
    case RegleSuivante => j.nextRule
    case Autre => j.other
  }

  /** A lookup of `table` under `suppression` lets this route through. */
  predicate Passe(r: Route, table: u32, suppression: Option<u32>) {
    r.table == table && !(suppression.Some? && r.dstLen <= suppression.value)
  }

  function Nombre<T>(s: seq<T>, p: T -> bool): nat {
    if s == [] then 0 else Nombre(s[..|s| - 1], p) + if p(s[|s| - 1]) then 1 else 0
  }

  lemma {:induction false} NombreNul<T>(s: seq<T>, p: T -> bool)
    ensures Nombre(s, p) == 0 <==> forall i :: 0 <= i < |s| ==> !p(s[i])
  {
    if s != [] {
      var n := |s| - 1;
      NombreNul(s[..n], p);
      assert forall i :: 0 <= i < n ==> s[..n][i] == s[i];
    }
  }

  lemma {:induction false} NombreSuivant<T>(s: seq<T>, p: T -> bool, i: nat)
    requires i < |s|
    ensures Nombre(s[..i + 1], p) == Nombre(s[..i], p) + if p(s[i]) then 1 else 0
  {
    assert s[..i + 1][..i] == s[..i];
  }

  function Comptee(f: Famille, tunnel: Option<u32>, adresses: seq<AdresseLue>,
                   table: u32, suppression: Option<u32>, c: Classe): Route -> bool
  {
    r => Passe(r, table, suppression) && Classer(f, r, tunnel, adresses) == c
  }

  function Inscrire(j: Jugees, c: Classe): (r: Jugees)
    ensures forall d :: CompteDe(r, d) == CompteDe(j, d) + if d == c then 1 else 0
  {
    match c
    case Tunnel => j.(tunnelInterface := j.tunnelInterface + 1)
    case LivraisonLocale => j.(localDelivery := j.localDelivery + 1)
    case Connectee => j.(connected := j.connected + 1)
    case HoteDuReseau => j.(ownNetworkHost := j.ownNetworkHost + 1)
    case MultidiffusionSurLeLien => j.(multicastOnLink := j.multicastOnLink + 1)
    case Rejet => j.(rejecting := j.rejecting + 1)
    case RegleSuivante => j.(nextRule := j.nextRule + 1)
    case Autre => j.(other := j.other + 1)
  }

  /** `juger`: every route the lookup lets through is counted once, under its class. */
  method Juger(f: Famille, vue: Vue, table: u32, suppression: Option<u32>, tunnel: Option<u32>, jugees0: Jugees)
    returns (jugees: Jugees)
    ensures forall c :: CompteDe(jugees, c) ==
                        CompteDe(jugees0, c) + Nombre(vue.routes, Comptee(f, tunnel, vue.adresses, table, suppression, c))
  {
    jugees := jugees0;
    for i := 0 to |vue.routes|
      invariant forall c :: CompteDe(jugees, c) ==
                            CompteDe(jugees0, c) + Nombre(vue.routes[..i], Comptee(f, tunnel, vue.adresses, table, suppression, c))
    {
      var r := vue.routes[i];
      forall c {
        NombreSuivant(vue.routes, Comptee(f, tunnel, vue.adresses, table, suppression, c), i);
      }
      if r.table == table && !(suppression.Some? && r.dstLen <= suppression.value) {
        jugees := Inscrire(jugees, Classer(f, r, tunnel, vue.adresses));
      }
    }
    assert vue.routes[..|vue.routes|] == vue.routes;
  }

  // ---------------------------------------------------------------------
  // What each category of difference stands for.
  // ---------------------------------------------------------------------

  /** Expected rule `j` is at `positions[j]` and nowhere else, in the plan's order. */
  ghost predicate ALeurPlace(attendues: seq<Regle>, regles: seq<RegleLue>, exiger: bool, positions: seq<nat>) {
    && |positions| == |attendues|
    && (forall j :: 0 <= j < |positions| ==> positions[j] < |regles|)
    && (forall i, j :: 0 <= i < |regles| && 0 <= j < |positions| ==>
          (DuProduit(attendues, regles[i], exiger) == Some(j) <==> i == positions[j]))
    && (forall j, k :: 0 <= j < k < |positions| ==> positions[j] < positions[k])
  }

  ghost predicate ReglesConformes(attendues: seq<Regle>, regles: seq<RegleLue>, exiger: bool) {
    exists positions :: ALeurPlace(attendues, regles, exiger, positions)
  }

  /** The plan's route: default, usable, onto the tunnel and nothing else. */
  predicate RouteConforme(r: Route, tunnel: Option<u32>, exiger: bool) {
    && r.drapeaux & 0x11 == 0
    && !r.expire
    && r.genre == 1 && r.dstLen == 0 && r.srcLen == 0 && r.tos == 0
    && tunnel.Some? && r.oif == tunnel && r.iif.None?
    && r.passerelle.None? && r.via.None? && Simple(r)
    && (exiger ==> r.protocole == PROTOCOLE_PRODUIT)
  }

  function DansLaTable(routes: seq<Route>, t: u32): (d: seq<Route>)
    ensures forall r :: r in d <==> r in routes && r.table == t
  {
    if routes == [] then []
    else
      assert routes == [routes[0]] + routes[1..];
      (if routes[0].table == t then [routes[0]] else []) + DansLaTable(routes[1..], t)
  }

  ghost predicate TableConforme(routes: seq<Route>, t: u32, attendues: nat, tunnel: Option<u32>, exiger: bool) {
    |DansLaTable(routes, t)| == attendues && forall r :: r in routes && r.table == t ==> RouteConforme(r, tunnel, exiger)
  }

  /** The first kernel rule that is the plan's rule to the tunnel. */
  ghost predicate EstAncre(attendues: seq<Regle>, regles: seq<RegleLue>, t: u32, exiger: bool, ancre: nat)
  {
    && ancre < |regles|
    && exists j :: 0 <= j < |attendues| && PremiereVers(attendues, t, j)
        && DuProduit(attendues, regles[ancre], exiger) == Some(j)
        && (forall i :: 0 <= i < ancre ==> DuProduit(attendues, regles[i], exiger) != Some(j))
  }

  ghost predicate PremiereVers(attendues: seq<Regle>, t: u32, j: nat) {
    && j < |attendues| && attendues[j].consultation == Table(t)
    && forall i :: 0 <= i < j ==> attendues[i].consultation != Table(t)
  }

  /** A third-party rule that can steer traffic away from the tunnel. */
  predicate EstTiers(attendues: seq<Regle>, r: RegleLue, t: u32, exiger: bool) {
    && DuProduit(attendues, r, exiger).None?
    && (r.action == Saut || (r.action == VersTable && r.table != TABLE_LOCAL && r.table != t))
  }

  /** The table, and its suppression, whose contents this rule exposes. */
  function Consultee(attendues: seq<Regle>, r: RegleLue, exiger: bool): Option<(u32, Option<u32>)> {
    match DuProduit(attendues, r, exiger)
    case Some(j) => if attendues[j].consultation == MainSansDefaut then Some((TABLE_MAIN, Some(0))) else None
    case None => if r.action == VersTable && r.table == TABLE_LOCAL then Some((TABLE_LOCAL, r.suppressionPrefixe)) else None
  }

  ghost predicate AutreExposee(f: Famille, vue: Vue, tunnel: Option<u32>, c: (u32, Option<u32>)) {
    exists r :: r in vue.routes && Passe(r, c.0, c.1) && Classer(f, r, tunnel, vue.adresses) == Autre
  }

  ghost predicate TiersAvant(attendues: seq<Regle>, regles: seq<RegleLue>, t: u32, exiger: bool, ancre: nat)
    requires ancre <= |regles|
  {
    exists i :: 0 <= i < ancre && EstTiers(attendues, regles[i], t, exiger)
  }

  ghost predicate AutreAvant(f: Famille, attendues: seq<Regle>, vue: Vue, tunnel: Option<u32>, exiger: bool, ancre: nat)
    requires ancre <= |vue.regles|
  {
    exists i :: 0 <= i < ancre && Consultee(attendues, vue.regles[i], exiger).Some?
                && AutreExposee(f, vue, tunnel, Consultee(attendues, vue.regles[i], exiger).value)
  }

  // ---------------------------------------------------------------------
  // The comparison of one family.
  // ---------------------------------------------------------------------

  datatype Categorie = ReglesProduit | ReglesAvantTunnel | TableTunnel | RoutesAvantTunnel

  datatype Ecart = Ecart(famille: Famille, categorie: Categorie)

  /** The counts of what precedes the tunnel's rule, absent without that rule. */
  datatype Observes = Observes(tiers: Option<nat>, jugees: Option<Jugees>)

  /** The indices of the kernel rules that are expected rule `j`. */
  function Trouvees(du: seq<Option<nat>>, j: nat): (t: seq<nat>)
    ensures forall i: nat :: i in t <==> i < |du| && du[i] == Some(j)
  {
    if du == [] then []
    else
      var n := |du| - 1;
      assert forall i :: 0 <= i < n ==> du[..n][i] == du[i];
      Trouvees(du[..n], j) + if du[n] == Some(j) then [n] else []
  }

  lemma {:induction false} RienTrouve(du: seq<Option<nat>>, j: nat)
    requires forall k :: 0 <= k < |du| ==> du[k] != Some(j)
    ensures Trouvees(du, j) == []
  {
    if du != [] {
      RienTrouve(du[..|du| - 1], j);
    }
  }

  lemma {:induction false} TrouveeUnique(du: seq<Option<nat>>, j: nat, i: nat)
    requires i < |du|
    requires forall k :: 0 <= k < |du| ==> (du[k] == Some(j) <==> k == i)
    ensures Trouvees(du, j) == [i]
  {
    var n := |du| - 1;
    if i == n {
      RienTrouve(du[..n], j);
    } else {
      TrouveeUnique(du[..n], j, i);
    }
  }

  predicate Voisines(positions: seq<nat>) {
    forall j :: 0 <= j < |positions| - 1 ==> positions[j] < positions[j + 1]
  }

  lemma {:induction false} VoisinesCroissantes(positions: seq<nat>, j: nat, k: nat)
    requires Voisines(positions) && j < k < |positions|
    ensures positions[j] < positions[k]
  {
    if j + 1 < k {
      VoisinesCroissantes(positions, j, k - 1);
    }
    assert positions[k - 1] < positions[(k - 1) + 1];
  }

  /** Step 1: the plan's rules, each once, in the plan's order. */
  method PlacerRegles(attendues: seq<Regle>, regles: seq<RegleLue>, exiger: bool)
    returns (conforme: bool, du: seq<Option<nat>>)
    ensures |du| == |regles| && forall i :: 0 <= i < |du| ==> du[i] == DuProduit(attendues, regles[i], exiger)
    ensures conforme <==> ReglesConformes(attendues, regles, exiger)
  {
    du := seq(|regles|, i requires 0 <= i < |regles| => DuProduit(attendues, regles[i], exiger));
    var positions: seq<nat> := [];
    var ecart := false;
    for j := 0 to |attendues|
      invariant ecart ==> exists k :: 0 <= k < j && |Trouvees(du, k)| != 1
      invariant !ecart ==> |positions| == j && forall k :: 0 <= k < j ==> Trouvees(du, k) == [positions[k]]
    {
      var trouvees := Trouvees(du, j);
      if |trouvees| == 1 {
        positions := positions + [trouvees[0]];
      } else {
        ecart := true;
      }
    }
    conforme := !ecart && Voisines(positions);
    if conforme {
      forall j, k | 0 <= j < k < |positions| ensures positions[j] < positions[k] {
        VoisinesCroissantes(positions, j, k);
      }
      forall j | 0 <= j < |positions|
        ensures positions[j] < |regles|
        ensures forall i :: 0 <= i < |regles| ==> (DuProduit(attendues, regles[i], exiger) == Some(j) <==> i == positions[j])
      {
        assert positions[j] in Trouvees(du, j);
        forall i | 0 <= i < |regles| ensures DuProduit(attendues, regles[i], exiger) == Some(j) <==> i == positions[j] {
          assert i in Trouvees(du, j) <==> du[i] == Some(j);
        }
      }
      assert ALeurPlace(attendues, regles, exiger, positions);
    }
    if ReglesConformes(attendues, regles, exiger) {
      ghost var p :| ALeurPlace(attendues, regles, exiger, p);
      forall j | 0 <= j < |p| ensures Trouvees(du, j) == [p[j]] {
        TrouveeUnique(du, j, p[j]);
      }
      assert !ecart;
      assert positions == p;
    }
  }

  function CleConsultation(c: (u32, Option<u32>)): int {
    c.0 * 0x2_0000_0000 + match c.1 case None => 0 case Some(n) => n + 1
  }

  /** `Vec::dedup`: drops an element equal to the one before it. */
  function Dedoublonner<T(==)>(s: seq<T>): seq<T> {
    if |s| < 2 then s
    else if s[0] == s[1] then Dedoublonner(s[1..])
    else [s[0]] + Dedoublonner(s[1..])
  }

  lemma {:induction false} DedoublonnerMembre<T>(s: seq<T>, x: T)
    ensures x in Dedoublonner(s) <==> x in s
  {
    if |s| >= 2 {
      DedoublonnerMembre(s[1..], x);
      assert s == [s[0]] + s[1..];
      assert s[1] in s[1..];
    }
  }

  /** The third-party rules before the anchor, and the tables consulted before it. */
  method RecenserAvant(attendues: seq<Regle>, regles: seq<RegleLue>, t: u32, exiger: bool, du: seq<Option<nat>>, ancre: nat)
    returns (tiers: nat, consultees: seq<(u32, Option<u32>)>)
    requires ancre <= |regles| == |du|
    requires forall i :: 0 <= i < |du| ==> du[i] == DuProduit(attendues, regles[i], exiger)
    ensures tiers > 0 <==> TiersAvant(attendues, regles, t, exiger, ancre)
    ensures forall c :: c in consultees ==> exists k :: 0 <= k < ancre && Consultee(attendues, regles[k], exiger) == Some(c)
    ensures forall k :: 0 <= k < ancre && Consultee(attendues, regles[k], exiger).Some? ==>
              Consultee(attendues, regles[k], exiger).value in consultees
  {
    tiers := 0;
    consultees := [];
    for i := 0 to ancre
      invariant tiers > 0 <==> exists k :: 0 <= k < i && EstTiers(attendues, regles[k], t, exiger)
      invariant forall c :: c in consultees ==> exists k :: 0 <= k < i && Consultee(attendues, regles[k], exiger) == Some(c)
      invariant forall k :: 0 <= k < i && Consultee(attendues, regles[k], exiger).Some? ==>
                  Consultee(attendues, regles[k], exiger).value in consultees
    {
      var r := regles[i];
      match du[i] {
        case Some(j) =>
          match attendues[j].consultation {
            case MainSansDefaut => consultees := consultees + [(TABLE_MAIN, Some(0))];
            case Main =>
            case Table(_) =>
          }
        case None =>
          match r.action {
            case VersTable =>
              if r.table == TABLE_LOCAL {
                consultees := consultees + [(TABLE_LOCAL, r.suppressionPrefixe)];
              } else if r.table != t {
                tiers := tiers + 1;
              }
            case Saut => tiers := tiers + 1;
            case _ =>
          }
      }
    }
  }

  method JugerConsultees(f: Famille, vue: Vue, tunnel: Option<u32>, consultees: seq<(u32, Option<u32>)>) returns (jugees: Jugees)
    ensures jugees.other > 0 <==> exists c :: c in consultees && AutreExposee(f, vue, tunnel, c)
  {
    jugees := AUCUNE_JUGEE;
    for n := 0 to |consultees|
      invariant jugees.other > 0 <==> exists k :: 0 <= k < n && AutreExposee(f, vue, tunnel, consultees[k])
    {
      var c := consultees[n];
      ghost var avant := jugees;
      jugees := Juger(f, vue, c.0, c.1, tunnel, jugees);
      assert CompteDe(jugees, Autre) ==
             CompteDe(avant, Autre) + Nombre(vue.routes, Comptee(f, tunnel, vue.adresses, c.0, c.1, Autre));
      AutreComptee(f, vue, tunnel, c);
    }
  }

  /** Step 3: what is evaluated before the rule that leads to the tunnel. */
  method ExaminerAvant(f: Famille, attendues: seq<Regle>, vue: Vue, t: u32, tunnel: Option<u32>, exiger: bool,
                       du: seq<Option<nat>>, ancre: nat)
    returns (tiers: nat, jugees: Jugees)
    requires ancre <= |vue.regles| == |du|
    requires forall i :: 0 <= i < |du| ==> du[i] == DuProduit(attendues, vue.regles[i], exiger)
    ensures tiers > 0 <==> TiersAvant(attendues, vue.regles, t, exiger, ancre)
    ensures jugees.other > 0 <==> AutreAvant(f, attendues, vue, tunnel, exiger, ancre)
  {
    var consultees;
    tiers, consultees := RecenserAvant(attendues, vue.regles, t, exiger, du, ancre);
    var distinctes := Dedoublonner(TriStable.Trier(consultees, CleConsultation));
    forall c ensures c in distinctes <==> c in consultees {
      DedoublonnerMembre(TriStable.Trier(consultees, CleConsultation), c);
      TriStable.TrierMembre(consultees, CleConsultation, c);
    }
    jugees := JugerConsultees(f, vue, tunnel, distinctes);
    if jugees.other > 0 {
      ghost var c :| c in distinctes && AutreExposee(f, vue, tunnel, c);
      assert c in consultees;
    }
    if AutreAvant(f, attendues, vue, tunnel, exiger, ancre) {
      ghost var i :| 0 <= i < ancre && Consultee(attendues, vue.regles[i], exiger).Some?
               && AutreExposee(f, vue, tunnel, Consultee(attendues, vue.regles[i], exiger).value);
      assert Consultee(attendues, vue.regles[i], exiger).value in distinctes;
    }
  }

  lemma AutreComptee(f: Famille, vue: Vue, tunnel: Option<u32>, c: (u32, Option<u32>))
    ensures Nombre(vue.routes, Comptee(f, tunnel, vue.adresses, c.0, c.1, Autre)) > 0 <==> AutreExposee(f, vue, tunnel, c)
  {
    var p := Comptee(f, tunnel, vue.adresses, c.0, c.1, Autre);
    NombreNul(vue.routes, p);
    if exists i :: 0 <= i < |vue.routes| && p(vue.routes[i]) {
      var i :| 0 <= i < |vue.routes| && p(vue.routes[i]);
      assert vue.routes[i] in vue.routes;
    }
    if AutreExposee(f, vue, tunnel, c) {
      var r :| r in vue.routes && Passe(r, c.0, c.1) && Classer(f, r, tunnel, vue.adresses) == Autre;
      assert p(r);
    }
  }

  /** The plan has an evaluation order, with a rule to its tunnel's table. */
  ghost predicate Comparable(plan: Plan, f: Famille) {
    && OrdreDEvaluation(plan, f).Some?
    && exists j :: 0 <= j < |OrdreDEvaluation(plan, f).value| && OrdreDEvaluation(plan, f).value[j].consultation == Table(TableDuTunnel(plan))
  }

  /** A rule that leads to the tunnel is there, after a third party's. */
  ghost predicate TiersDevant(f: Famille, ordre: seq<Regle>, t: u32, obs: Observation, exiger: bool) {
    exists ancre: nat :: EstAncre(ordre, obs.VueDe(f).regles, t, exiger, ancre)
                         && TiersAvant(ordre, obs.VueDe(f).regles, t, exiger, ancre)
  }

  /** A rule that leads to the tunnel is there, after a table that holds an illegitimate route. */
  ghost predicate AutreDevant(f: Famille, ordre: seq<Regle>, t: u32, obs: Observation, exiger: bool) {
    exists ancre: nat :: EstAncre(ordre, obs.VueDe(f).regles, t, exiger, ancre)
                         && AutreAvant(f, ordre, obs.VueDe(f), obs.tunnel, exiger, ancre)
  }

  /** The differences of one family, in report order. */
  function EcartsDe(f: Famille, regles: bool, table: bool, tiers: bool, routes: bool): seq<Ecart> {
    (if regles then [Ecart(f, ReglesProduit)] else [])
    + (if table then [Ecart(f, TableTunnel)] else [])
    + (if tiers then [Ecart(f, ReglesAvantTunnel)] else [])
    + (if routes then [Ecart(f, RoutesAvantTunnel)] else [])
  }

  /** No difference of any category. */
  ghost predicate FamilleConforme(f: Famille, ordre: seq<Regle>, routes: nat, t: u32, obs: Observation, exiger: bool) {
    && ReglesConformes(ordre, obs.VueDe(f).regles, exiger)
    && TableConforme(obs.VueDe(f).routes, t, routes, obs.tunnel, exiger)
    && !TiersDevant(f, ordre, t, obs, exiger)
    && !AutreDevant(f, ordre, t, obs, exiger)
  }

  lemma AncreUnique(attendues: seq<Regle>, regles: seq<RegleLue>, t: u32, exiger: bool, a: nat, b: nat)
    requires EstAncre(attendues, regles, t, exiger, a) && EstAncre(attendues, regles, t, exiger, b)
    ensures a == b
  {
  }

  /** Step 3 entire: find the rule that leads to the tunnel, then judge what precedes it. */
  method ComparerAvant(f: Famille, attendues: seq<Regle>, obs: Observation, t: u32, exiger: bool, du: seq<Option<nat>>)
    returns (r: Result<Observes>, tiersDevant: bool, autreDevant: bool)
    requires |du| == |obs.VueDe(f).regles|
    requires forall i :: 0 <= i < |du| ==> du[i] == DuProduit(attendues, obs.VueDe(f).regles[i], exiger)
    ensures r.Err? <==> forall j :: 0 <= j < |attendues| ==> attendues[j].consultation != Table(t)
    ensures r.Ok? ==> (tiersDevant <==> TiersDevant(f, attendues, t, obs, exiger))
    ensures r.Ok? ==> (autreDevant <==> AutreDevant(f, attendues, t, obs, exiger))
  {
    tiersDevant, autreDevant := false, false;
    var vue := obs.VueDe(f);
    var tunnelJ := PositionVers(attendues, t);
    if tunnelJ.None? {
      return Err("plan de routage sans regle vers le tunnel"), false, false;
    }
    var ancre := PositionDe(du, tunnelJ.value);
    if ancre.Some? {
      assert EstAncre(attendues, vue.regles, t, exiger, ancre.value);
      forall a: nat | EstAncre(attendues, vue.regles, t, exiger, a) ensures a == ancre.value {
        AncreUnique(attendues, vue.regles, t, exiger, a, ancre.value);
      }
      var tiers, jugees := ExaminerAvant(f, attendues, vue, t, obs.tunnel, exiger, du, ancre.value);
      tiersDevant, autreDevant := tiers > 0, jugees.other > 0;
      r := Ok(Observes(Some(tiers), Some(jugees)));
    } else {
      forall a: nat ensures !EstAncre(attendues, vue.regles, t, exiger, a) {
        SansAncre(attendues, vue.regles, t, exiger, du, tunnelJ.value, a);
      }
      r := Ok(Observes(None, None));
    }
  }

  /** Step 2: the tunnel's table holds the plan's routes and nothing else. */
  method ComparerTable(routes: seq<Route>, t: u32, attendues: nat, tunnel: Option<u32>, exiger: bool) returns (conforme: bool)
    ensures conforme <==> TableConforme(routes, t, attendues, tunnel, exiger)
  {
    var dansT := DansLaTable(routes, t);
    conforme := |dansT| == attendues && forall r | r in dansT :: RouteConforme(r, tunnel, exiger);
  }

  /** `comparer_famille`: the differences are appended to `ecarts0`, in the order
      the source writes them, each exactly when what it stands for holds. */
  method ComparerFamille(plan: Plan, f: Famille, obs: Observation, ecarts0: seq<Ecart>, exiger: bool)
    returns (r: Result<Observes>, ecarts: seq<Ecart>)
    ensures r.Ok? <==> Comparable(plan, f)
    ensures r.Ok? ==> ecarts == ecarts0 + EcartsFamille(plan, f, obs, exiger)
  {
    var ordre := OrdreDEvaluation(plan, f);
    if ordre.None? {
      return Err("plan de routage sans ordre d'evaluation defini"), ecarts0;
    }
    r, ecarts := ComparerOrdre(f, ordre.value, TableDuTunnel(plan), |Routes(plan.etapes, f)|, obs, ecarts0, exiger);
  }

  /** The differences between an evaluation order and the kernel. */
  ghost function EcartsAttendus(f: Famille, ordre: seq<Regle>, t: u32, routes: nat, obs: Observation, exiger: bool): seq<Ecart> {
    EcartsDe(f, !ReglesConformes(ordre, obs.VueDe(f).regles, exiger),
             !TableConforme(obs.VueDe(f).routes, t, routes, obs.tunnel, exiger),
             TiersDevant(f, ordre, t, obs, exiger), AutreDevant(f, ordre, t, obs, exiger))
  }

  ghost function EcartsFamille(plan: Plan, f: Famille, obs: Observation, exiger: bool): seq<Ecart>
    requires Comparable(plan, f)
  {
    EcartsAttendus(f, OrdreDEvaluation(plan, f).value, TableDuTunnel(plan), |Routes(plan.etapes, f)|, obs, exiger)
  }

  method ComparerOrdre(f: Famille, ordre: seq<Regle>, t: u32, routes: nat, obs: Observation, ecarts0: seq<Ecart>, exiger: bool)
    returns (r: Result<Observes>, ecarts: seq<Ecart>)
    ensures r.Err? <==> forall j :: 0 <= j < |ordre| ==> ordre[j].consultation != Table(t)
    ensures r.Ok? ==> ecarts == ecarts0 + EcartsAttendus(f, ordre, t, routes, obs, exiger)
  {
    var conforme, du := PlacerRegles(ordre, obs.VueDe(f).regles, exiger);
    var table := ComparerTable(obs.VueDe(f).routes, t, routes, obs.tunnel, exiger);
    var tiersDevant, autreDevant;
    r, tiersDevant, autreDevant := ComparerAvant(f, ordre, obs, t, exiger, du);
    ecarts := Rapporter(f, ecarts0, !conforme, !table, tiersDevant, autreDevant);
  }

  method Rapporter(f: Famille, ecarts0: seq<Ecart>, regles: bool, table: bool, tiers: bool, routes: bool) returns (ecarts: seq<Ecart>)
    ensures ecarts == ecarts0 + EcartsDe(f, regles, table, tiers, routes)
  {
    ecarts := ecarts0;
    if regles {
      ecarts := ecarts + [Ecart(f, ReglesProduit)];
    }
    if table {
      ecarts := ecarts + [Ecart(f, TableTunnel)];
    }
    if tiers {
      ecarts := ecarts + [Ecart(f, ReglesAvantTunnel)];
    }
    if routes {
      ecarts := ecarts + [Ecart(f, RoutesAvantTunnel)];
    }
  }

  /** The differences of the two families, IPv4 first. */
  ghost function EcartsDuPlan(plan: Plan, obs: Observation, exiger: bool): seq<Ecart>
    requires Comparable(plan, Ipv4) && Comparable(plan, Ipv6)
  {
    EcartsFamille(plan, Ipv4, obs, exiger) + EcartsFamille(plan, Ipv6, obs, exiger)
  }

  /** `comparer_avec`: both families, or the first error. */
  method Comparer(plan: Plan, obs: Observation, exiger: bool) returns (r: Result<seq<Ecart>>)
    ensures r.Ok? <==> Comparable(plan, Ipv4) && Comparable(plan, Ipv6)
    ensures r.Ok? ==> r.value == EcartsDuPlan(plan, obs, exiger)
  {
    hide EcartsFamille, Comparable;
    var r4, e4 := ComparerFamille(plan, Ipv4, obs, [], exiger);
    if r4.Err? {
      r := Err(r4.raison);
    } else {
      var r6, e6 := ComparerFamille(plan, Ipv6, obs, e4, exiger);
      r := if r6.Err? then Err(r6.raison) else Ok(e6);
    }
  }

  lemma SansAncre(attendues: seq<Regle>, regles: seq<RegleLue>, t: u32, exiger: bool, du: seq<Option<nat>>, j: nat, a: nat)
    requires |du| == |regles| && forall i :: 0 <= i < |du| ==> du[i] == DuProduit(attendues, regles[i], exiger)
    requires PremiereVers(attendues, t, j)
    requires forall i :: 0 <= i < |du| ==> du[i] != Some(j)
    ensures !EstAncre(attendues, regles, t, exiger, a)
  {
  }

  function PositionVers(attendues: seq<Regle>, t: u32): (j: Option<nat>)
    ensures j.Some? ==> PremiereVers(attendues, t, j.value)
    ensures j.None? ==> forall i :: 0 <= i < |attendues| ==> attendues[i].consultation != Table(t)
  {
    if attendues == [] then None
    else if attendues[0].consultation == Table(t) then Some(0)
    else match PositionVers(attendues[1..], t)
      case Some(k) => Some(k + 1)
      case None => None
  }

  function PositionDe(du: seq<Option<nat>>, j: nat): (p: Option<nat>)
    ensures p.Some? ==> p.value < |du| && du[p.value] == Some(j) && forall i :: 0 <= i < p.value ==> du[i] != Some(j)
    ensures p.None? ==> forall i :: 0 <= i < |du| ==> du[i] != Some(j)
  {
    if du == [] then None
    else if du[0] == Some(j) then Some(0)
    else match PositionDe(du[1..], j)
      case Some(k) => Some(k + 1)
      case None => None
  }
}
