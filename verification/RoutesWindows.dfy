/**
 `prove routes` under Windows: the plan (crates/bifrost-core/src/routage_windows.rs)
 and its comparison with the IP Helper tables
 (crates/bifrost-cli/src/preuve_routes_windows.rs). What the verdict means for
 the route Windows chooses is proved in `ChoixWindows`.
 */
module RoutesWindows {
  import opened Commun
  import opened PrefixesIp

  const METRIQUE_ROUTE: u32 := 0
  const METRIQUE_INTERFACE_CAPTURE: u32 := 0
  const TYPE_BOUCLE_LOCALE: nat := 24

  datatype Chemin = WireGuard | Coeur

  datatype RouteWindows = RouteWindows(destination: IpNet, metrique: u32)

  datatype LigneInterface = LigneInterface(famille: Famille, mtu: u32, sondesDad: u32, capture: bool) {
    function MetriqueImposee(): Option<u32> { if capture then Some(METRIQUE_INTERFACE_CAPTURE) else None }
  }

  datatype PlanWindows = PlanWindows(
    chemin: Chemin, interface: string, mtu: u32, lignes: seq<LigneInterface>, routes: seq<RouteWindows>)

  function RoutesMasquees(autorises: seq<IpNet>): (r: seq<RouteWindows>) {
    if autorises == [] then []
    else
      var avant := RoutesMasquees(autorises[..|autorises| - 1]);
      var route := RouteWindows(Masquer(autorises[|autorises| - 1]), METRIQUE_ROUTE);
      if route in avant then avant else avant + [route]
  }

  function ParDefaut(f: Famille): IpNet { IpNetBrut(f, seq(Largeur(f), _ => false), 0) }

  function Assembler(chemin: Chemin, interface: string, familles: seq<Famille>, routes: seq<RouteWindows>, mtu: u32): PlanWindows {
    var ligne := (f: Famille) =>
      LigneInterface(f, mtu, 0, exists r | r in routes :: r.destination.longueur == 0 && r.destination.famille == f);
    PlanWindows(chemin, interface, mtu,
                (if Ipv4 in familles then [ligne(Ipv4)] else []) + (if Ipv6 in familles then [ligne(Ipv6)] else []),
                routes)
  }

  function PlanWireGuard(interface: string, familles: seq<Famille>, autorises: seq<IpNet>, mtu: u32): PlanWindows {
    Assembler(WireGuard, interface, familles, RoutesMasquees(autorises), mtu)
  }

  function PlanCoeur(interface: string, familles: seq<Famille>, mtu: u32): PlanWindows {
    Assembler(Coeur, interface, familles,
              (if Ipv4 in familles then [RouteWindows(ParDefaut(Ipv4), METRIQUE_ROUTE)] else [])
              + (if Ipv6 in familles then [RouteWindows(ParDefaut(Ipv6), METRIQUE_ROUTE)] else []), mtu)
  }

  function RoutesDe(routes: seq<RouteWindows>, f: Famille): (r: seq<RouteWindows>)
    ensures forall a :: a in r <==> a in routes && a.destination.famille == f
  {
    if routes == [] then []
    else
      assert routes == [routes[0]] + routes[1..];
      (if routes[0].destination.famille == f then [routes[0]] else []) + RoutesDe(routes[1..], f)
  }

  function LigneDe(lignes: seq<LigneInterface>, f: Famille): (l: Option<LigneInterface>)
    ensures l.Some? ==> l.value in lignes && l.value.famille == f
    ensures l.None? ==> forall i :: 0 <= i < |lignes| ==> lignes[i].famille != f
  {
    if lignes == [] then None else if lignes[0].famille == f then Some(lignes[0]) else LigneDe(lignes[1..], f)
  }

  // ---------------------------------------------------------------------
  // What the tables hold.
  // ---------------------------------------------------------------------

  datatype RouteLue = RouteLue(interface: u64, destination: IpNet, prochainSaut: Option<Bits>, metrique: u32)

  datatype LigneLue = LigneLue(interface: u64, famille: Famille, metrique: u32, metriqueAutomatique: bool)

  datatype AdresseLue = AdresseLue(interface: u64, adresse: IpNet)

  datatype TableIpHelper = TableIpHelper(
    tunnel: Option<u64>, routes: seq<RouteLue>, lignes: seq<LigneLue>, adresses: seq<AdresseLue>)

  predicate EstBoucleLocale(luid: u64) { luid / 0x1_0000_0000_0000 == TYPE_BOUCLE_LOCALE }

  /** The first interface line read for a family. */
  function LigneLueDe(lignes: seq<LigneLue>, interface: u64, f: Famille): (l: Option<LigneLue>)
    ensures l.Some? ==> l.value in lignes && l.value.interface == interface && l.value.famille == f
    ensures l.None? ==> forall i :: 0 <= i < |lignes| ==> lignes[i].interface != interface || lignes[i].famille != f
  {
    if lignes == [] then None
    else if lignes[0].interface == interface && lignes[0].famille == f then Some(lignes[0])
    else LigneLueDe(lignes[1..], interface, f)
  }

  /** The tunnel route that carries a destination of the plan: exact
      destination, on the link, the first one read. */
  function RouteDuPlan(routes: seq<RouteLue>, tunnel: u64, d: IpNet): (r: Option<RouteLue>)
    ensures r.Some? ==> r.value in routes && r.value.interface == tunnel && r.value.destination == d && r.value.prochainSaut.None?
    ensures r.None? ==> forall i :: 0 <= i < |routes| ==>
              !(routes[i].interface == tunnel && routes[i].destination == d && routes[i].prochainSaut.None?)
  {
    if routes == [] then None
    else if routes[0].interface == tunnel && routes[0].destination == d && routes[0].prochainSaut.None? then Some(routes[0])
    else RouteDuPlan(routes[1..], tunnel, d)
  }

  // ---------------------------------------------------------------------
  // The legitimacy rule.
  // ---------------------------------------------------------------------

  datatype Classe = LivraisonLocale | Connectee | HoteDuReseau | MultidiffusionSurLeLien | DiffusionLimitee | Autre

  /** First byte of the address: `1110` in IPv4, all ones in IPv6. */
  predicate AdresseMulticast(f: Famille, b: Bits)
    requires |b| == Largeur(f)
  {
    match f
    case Ipv4 => b[0] && b[1] && b[2] && !b[3]
    case Ipv6 => forall i :: 0 <= i < 8 ==> b[i]
  }

  predicate Multidiffusion(n: IpNet) {
    n.longueur >= (match n.famille case Ipv4 => 4 case Ipv6 => 8) && AdresseMulticast(n.famille, n.bits)
  }

  predicate Pleine(n: IpNet) { n.longueur == Largeur(n.famille) }

  predicate DuLien(a: AdresseLue, r: RouteLue) { a.interface == r.interface }

  function Classer(r: RouteLue, adresses: seq<AdresseLue>): Classe {
    var d := r.destination;
    if EstBoucleLocale(r.interface) then LivraisonLocale
    else if r.prochainSaut.Some? then Autre
    else if Pleine(d) && exists a | a in adresses :: DuLien(a, r) && a.adresse.famille == d.famille && a.adresse.bits == d.bits
    then LivraisonLocale
    else if d.longueur > 0 && exists a | a in adresses :: DuLien(a, r) && a.adresse.longueur == d.longueur && Masquer(a.adresse) == Masquer(d)
    then Connectee
    else if Pleine(d) && exists a | a in adresses :: DuLien(a, r) && a.adresse.longueur > 0 && Contient(Masquer(a.adresse), d)
    then HoteDuReseau
    else if Multidiffusion(d) then MultidiffusionSurLeLien
    else if d.famille == Ipv4 && d.longueur == 32 && forall i :: 0 <= i < 32 ==> d.bits[i] then DiffusionLimitee
    else Autre
  }

  datatype Jugees = Jugees(localDelivery: nat, connected: nat, ownNetworkHost: nat, multicastOnLink: nat,
                           limitedBroadcast: nat, planDirectedBroadcast: nat, other: nat)

  const AUCUNE_JUGEE: Jugees := Jugees(0, 0, 0, 0, 0, 0, 0)

  /** The count a class is reported under. */
  function CompteDe(j: Jugees, c: Classe): nat {
    match c
    case LivraisonLocale => j.localDelivery
    case Connectee => j.connected
    case HoteDuReseau => j.ownNetworkHost
    case MultidiffusionSurLeLien => j.multicastOnLink
    case DiffusionLimitee => j.limitedBroadcast
    case Autre => j.other
  }

  method Juger(classe: Classe, j0: Jugees) returns (j: Jugees)
    ensures forall c :: CompteDe(j, c) == CompteDe(j0, c) + if c == classe then 1 else 0
    ensures j.planDirectedBroadcast == j0.planDirectedBroadcast
    ensures j.other == j0.other + if classe == Autre then 1 else 0
  {
    match classe {
      case LivraisonLocale => j := j0.(localDelivery := j0.localDelivery + 1);
      case Connectee => j := j0.(connected := j0.connected + 1);
      case HoteDuReseau => j := j0.(ownNetworkHost := j0.ownNetworkHost + 1);
      case MultidiffusionSurLeLien => j := j0.(multicastOnLink := j0.multicastOnLink + 1);
      case DiffusionLimitee => j := j0.(limitedBroadcast := j0.limitedBroadcast + 1);
      case Autre => j := j0.(other := j0.other + 1);
    }
  }

  // ---------------------------------------------------------------------
  // The comparison of one family.
  // ---------------------------------------------------------------------

  /** `max_by_key` on the prefix length among the plan's routes that contain
      `d`: the last of the longest. */
  function PlusSpecifique(attendues: seq<RouteWindows>, d: IpNet): (p: Option<RouteWindows>)
    ensures p.Some? ==> p.value in attendues && Contient(p.value.destination, d)
    ensures p.Some? ==> forall a :: a in attendues && Contient(a.destination, d) ==>
              a.destination.longueur <= p.value.destination.longueur
    ensures p.None? ==> forall a :: a in attendues ==> !Contient(a.destination, d)
  {
    if attendues == [] then None
    else
      var n := |attendues| - 1;
      assert attendues == attendues[..n] + [attendues[n]];
      var avant := PlusSpecifique(attendues[..n], d);
      if !Contient(attendues[n].destination, d) then avant
      else if avant.Some? && avant.value.destination.longueur > attendues[n].destination.longueur then avant
      else Some(attendues[n])
  }

  function Effective(lignes: seq<LigneLue>, f: Famille, r: RouteLue): Option<nat> {
    match LigneLueDe(lignes, r.interface, f)
    case Some(l) => Some(r.metrique + l.metrique)
    case None => None
  }

  /** Against the plan: `Some(true)` it wins, `Some(false)` it loses, `None` undecided. */
  datatype Issue = SansObjet | Gagne | Perd | Indecise

  function IssueContre(attendues: seq<RouteWindows>, t: TableIpHelper, tunnel: u64, f: Famille, r: RouteLue): Issue {
    match PlusSpecifique(attendues, r.destination)
    case None => SansObjet
    case Some(p) =>
      if r.destination.longueur > p.destination.longueur then Gagne
      else
        var duTunnel := match RouteDuPlan(t.routes, tunnel, p.destination)
                        case Some(rt) => Effective(t.lignes, f, rt)
                        case None => None;
        match (Effective(t.lignes, f, r), duTunnel)
        case (Some(autre), Some(tunnel)) => if autre == tunnel then Indecise else if autre < tunnel then Gagne else Perd
        case _ => Gagne
  }

  predicate DuPlan(attendues: seq<RouteWindows>, r: RouteLue) {
    r.prochainSaut.None? && exists a | a in attendues :: a.destination == r.destination
  }

  predicate DiffusionDuPlan(attendues: seq<RouteWindows>, r: RouteLue) {
    r.prochainSaut.None? && exists a | a in attendues :: DiffusionDirigee(a.destination) == Some(r.destination)
  }

  ghost predicate RouteDuPlanAbsente(attendues: seq<RouteWindows>, t: TableIpHelper, tunnel: u64) {
    exists a :: a in attendues && RouteDuPlan(t.routes, tunnel, a.destination).None?
  }

  ghost predicate MetriqueDifferente(attendues: seq<RouteWindows>, t: TableIpHelper, tunnel: u64) {
    exists a :: a in attendues && AutreMetrique(a, t, tunnel)
  }

  predicate AutreMetrique(a: RouteWindows, t: TableIpHelper, tunnel: u64) {
    var r := RouteDuPlan(t.routes, tunnel, a.destination);
    r.Some? && r.value.metrique != a.metrique
  }

  predicate LigneDifferente(ligne: Option<LigneInterface>, t: TableIpHelper, tunnel: u64, f: Famille) {
    && ligne.Some? && ligne.value.MetriqueImposee().Some?
    && var l := LigneLueDe(t.lignes, tunnel, f);
       !(l.Some? && !l.value.metriqueAutomatique && l.value.metrique == ligne.value.MetriqueImposee().value)
  }

  /** A route of the tunnel outside the plan and outside every admitted class. */
  predicate EnTrop(attendues: seq<RouteWindows>, t: TableIpHelper, tunnel: u64, f: Famille, r: RouteLue) {
    && r.interface == tunnel && r.destination.famille == f
    && !DuPlan(attendues, r) && !DiffusionDuPlan(attendues, r)
    && Classer(r, t.adresses) == Autre
  }

  /** An illegitimate route of another interface, with a given outcome. */
  predicate AutreIssue(attendues: seq<RouteWindows>, t: TableIpHelper, tunnel: u64, f: Famille, issue: Issue, r: RouteLue) {
    && r.interface != tunnel && r.destination.famille == f
    && IssueContre(attendues, t, tunnel, f, r) == issue
    && Classer(r, t.adresses) == Autre
  }

  datatype Categorie = PlanAbsente | MetriqueDeRoute | MetriqueDInterface | RouteEnTrop | RouteConcurrente

  datatype Ecart = InterfaceAbsente | Ecart(famille: Famille, categorie: Categorie)

  /** The counts of a family that decide the verdict. */
  datatype Observes = Observes(trouvees: nat, tunnelOther: Jugees, winning: Jugees, tied: Jugees)

  ghost predicate TunnelEnTrop(attendues: seq<RouteWindows>, t: TableIpHelper, tunnel: u64, f: Famille) {
    exists r :: r in t.routes && EnTrop(attendues, t, tunnel, f, r)
  }

  ghost predicate AutreAvecIssue(attendues: seq<RouteWindows>, t: TableIpHelper, tunnel: u64, f: Famille, issue: Issue) {
    exists r :: r in t.routes && AutreIssue(attendues, t, tunnel, f, issue, r)
  }

  /** The differences that are present, in order. */
  function Retenir(candidats: seq<(bool, Ecart)>): seq<Ecart> {
    if candidats == [] then []
    else
      var n := |candidats| - 1;
      Retenir(candidats[..n]) + if candidats[n].0 then [candidats[n].1] else []
  }

  lemma {:induction false} RienRetenu(candidats: seq<(bool, Ecart)>)
    ensures Retenir(candidats) == [] <==> forall i :: 0 <= i < |candidats| ==> !candidats[i].0
  {
    if candidats != [] {
      var n := |candidats| - 1;
      RienRetenu(candidats[..n]);
      assert forall i :: 0 <= i < n ==> candidats[..n][i] == candidats[i];
    }
  }

  /** The categories of one family, in report order. */
  function Candidats(f: Famille, absente: bool, metrique: bool, ligne: bool, enTrop: bool, concurrente: bool): seq<(bool, Ecart)> {
    [(absente, Ecart(f, PlanAbsente)), (metrique, Ecart(f, MetriqueDeRoute)), (ligne, Ecart(f, MetriqueDInterface)),
     (enTrop, Ecart(f, RouteEnTrop)), (concurrente, Ecart(f, RouteConcurrente))]
  }

  ghost function EcartsFamille(plan: PlanWindows, f: Famille, t: TableIpHelper, tunnel: u64): seq<Ecart> {
    var attendues := RoutesDe(plan.routes, f);
    Retenir(Candidats(f, RouteDuPlanAbsente(attendues, t, tunnel), MetriqueDifferente(attendues, t, tunnel),
             LigneDifferente(LigneDe(plan.lignes, f), t, tunnel, f),
             TunnelEnTrop(attendues, t, tunnel, f), AutreAvecIssue(attendues, t, tunnel, f, Gagne)))
  }

  /** Some illegitimate route of another interface ties with the plan's. */
  ghost predicate EgaliteIndecise(plan: PlanWindows, f: Famille, t: TableIpHelper, tunnel: u64) {
    AutreAvecIssue(RoutesDe(plan.routes, f), t, tunnel, f, Indecise)
  }

  /** Step 1: the plan's routes, and their metric. */
  method ChercherLePlan(attendues: seq<RouteWindows>, t: TableIpHelper, tunnel: u64)
    returns (absente: bool, metrique: bool, trouvees: nat)
    ensures absente <==> RouteDuPlanAbsente(attendues, t, tunnel)
    ensures metrique <==> MetriqueDifferente(attendues, t, tunnel)
    ensures trouvees <= |attendues| && (trouvees == |attendues| <==> !absente)
  {
    absente, metrique, trouvees := false, false, 0;
    for i := 0 to |attendues|
      invariant absente <==> exists k :: 0 <= k < i && RouteDuPlan(t.routes, tunnel, attendues[k].destination).None?
      invariant metrique <==> exists k :: 0 <= k < i && AutreMetrique(attendues[k], t, tunnel)
      invariant trouvees <= i && (trouvees == i <==> !absente)
    {
      var a := attendues[i];
      match RouteDuPlan(t.routes, tunnel, a.destination) {
        case None => absente := true;
        case Some(r) =>
          trouvees := trouvees + 1;
          if r.metrique != a.metrique {
            metrique := true;
          }
      }
    }
  }

  /** Step 3: what the tunnel carries beyond the plan. */
  method JugerLeTunnel(attendues: seq<RouteWindows>, t: TableIpHelper, tunnel: u64, f: Famille) returns (enTrop: Jugees)
    ensures enTrop.other > 0 <==> TunnelEnTrop(attendues, t, tunnel, f)
  {
    hide Classer, DuPlan, DiffusionDuPlan;
    enTrop := AUCUNE_JUGEE;
    for i := 0 to |t.routes|
      invariant enTrop.other > 0 <==> exists k :: 0 <= k < i && EnTrop(attendues, t, tunnel, f, t.routes[k])
    {
      var r := t.routes[i];
      if r.destination.famille != f || r.interface != tunnel || DuPlan(attendues, r) {
        continue;
      }
      if DiffusionDuPlan(attendues, r) {
        enTrop := enTrop.(planDirectedBroadcast := enTrop.planDirectedBroadcast + 1);
      } else {
        enTrop := Juger(Classer(r, t.adresses), enTrop);
      }
    }
  }

  /** Step 4: the routes of the other interfaces, against the plan's. */
  method JugerLesAutres(attendues: seq<RouteWindows>, t: TableIpHelper, tunnel: u64, f: Famille)
    returns (gagnantes: Jugees, egales: Jugees)
    ensures gagnantes.other > 0 <==> AutreAvecIssue(attendues, t, tunnel, f, Gagne)
    ensures egales.other > 0 <==> AutreAvecIssue(attendues, t, tunnel, f, Indecise)
  {
    hide Classer, IssueContre;
    gagnantes, egales := AUCUNE_JUGEE, AUCUNE_JUGEE;
    for i := 0 to |t.routes|
      invariant gagnantes.other > 0 <==> exists k :: 0 <= k < i && AutreIssue(attendues, t, tunnel, f, Gagne, t.routes[k])
      invariant egales.other > 0 <==> exists k :: 0 <= k < i && AutreIssue(attendues, t, tunnel, f, Indecise, t.routes[k])
    {
      var r := t.routes[i];
      if r.destination.famille != f || r.interface == tunnel {
        continue;
      }
      match IssueContre(attendues, t, tunnel, f, r) {
        case SansObjet =>
        case Gagne => gagnantes := Juger(Classer(r, t.adresses), gagnantes);
        case Indecise => egales := Juger(Classer(r, t.adresses), egales);
        case Perd =>
      }
    }
  }

  method ComparerFamille(plan: PlanWindows, f: Famille, t: TableIpHelper, tunnel: u64, ecarts0: seq<Ecart>)
    returns (o: Observes, ecarts: seq<Ecart>)
    ensures ecarts == ecarts0 + EcartsFamille(plan, f, t, tunnel)
    ensures o.tied.other > 0 <==> EgaliteIndecise(plan, f, t, tunnel)
  {
    hide RouteDuPlanAbsente, MetriqueDifferente, LigneDifferente, TunnelEnTrop, AutreAvecIssue, Retenir, Candidats;
    var attendues := RoutesDe(plan.routes, f);
    var absente, metrique, trouvees := ChercherLePlan(attendues, t, tunnel);
    var ligne := LigneDifferente(LigneDe(plan.lignes, f), t, tunnel, f);
    var enTrop := JugerLeTunnel(attendues, t, tunnel, f);
    var gagnantes, egales := JugerLesAutres(attendues, t, tunnel, f);
    ecarts := Rapporter(ecarts0, Candidats(f, absente, metrique, ligne, enTrop.other > 0, gagnantes.other > 0));
    o := Observes(trouvees, enTrop, gagnantes, egales);
  }

  method Rapporter(ecarts0: seq<Ecart>, candidats: seq<(bool, Ecart)>) returns (ecarts: seq<Ecart>)
    ensures ecarts == ecarts0 + Retenir(candidats)
  {
    ecarts := ecarts0;
    for i := 0 to |candidats|
      invariant ecarts == ecarts0 + Retenir(candidats[..i])
    {
      assert candidats[..i + 1][..i] == candidats[..i];
      if candidats[i].0 {
        ecarts := ecarts + [candidats[i].1];
      }
    }
    assert candidats[..|candidats|] == candidats;
  }

  // ---------------------------------------------------------------------
  // The verdict.
  // ---------------------------------------------------------------------

  datatype Verdict = Match | Mismatch(ecarts: seq<Ecart>) | Unmeasured(raison: string)

  ghost function EcartsDuPlan(plan: PlanWindows, t: TableIpHelper): seq<Ecart> {
    match t.tunnel
    case None => [InterfaceAbsente]
    case Some(tunnel) => EcartsFamille(plan, Ipv4, t, tunnel) + EcartsFamille(plan, Ipv6, t, tunnel)
  }

  ghost predicate VerdictIndecis(plan: PlanWindows, t: TableIpHelper) {
    t.tunnel.Some? && (EgaliteIndecise(plan, Ipv4, t, t.tunnel.value) || EgaliteIndecise(plan, Ipv6, t, t.tunnel.value))
  }

  /** `comparer`, then `conclure`: a difference prevails, an undecided tie
      without a difference leaves the verdict unmeasured. */
  method Conclure(plan: PlanWindows, t: TableIpHelper) returns (v: Verdict)
    ensures v.Match? <==> EcartsDuPlan(plan, t) == [] && !VerdictIndecis(plan, t)
    ensures v.Mismatch? <==> EcartsDuPlan(plan, t) != []
    ensures v.Mismatch? ==> v.ecarts == EcartsDuPlan(plan, t)
  {
    hide EcartsFamille, EgaliteIndecise;
    if t.tunnel.None? {
      return Mismatch([InterfaceAbsente]);
    }
    var tunnel := t.tunnel.value;
    var o4, e4 := ComparerFamille(plan, Ipv4, t, tunnel, []);
    var o6, e6 := ComparerFamille(plan, Ipv6, t, tunnel, e4);
    if e6 == [] && (o4.tied.other > 0 || o6.tied.other > 0) {
      v := Unmeasured("egalite de metrique effective");
    } else if e6 == [] {
      v := Match;
    } else {
      v := Mismatch(e6);
    }
  }
}
