/**
 The kernel's lookup, as the header of crates/bifrost-cli/src/preuve_routes.rs
 describes it: policy rules in order, each with its selector; a rule that
 consults a table takes the decision of that table unless its suppression
 rejects it; `throw` goes on to the next rule. What the kernel decides beyond
 that (the route picked among the matching ones, third-party selectors, goto
 targets, group suppression) is left to an arbitrary `Noyau`.
 */
module MarcheLinux {
  import opened Commun
  import opened Octets
  import opened PlanLinux
  import opened RoutesLinux

  datatype Paquet = Paquet(src: Adresse, dst: Adresse, tos: u8, iif: Option<u32>, marque: bv32, compte: u32)

  predicate PaquetDe(f: Famille, p: Paquet) { |p.dst| == LargeurDe(f) }

  datatype Noyau = Noyau(
    divers: (AutresSelecteurs, u32) -> bool,
    choix: nat -> Option<Route>,
    cible: nat -> Option<nat>,
    groupe: nat -> bool,
    rejetSupprime: nat -> bool)

  /** What a plan selector takes. */
  predicate Prend(s: Selecteur, p: Paquet) {
    match s
    case Tout => true
    case HorsMarque(m) => p.marque != m
    case Compte(u) => p.compte == u
  }

  /** The mark and the account a rule selects. */
  predicate PrendMarqueEtCompte(s: Selecteurs, marque: bv32, compte: u32) {
    && (s.marque.Some? ==> marque & s.marque.value.1 == s.marque.value.0)
    && (s.compte.Some? ==> s.compte.value.0 <= compte <= s.compte.value.1)
  }

  predicate Selectionne(r: RegleLue, p: Paquet, k: Noyau) {
    (PrendMarqueEtCompte(r.selecteurs, p.marque, p.compte) && k.divers(r.selecteurs.autres, r.drapeaux)) != r.inverse
  }

  /** The route can carry the packet. */
  ghost predicate Couvre(r: Route, p: Paquet) {
    && (r.dstLen > 0 ==> MemePrefixe(r.dst, p.dst, r.dstLen))
    && (r.srcLen > 0 ==> MemePrefixe(r.src, p.src, r.srcLen))
    && (r.tos != 0 ==> r.tos == p.tos)
    && (r.iif.Some? ==> r.iif == p.iif)
  }

  /** No flag lets the kernel ignore the route. */
  predicate Utilisable(r: Route) { r.drapeaux & 0x11 == 0 && !r.expire }

  /** A lookup returns some matching route of its table, and none only when no
      usable one matches; a goto jumps forward. */
  ghost predicate NoyauPossible(vue: Vue, p: Paquet, k: Noyau) {
    && k.divers(AUCUN_AUTRE, 0)
    && (forall i: nat :: i < |vue.regles| && vue.regles[i].action == VersTable ==>
          match k.choix(i)
          case Some(r) => r in vue.routes && r.table == vue.regles[i].table && Couvre(r, p)
          case None => forall r :: r in vue.routes && r.table == vue.regles[i].table && Couvre(r, p) ==> !Utilisable(r))
    && (forall i: nat :: i < |vue.regles| && k.cible(i).Some? ==> i < k.cible(i).value <= |vue.regles|)
  }

  datatype Issue = Suite | Sortie(route: Route) | Refus | FinDesRegles

  function IssueDe(r: RegleLue, i: nat, p: Paquet, k: Noyau): Issue {
    if !Selectionne(r, p, k) then Suite
    else match r.action
      case VersTable => (
        match k.choix(i)
        case None => Suite
        case Some(route) =>
          if route.genre == 9 then Suite
          else if 6 <= route.genre <= 8 then
            if r.suppressionPrefixe.Some? && route.dstLen <= r.suppressionPrefixe.value && k.rejetSupprime(i) then Suite
            else Refus
          else if r.suppressionPrefixe.Some? && route.dstLen <= r.suppressionPrefixe.value then Suite
          else if r.suppressionGroupe.Some? && k.groupe(i) then Suite
          else Sortie(route))
      case Saut => Suite
      case Neutre => Suite
      case TrouNoir => Refus
      case Injoignable => Refus
      case Interdit => Refus
  }

  /** The walk from rule `i`: its outcome and the rule that decided it. */
  function Marche(regles: seq<RegleLue>, p: Paquet, k: Noyau, i: nat): (Issue, nat)
    decreases |regles| - i
  {
    if i >= |regles| then (FinDesRegles, i)
    else if regles[i].action == Saut && Selectionne(regles[i], p, k)
            && k.cible(i).Some? && i < k.cible(i).value <= |regles|
    then Marche(regles, p, k, k.cible(i).value)
    else match IssueDe(regles[i], i, p, k)
      case Suite => Marche(regles, p, k, i + 1)
      case autre => (autre, i)
  }

  // ---------------------------------------------------------------------
  // What an admitted class means for the packet.
  // ---------------------------------------------------------------------

  predicate DestinationMulticast(f: Famille, dst: Adresse) {
    |dst| > 0 && match f case Ipv4 => dst[0] & 0xf0 == 0xe0 case Ipv6 => dst[0] == 0xff
  }

  /** The packet's destination lies in the network of an address held by the
      interface the route emits on. */
  ghost predicate DansUnReseauDuLien(r: Route, p: Paquet, adresses: seq<AdresseLue>) {
    exists a :: a in adresses && r.oif == Some(a.index) && MemePrefixe(p.dst, a.adresse, a.prefixe)
  }

  /** A connected route only emits towards a network of its own interface. */
  lemma ConnecteeDansLeReseau(f: Famille, r: Route, p: Paquet, tunnel: Option<u32>, adresses: seq<AdresseLue>)
    requires Couvre(r, p) && Classer(f, r, tunnel, adresses) == Connectee
    ensures DansUnReseauDuLien(r, p, adresses)
  {
  }

  lemma PrefixeTransitif(a: Adresse, b: Adresse, c: Adresse, n: nat)
    requires MemePrefixe(b, a, n) && MemePrefixe(b, c, n)
    ensures MemePrefixe(a, c, n)
  {
  }

  /** A host route of the link's network only emits towards that network. */
  lemma HoteDansLeReseau(f: Famille, r: Route, p: Paquet, tunnel: Option<u32>, adresses: seq<AdresseLue>)
    requires PaquetDe(f, p)
    requires Couvre(r, p) && Classer(f, r, tunnel, adresses) == HoteDuReseau
    ensures DansUnReseauDuLien(r, p, adresses)
  {
    var a :| a in adresses && r.oif == Some(a.index) && Masquer(r.dst, a.prefixe) == Masquer(a.adresse, a.prefixe);
    MasquesEgaux(r.dst, a.adresse, a.prefixe);
    assert r.dstLen == 8 * |r.dst|;
    forall k: nat | k < a.prefixe && k < 8 * |r.dst| ensures Bit(r.dst, k) == Bit(p.dst, k) {
    }
    PrefixeTransitif(p.dst, r.dst, a.adresse, a.prefixe);
  }

  lemma MulticastSurLeLien(f: Famille, r: Route, p: Paquet)
    requires Couvre(r, p) && Multidiffusion(f, r)
    ensures DestinationMulticast(f, p.dst)
  {
    var n := if f == Ipv4 then 4 else 8;
    PremierOctet(r.dst, p.dst, n);
    OctetMasque(r.dst[0], p.dst[0], n);
  }

  // ---------------------------------------------------------------------
  // Soundness of a comparison without a difference.
  // ---------------------------------------------------------------------

  /** An emission the product accepts. Where the route emits is read: one next hop,
      no object, no encapsulation. It is the tunnel's interface; or, without a
      gateway, the host itself, a network of the emitting interface, or multicast (a
      named limit). */
  ghost predicate EmissionLegitime(f: Famille, r: Route, p: Paquet, obs: Observation) {
    && Simple(r)
    && (|| (obs.tunnel.Some? && r.oif == obs.tunnel)
        || (Directe(r) && (r.genre == 2 || DansUnReseauDuLien(r, p, obs.VueDe(f).adresses) || DestinationMulticast(f, p.dst))))
  }

  ghost predicate IssueSure(f: Famille, issue: Issue, p: Paquet, obs: Observation) {
    match issue
    case Sortie(r) =>
      && Classer(f, r, obs.tunnel, obs.VueDe(f).adresses) != Autre
      && EmissionLegitime(f, r, p, obs)
    case Refus => true
    case Suite => false
    case FinDesRegles => false
  }

  lemma ClasseAdmiseLegitime(f: Famille, r: Route, p: Paquet, obs: Observation)
    requires PaquetDe(f, p) && Couvre(r, p)
    requires r.genre != 9 && !(6 <= r.genre <= 8)
    requires Classer(f, r, obs.tunnel, obs.VueDe(f).adresses) != Autre
    ensures EmissionLegitime(f, r, p, obs)
  {
    match Classer(f, r, obs.tunnel, obs.VueDe(f).adresses) {
      case Connectee => ConnecteeDansLeReseau(f, r, p, obs.tunnel, obs.VueDe(f).adresses);
      case HoteDuReseau => HoteDansLeReseau(f, r, p, obs.tunnel, obs.VueDe(f).adresses);
      case MultidiffusionSurLeLien => MulticastSurLeLien(f, r, p);
      case _ =>
    }
  }

  lemma SelecteurDuPlan(a: Regle, r: RegleLue, exiger: bool, p: Paquet, k: Noyau)
    requires Correspond(a, r, exiger) && k.divers(AUCUN_AUTRE, 0)
    ensures Selectionne(r, p, k) <==> Prend(a.selecteur, p)
  {
  }

  /** Rule `j` of the plan takes the packet to the tunnel: it is the first that leads
      there, and of the rules before it only those that spare the LAN may take it. */
  ghost predicate TunnelPar(ordre: seq<Regle>, t: u32, p: Paquet, j: nat) {
    && PremiereVers(ordre, t, j) && Prend(ordre[j].selecteur, p)
    && forall i :: 0 <= i < j && ordre[i].consultation != MainSansDefaut ==> !Prend(ordre[i].selecteur, p)
  }

  /** The packets the plan sends to the tunnel. */
  ghost predicate PourLeTunnel(ordre: seq<Regle>, t: u32, p: Paquet) {
    exists j: nat :: TunnelPar(ordre, t, p, j)
  }

  /** What a rule before the tunnel's can do to a packet. */
  lemma RegleAvant(f: Famille, ordre: seq<Regle>, t: u32, obs: Observation, exiger: bool, routes: nat,
                   j: nat, i: nat, p: Paquet, k: Noyau)
    requires PaquetDe(f, p) && TunnelPar(ordre, t, p, j)
    requires NoyauPossible(obs.VueDe(f), p, k)
    requires i < |obs.VueDe(f).regles|
    requires var du := DuProduit(ordre, obs.VueDe(f).regles[i], exiger); du.Some? ==> du.value < j
    requires TableConforme(obs.VueDe(f).routes, t, routes, obs.tunnel, exiger)
    requires !EstTiers(ordre, obs.VueDe(f).regles[i], t, exiger)
    requires Consultee(ordre, obs.VueDe(f).regles[i], exiger).Some? ==>
               !AutreExposee(f, obs.VueDe(f), obs.tunnel, Consultee(ordre, obs.VueDe(f).regles[i], exiger).value)
    ensures obs.VueDe(f).regles[i].action != Saut
    ensures var issue := IssueDe(obs.VueDe(f).regles[i], i, p, k); issue == Suite || IssueSure(f, issue, p, obs)
  {
    var vue := obs.VueDe(f);
    var r := vue.regles[i];
    var du := DuProduit(ordre, r, exiger);
    if du.Some? {
      SelecteurDuPlan(ordre[du.value], r, exiger, p, k);
    }
    match IssueDe(r, i, p, k) {
      case Sortie(route) =>
        assert route in vue.routes && route.table == r.table && Couvre(route, p);
        if route.table == t && du.None? {
          assert RouteConforme(route, obs.tunnel, exiger);
        } else {
          var c := Consultee(ordre, r, exiger);
          assert c.Some? && Passe(route, c.value.0, c.value.1);
          ClasseAdmiseLegitime(f, route, p, obs);
        }
      case _ =>
    }
  }

  /** The plan's own rule to the tunnel always decides. */
  lemma RegleDuTunnel(f: Famille, ordre: seq<Regle>, t: u32, obs: Observation, exiger: bool, routes: nat,
                      j: nat, ancre: nat, p: Paquet, k: Noyau)
    requires TunnelPar(ordre, t, p, j) && NoyauPossible(obs.VueDe(f), p, k)
    requires ancre < |obs.VueDe(f).regles| && DuProduit(ordre, obs.VueDe(f).regles[ancre], exiger) == Some(j)
    requires routes > 0 && TableConforme(obs.VueDe(f).routes, t, routes, obs.tunnel, exiger)
    ensures obs.VueDe(f).regles[ancre].action == VersTable
    ensures var issue := IssueDe(obs.VueDe(f).regles[ancre], ancre, p, k);
            issue.Sortie? && IssueSure(f, issue, p, obs) && obs.tunnel.Some? && issue.route.oif == obs.tunnel
  {
    var vue := obs.VueDe(f);
    SelecteurDuPlan(ordre[j], vue.regles[ancre], exiger, p, k);
    var d := DansLaTable(vue.routes, t);
    assert d[0] in d;
    assert RouteConforme(d[0], obs.tunnel, exiger) && Couvre(d[0], p) && Utilisable(d[0]);
    assert k.choix(ancre).Some?;
    assert RouteConforme(k.choix(ancre).value, obs.tunnel, exiger);
  }

  /** Nothing at or before the anchor leads away from the tunnel. */
  ghost predicate VoieLibre(f: Famille, ordre: seq<Regle>, t: u32, obs: Observation, exiger: bool, j: nat, ancre: nat) {
    var regles := obs.VueDe(f).regles;
    && ancre < |regles| && DuProduit(ordre, regles[ancre], exiger) == Some(j)
    && !TiersAvant(ordre, regles, t, exiger, ancre)
    && !AutreAvant(f, ordre, obs.VueDe(f), obs.tunnel, exiger, ancre)
    && forall i :: 0 <= i < ancre && DuProduit(ordre, regles[i], exiger).Some? ==> DuProduit(ordre, regles[i], exiger).value < j
  }

  lemma {:induction false} MarcheSure(f: Famille, ordre: seq<Regle>, t: u32, obs: Observation, exiger: bool, routes: nat,
                                      j: nat, ancre: nat, i: nat, p: Paquet, k: Noyau)
    requires PaquetDe(f, p) && TunnelPar(ordre, t, p, j)
    requires NoyauPossible(obs.VueDe(f), p, k)
    requires VoieLibre(f, ordre, t, obs, exiger, j, ancre) && i <= ancre
    requires routes > 0 && TableConforme(obs.VueDe(f).routes, t, routes, obs.tunnel, exiger)
    ensures var (issue, n) := Marche(obs.VueDe(f).regles, p, k, i); n <= ancre && IssueSure(f, issue, p, obs)
    decreases ancre - i
  {
    hide IssueSure, NoyauPossible, TunnelPar, TableConforme, PaquetDe, EstTiers, Consultee, AutreExposee, IssueDe;
    if i == ancre {
      RegleDuTunnel(f, ordre, t, obs, exiger, routes, j, ancre, p, k);
    } else {
      RegleAvant(f, ordre, t, obs, exiger, routes, j, i, p, k);
      MarcheSure(f, ordre, t, obs, exiger, routes, j, ancre, i + 1, p, k);
    }
  }

  /** No difference in a family, for any plan whose rules can be ordered: every
      packet the plan sends to the tunnel is decided at or before the tunnel's rule,
      and is either refused or leaves by an emission the product accepts, whatever
      route each lookup picks. */
  lemma SansEcartFamille(f: Famille, plan: Plan, obs: Observation, exiger: bool, p: Paquet, k: Noyau)
    requires Comparable(plan, f) && |Routes(plan.etapes, f)| > 0
    requires EcartsFamille(plan, f, obs, exiger) == []
    requires PaquetDe(f, p) && PourLeTunnel(OrdreDEvaluation(plan, f).value, TableDuTunnel(plan), p)
    requires NoyauPossible(obs.VueDe(f), p, k)
    ensures var (issue, n) := Marche(obs.VueDe(f).regles, p, k, 0);
            && IssueSure(f, issue, p, obs)
            && exists ancre: nat :: n <= ancre
                 && EstAncre(OrdreDEvaluation(plan, f).value, obs.VueDe(f).regles, TableDuTunnel(plan), exiger, ancre)
  {
    hide IssueSure, EstAncre, Marche, EcartsAttendus, NoyauPossible, OrdreDEvaluation, PaquetDe;
    var ordre := OrdreDEvaluation(plan, f).value;
    var t := TableDuTunnel(plan);
    SansEcartConforme(f, ordre, t, |Routes(plan.etapes, f)|, obs, exiger);
    var j: nat :| TunnelPar(ordre, t, p, j);
    var ancre := AncreExiste(ordre, obs.VueDe(f).regles, t, exiger, j);
    MarcheSure(f, ordre, t, obs, exiger, |Routes(plan.etapes, f)|, j, ancre, 0, p, k);
  }

  lemma SansEcartConforme(f: Famille, ordre: seq<Regle>, t: u32, routes: nat, obs: Observation, exiger: bool)
    ensures EcartsAttendus(f, ordre, t, routes, obs, exiger) == [] <==> FamilleConforme(f, ordre, routes, t, obs, exiger)
  {
  }

  lemma AncreExiste(ordre: seq<Regle>, regles: seq<RegleLue>, t: u32, exiger: bool, j: nat) returns (ancre: nat)
    requires PremiereVers(ordre, t, j) && ReglesConformes(ordre, regles, exiger)
    ensures EstAncre(ordre, regles, t, exiger, ancre) && DuProduit(ordre, regles[ancre], exiger) == Some(j)
    ensures forall i :: 0 <= i < ancre && DuProduit(ordre, regles[i], exiger).Some? ==> DuProduit(ordre, regles[i], exiger).value < j
  {
    var positions :| ALeurPlace(ordre, regles, exiger, positions);
    ancre := positions[j];
    assert DuProduit(ordre, regles[ancre], exiger) == Some(j);
    assert forall i :: 0 <= i < ancre ==> DuProduit(ordre, regles[i], exiger) != Some(j);
    forall i | 0 <= i < ancre && DuProduit(ordre, regles[i], exiger).Some? ensures DuProduit(ordre, regles[i], exiger).value < j {
      var n := DuProduit(ordre, regles[i], exiger).value;
      assert positions[n] == i;
    }
  }

  /** MATCH under Linux, for the product's own plans: in both families, every
      packet the plan sends to the tunnel is refused or leaves legitimately, at
      or before the tunnel's rule. */
  lemma CorrespondanceSure(plan: Plan, obs: Observation, exiger: bool, f: Famille, p: Paquet, k: Noyau)
    requires PlanDuProduit(plan)
    requires Comparable(plan, Ipv4) && Comparable(plan, Ipv6)
    requires EcartsDuPlan(plan, obs, exiger) == []
    requires PaquetDe(f, p) && PourLeTunnel(OrdreDEvaluation(plan, f).value, TableDuTunnel(plan), p)
    requires NoyauPossible(obs.VueDe(f), p, k)
    ensures var (issue, n) := Marche(obs.VueDe(f).regles, p, k, 0);
            && IssueSure(f, issue, p, obs)
            && exists ancre: nat :: n <= ancre
                 && EstAncre(OrdreDEvaluation(plan, f).value, obs.VueDe(f).regles, TableDuTunnel(plan), exiger, ancre)
  {
    PlanDuProduitBienForme(plan, f);
    SansEcartFamille(f, plan, obs, exiger, p, k);
  }

  lemma TunnelParSeule(ordre: seq<Regle>, t: u32, p: Paquet, j: nat)
    requires PremiereVers(ordre, t, j)
    ensures PourLeTunnel(ordre, t, p) <==> TunnelPar(ordre, t, p, j)
  {
  }

  /** Which packets those are: on the WireGuard path, all but the marked ones;
      on the core path, all but the core account's. */
  lemma PaquetsDuTunnel(plan: Plan, f: Famille, p: Paquet)
    requires PlanDuProduit(plan) && OrdreDEvaluation(plan, f).Some?
    ensures PourLeTunnel(OrdreDEvaluation(plan, f).value, TableDuTunnel(plan), p) <==>
            match plan.chemin
            case WireGuard(m, _) => p.marque != m
            case Coeur(c) => c != Some(p.compte)
  {
    hide OrdreDEvaluation, EtapesCoeur, EtapesWireGuard, PourLeTunnel;
    var ordre, t := OrdreDEvaluation(plan, f).value, TableDuTunnel(plan);
    if m, u :| plan == PlanWireGuard(plan.interface, m, u) {
      OrdreWireGuard(plan.interface, m, u, f);
      TunnelParSeule(ordre, t, p, 1);
      assert TunnelPar(ordre, t, p, 1) <==> p.marque != m;
    } else {
      var c :| plan == PlanCoeur(plan.interface, c);
      OrdreCoeur(plan.interface, c, f);
      TunnelParSeule(ordre, t, p, |ordre| - 1);
      assert c.Some? ==> ordre[0].consultation == Main && (Prend(ordre[0].selecteur, p) <==> p.compte == c.value);
      assert TunnelPar(ordre, t, p, |ordre| - 1) <==> c != Some(p.compte);
    }
  }

  // ---------------------------------------------------------------------
  // Precision: what it takes for a route reported as illegitimate to carry a
  // packet away from the tunnel.
  // ---------------------------------------------------------------------

  /** A usable route of table `t` that covers the packet, none longer. */
  ghost predicate Meilleure(vue: Vue, t: u32, p: Paquet, r: Route) {
    && r in vue.routes && r.table == t && Couvre(r, p) && Utilisable(r)
    && forall x :: x in vue.routes && x.table == t && Couvre(x, p) && Utilisable(x) ==> x.dstLen <= r.dstLen
  }

  /** A kernel whose lookups take a longest prefix among the usable routes. */
  ghost predicate NoyauPrecis(vue: Vue, p: Paquet, k: Noyau) {
    && NoyauPossible(vue, p, k)
    && forall i: nat :: i < |vue.regles| && vue.regles[i].action == VersTable && k.choix(i).Some? ==>
         Meilleure(vue, vue.regles[i].table, p, k.choix(i).value)
  }

  /** The rule has no selector but a mark or an account, and they settle `pris`. */
  predicate Decide(r: RegleLue, marque: bv32, compte: u32, pris: bool) {
    && r.selecteurs.autres == AUCUN_AUTRE && r.drapeaux == 0
    && pris == (PrendMarqueEtCompte(r.selecteurs, marque, compte) != r.inverse)
  }

  /** The lookup through `r` gives up this route: a throw, or a suppressed prefix. */
  predicate Abandonnee(r: RegleLue, route: Route) {
    || route.genre == 9
    || (!(6 <= route.genre <= 8) && r.suppressionPrefixe.Some? && route.dstLen <= r.suppressionPrefixe.value)
  }

  /** The packet goes past this rule: neutral, not for it, or a table whose best
      routes for it are all given up. */
  ghost predicate SansEffet(vue: Vue, p: Paquet, r: RegleLue) {
    || r.action == Neutre
    || Decide(r, p.marque, p.compte, false)
    || (r.action == VersTable && forall x :: Meilleure(vue, r.table, p, x) ==> Abandonnee(r, x))
  }

  /** Among usable routes that cover a packet, one is longest. */
  lemma {:induction false} MeilleureExiste(vue: Vue, t: u32, p: Paquet, x: Route) returns (r: Route)
    requires x in vue.routes && x.table == t && Couvre(x, p) && Utilisable(x)
    ensures Meilleure(vue, t, p, r)
    decreases 0x100 - x.dstLen
  {
    if y :| y in vue.routes && y.table == t && Couvre(y, p) && Utilisable(y) && x.dstLen < y.dstLen {
      r := MeilleureExiste(vue, t, p, y);
    } else {
      r := x;
    }
  }

  ghost function ChoixPrecis(vue: Vue, t: u32, p: Paquet): Option<Route> {
    if r :| Meilleure(vue, t, p, r) then Some(r) else None
  }

  /** A kernel that takes `r` at rule `i` and any best route elsewhere. */
  lemma NoyauDe(vue: Vue, p: Paquet, i: nat, r: Route) returns (k: Noyau)
    requires i < |vue.regles| && Meilleure(vue, vue.regles[i].table, p, r)
    ensures NoyauPrecis(vue, p, k) && k.choix(i) == Some(r) && !k.groupe(i)
  {
    var choix := (n: nat) => if n == i then Some(r) else if n < |vue.regles| then ChoixPrecis(vue, vue.regles[n].table, p) else None;
    k := Noyau((_, _) => true, choix, _ => None, _ => false, _ => false);
    forall n: nat | n < |vue.regles| && n != i
      ensures k.choix(n).Some? ==> Meilleure(vue, vue.regles[n].table, p, k.choix(n).value)
      ensures k.choix(n).None? ==> forall x :: x in vue.routes && x.table == vue.regles[n].table && Couvre(x, p) ==> !Utilisable(x)
    {
      assert k.choix(n) == ChoixPrecis(vue, vue.regles[n].table, p);
      if x :| x in vue.routes && x.table == vue.regles[n].table && Couvre(x, p) && Utilisable(x) {
        var m := MeilleureExiste(vue, vue.regles[n].table, p, x);
      }
    }
  }

  lemma {:induction false} MarcheJusqua(vue: Vue, p: Paquet, k: Noyau, i: nat, j: nat)
    requires j <= i < |vue.regles| && NoyauPrecis(vue, p, k)
    requires forall n :: j <= n < i ==> SansEffet(vue, p, vue.regles[n])
    ensures Marche(vue.regles, p, k, j) == Marche(vue.regles, p, k, i)
    decreases i - j
  {
    if j < i {
      PasseeOutre(vue, p, k, j);
      MarcheJusqua(vue, p, k, i, j + 1);
    }
  }

  /** The deciding rule is at or after the one the walk starts from. */
  lemma {:induction false} DecideeApres(regles: seq<RegleLue>, p: Paquet, k: Noyau, i: nat)
    ensures Marche(regles, p, k, i).1 >= i
    decreases |regles| - i
  {
    if i >= |regles| {
    } else if regles[i].action == Saut && k.cible(i).Some? && i < k.cible(i).value <= |regles| {
      DecideeApres(regles, p, k, k.cible(i).value);
      DecideeApres(regles, p, k, i + 1);
    } else {
      DecideeApres(regles, p, k, i + 1);
    }
  }

  lemma PasseeOutre(vue: Vue, p: Paquet, k: Noyau, j: nat)
    requires j < |vue.regles| && NoyauPrecis(vue, p, k) && SansEffet(vue, p, vue.regles[j])
    ensures Marche(vue.regles, p, k, j) == Marche(vue.regles, p, k, j + 1)
  {
    hide Selectionne, Decide, Meilleure, Couvre;
    DiversAucun(vue, p, k);
    if Decide(vue.regles[j], p.marque, p.compte, false) {
      SelectionDecidee(vue.regles[j], p, k, false);
    } else if vue.regles[j].action == VersTable {
      assert k.choix(j).Some? ==> Meilleure(vue, vue.regles[j].table, p, k.choix(j).value);
    }
  }

  /** Whatever the kernel, as long as it looks routes up by longest prefix: a packet
      that goes past the rules before `i` leaves by an exposed route exactly when
      rule `i` takes that route and does not suppress its interface group. */
  lemma AutreSort(f: Famille, ordre: seq<Regle>, obs: Observation, exiger: bool, i: nat, r: Route, p: Paquet, k: Noyau)
    requires Exposee(f, ordre, obs, exiger, i, r)
    requires Decide(obs.VueDe(f).regles[i], p.marque, p.compte, true)
    requires forall n :: 0 <= n < i ==> SansEffet(obs.VueDe(f), p, obs.VueDe(f).regles[n])
    requires NoyauPrecis(obs.VueDe(f), p, k)
    ensures Marche(obs.VueDe(f).regles, p, k, 0) == (Sortie(r), i) <==>
              k.choix(i) == Some(r) && !(obs.VueDe(f).regles[i].suppressionGroupe.Some? && k.groupe(i))
  {
    hide Consultee, Classer, Selectionne, IssueDe, SansEffet, Decide, Marche, NoyauPossible, Meilleure;
    ConsulteeTable(ordre, obs.VueDe(f).regles[i], exiger);
    GenreDAutre(f, r, obs);
    assert k.divers(AUCUN_AUTRE, 0) by { DiversAucun(obs.VueDe(f), p, k); }
    SelectionDecidee(obs.VueDe(f).regles[i], p, k, true);
    MarcheJusqua(obs.VueDe(f), p, k, i, 0);
    SortieEn(obs.VueDe(f).regles, p, k, i, r);
  }

  lemma DiversAucun(vue: Vue, p: Paquet, k: Noyau)
    requires NoyauPossible(vue, p, k)
    ensures k.divers(AUCUN_AUTRE, 0)
  {
  }

  lemma GenreDAutre(f: Famille, r: Route, obs: Observation)
    requires Classer(f, r, obs.tunnel, obs.VueDe(f).adresses) == Autre
    ensures !(6 <= r.genre <= 9)
  {
  }

  lemma SelectionDecidee(r: RegleLue, p: Paquet, k: Noyau, pris: bool)
    requires Decide(r, p.marque, p.compte, pris) && k.divers(AUCUN_AUTRE, 0)
    ensures Selectionne(r, p, k) == pris
  {
    hide PrendMarqueEtCompte;
  }

  /** A rule that takes the packet, and a route its suppression lets through. */
  lemma SortieEn(regles: seq<RegleLue>, p: Paquet, k: Noyau, i: nat, r: Route)
    requires i < |regles| && regles[i].action == VersTable && Selectionne(regles[i], p, k)
    requires !(6 <= r.genre <= 9) && !(regles[i].suppressionPrefixe.Some? && r.dstLen <= regles[i].suppressionPrefixe.value)
    ensures Marche(regles, p, k, i) == (Sortie(r), i) <==>
              k.choix(i) == Some(r) && !(regles[i].suppressionGroupe.Some? && k.groupe(i))
  {
    hide Selectionne;
    DecideeApres(regles, p, k, i + 1);
  }

  /** Rule `i` exposes `r`, which the comparison holds illegitimate. */
  ghost predicate Exposee(f: Famille, ordre: seq<Regle>, obs: Observation, exiger: bool, i: nat, r: Route) {
    && i < |obs.VueDe(f).regles|
    && Consultee(ordre, obs.VueDe(f).regles[i], exiger).Some?
    && var c := Consultee(ordre, obs.VueDe(f).regles[i], exiger).value;
       r in obs.VueDe(f).routes && Passe(r, c.0, c.1) && Classer(f, r, obs.tunnel, obs.VueDe(f).adresses) == Autre
  }

  /** What the comparison reports is a way out: for a packet the rules before let
      past and no longer usable route of the table covers, some kernel emits it by
      the reported route. `FuitesLinux` says when one of them leaves illegitimately. */
  lemma AutreVraimentChoisie(f: Famille, ordre: seq<Regle>, obs: Observation, exiger: bool, i: nat, r: Route, p: Paquet) returns (k: Noyau)
    requires PaquetDe(f, p) && Exposee(f, ordre, obs, exiger, i, r)
    requires Meilleure(obs.VueDe(f), r.table, p, r)
    requires Decide(obs.VueDe(f).regles[i], p.marque, p.compte, true)
    requires forall n :: 0 <= n < i ==> SansEffet(obs.VueDe(f), p, obs.VueDe(f).regles[n])
    ensures NoyauPrecis(obs.VueDe(f), p, k)
    ensures Marche(obs.VueDe(f).regles, p, k, 0) == (Sortie(r), i)
  {
    ConsulteeTable(ordre, obs.VueDe(f).regles[i], exiger);
    k := NoyauDe(obs.VueDe(f), p, i, r);
    AutreSort(f, ordre, obs, exiger, i, r, p, k);
  }

  lemma ConsulteeTable(ordre: seq<Regle>, r: RegleLue, exiger: bool)
    requires Consultee(ordre, r, exiger).Some?
    ensures r.action == VersTable && Consultee(ordre, r, exiger) == Some((r.table, r.suppressionPrefixe))
  {
  }
}
