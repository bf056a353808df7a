/**
 The DNS comparison (crates/bifrost-cli/src/preuve_dns.rs:672-975): guards, then
 one difference at most of each category, in the order of the report.
 */
module Dns {
  import opened Commun
  import opened PlanDns
  import opened Resolved
  import opened ResolvConf
  import opened TriStable

  datatype Mode = Uplink | Stub | Statique | Etranger | Absent {
    function Nom(): string {
      match this
      case Uplink => "uplink"
      case Stub => "stub"
      case Statique => "static"
      case Etranger => "foreign"
      case Absent => "missing"
    }
  }

  datatype Ecoute = Ecoute(adresse: Adresse, port: u16, uid: u32)

  datatype Observation = Observation(
    hosts: seq<string>, mdnsAllow: Option<bool>, ecoutes: seq<Ecoute>, mode: Option<Mode>, resolvConf: Option<string>,
    tunnel: Option<u32>, resolved: Option<EtatResolved>)

  /** The categories, in the order of `ORDRE`. */
  datatype Ecart =
    | ResolvConfPath | ResolvConfContent | HostsSources | TunnelLinkScope | TunnelLinkServers | TunnelLinkDomains
    | DnsExceptions | CompetingDefaultRoutes | MulticastResolution | LocalResolverListener

  function Rang(e: Ecart): int {
    match e
    case ResolvConfPath => 0
    case ResolvConfContent => 1
    case HostsSources => 2
    case TunnelLinkScope => 3
    case TunnelLinkServers => 4
    case TunnelLinkDomains => 5
    case DnsExceptions => 6
    case CompetingDefaultRoutes => 7
    case MulticastResolution => 8
    case LocalResolverListener => 9
  }

  const STUB: Adresse := AdresseBrute(Ipv4, [127, 0, 0, 53])

  /** The bits of `ScopesMask`: unicast DNS, then LLMNR over both families. */
  predicate PorteeDns(l: Lien) { l.portees % 2 == 1 }
  predicate PorteeLlmnr(l: Lien) { l.portees / 2 % 4 != 0 }
  predicate PorteeMdns(l: Lien) { l.portees / 8 % 4 != 0 }

  datatype Jugement = Admise | Mdns | Hors

  predicate MdnsNonMinimal(source: string) { source in {"mdns", "mdns4", "mdns6"} }

  function JugerSource(source: string, backend: Backend, mdnsAllow: Option<bool>): Jugement {
    if source in {"files", "myhostname", "mymachines", "dns"} then Admise
    else if source == "resolve" && backend == BackendResolved then Admise
    else if source in {"mdns_minimal", "mdns4_minimal", "mdns6_minimal"} then Mdns
    else if MdnsNonMinimal(source) && mdnsAllow == Some(false) then Mdns
    else Hors
  }

  /** `serveur_du_plan`: the plan's server as resolved gives it back. */
  predicate ServeurDuPlan(s: Serveur, a: Adresse) {
    && s.famille == (if a.famille == Ipv4 then 2 else 10)
    && s.adresse == a.octets
    && s.port in {0, 53}
    && s.nom == ""
  }

  // ---------------------------------------------------------------------
  // The specification: one predicate per guard and per category.
  // ---------------------------------------------------------------------

  predicate StubEcoute(o: Observation, r: EtatResolved) {
    exists e :: e in o.ecoutes && e.adresse == STUB && e.port == 53 && e.uid == r.uid
  }

  predicate Connu(r: EtatResolved, index: i32) {
    index == 0 || (index > 0 && exists l :: l in r.liens && l.index == index)
  }

  predicate IndexConnus(r: EtatResolved) {
    (forall s :: s in r.serveurs ==> Connu(r, s.index)) && (forall d :: d in r.domaines ==> Connu(r, d.index))
  }

  /** Every guard holds: the comparison is measured. */
  ghost predicate Mesurable(i: Intention, o: Observation) {
    i.backend == BackendResolved ==> GardesTenues(o)
  }

  ghost predicate GardesTenues(o: Observation) {
    && o.resolved.Some? && o.mode.Some?
    && var r := o.resolved.value;
       !r.delegues && StubEcoute(o, r) && IndexConnus(r) && r.mode == o.mode.value.Nom() && Concordants(r.serveurs, r.liens)
  }

  /** `find`: the first link of an index. */
  function LienDe(liens: seq<Lien>, index: u32): (r: Option<Lien>)
    ensures r.Some? ==> r.value in liens && r.value.index == index
    ensures r.None? ==> forall l :: l in liens ==> l.index != index
  {
    if liens == [] then None else if liens[0].index == index then Some(liens[0]) else LienDe(liens[1..], index)
  }

  function LienDuTunnel(o: Observation, r: EtatResolved): Option<Lien> {
    if o.tunnel.Some? then LienDe(r.liens, o.tunnel.value) else None
  }

  function DomainesDe(d: seq<Domaine>, index: i32): seq<Domaine> { DeCle(d, IndexDomaine, index) }

  predicate ServeursDuPlan(s: seq<Serveur>, plan: seq<Adresse>) {
    |s| == |plan| && forall k :: 0 <= k < |s| ==> ServeurDuPlan(s[k], plan[k])
  }

  predicate RacineSeule(d: seq<Domaine>) { |d| == 1 && d[0].nom == "." && d[0].routeSeule }

  /** A scope other than the tunnel's, with a server, bears a domain that `p` accepts. */
  ghost predicate AutrePortee(r: EtatResolved, attribues: seq<Serveur>, tunnel: Option<Lien>, racine: bool) {
    exists s, d :: s in attribues && (tunnel.None? || s.index != tunnel.value.index)
                   && d in r.domaines && d.index == s.index && ((d.nom == ".") <==> racine)
  }

  /** What each category means, for the state attributed to its scopes. */
  ghost predicate PresentResolved(i: Intention, o: Observation, r: EtatResolved, attribues: seq<Serveur>, e: Ecart) {
    var tunnel := LienDuTunnel(o, r);
    match e
    case ResolvConfPath => !(o.mode in {Some(Stub), Some(Statique)}) || !VersLeStub(o.resolvConf)
    case TunnelLinkScope => tunnel.None? || !PorteeDns(tunnel.value)
    case TunnelLinkServers =>
      !ServeursDuPlan(if tunnel.Some? && tunnel.value.index <= I32_MAX then DIndex(attribues, tunnel.value.index) else [], i.plan.serveurs)
    case TunnelLinkDomains =>
      tunnel.None? || tunnel.value.index > I32_MAX || !RacineSeule(DomainesDe(r.domaines, tunnel.value.index))
    case DnsExceptions => AutrePortee(r, attribues, tunnel, false)
    case CompetingDefaultRoutes => AutrePortee(r, attribues, tunnel, true)
    case MulticastResolution => exists l :: l in r.liens && PorteeLlmnr(l)
    case ResolvConfContent => false
    case HostsSources => false
    case LocalResolverListener => false
  }

  ghost predicate SourceHors(i: Intention, o: Observation) {
    exists s :: s in o.hosts && JugerSource(s, i.backend, o.mdnsAllow) == Hors
  }

  ghost predicate EcouteurAbsent(i: Intention, o: Observation) {
    i.embarque
    && ((forall e :: e in o.ecoutes ==> !(e.adresse == i.localResolver && e.port == 53))
        || (exists e :: e in o.ecoutes && Etrangere(i, e)))
  }

  /** A listener on the local resolver's address that is not under its account. */
  predicate Etrangere(i: Intention, e: Ecoute) {
    e.adresse == i.localResolver && e.port == 53 && i.resolveurUid.Some? && e.uid != i.resolveurUid.value
  }

  /** The file the resolv-conf backend expects; `graphie` writes an address. */
  function FichierAttendu(i: Intention, graphie: Adresse -> string): string {
    ContenuResolvConf(seq(|i.plan.serveurs|, k requires 0 <= k < |i.plan.serveurs| => graphie(i.plan.serveurs[k])))
  }

  ghost predicate Present(i: Intention, o: Observation, graphie: Adresse -> string, e: Ecart)
    requires Mesurable(i, o)
  {
    match e
    case HostsSources => SourceHors(i, o)
    case LocalResolverListener => EcouteurAbsent(i, o)
    case ResolvConfContent => i.backend == BackendResolvConf && o.resolvConf != Some(FichierAttendu(i, graphie))
    case _ =>
      i.backend == BackendResolved && var r := o.resolved.value; PresentResolved(i, o, r, Attribues(r.serveurs, r.liens), e)
  }

  // ---------------------------------------------------------------------
  // The loops.
  // ---------------------------------------------------------------------

  method JugerSources(hosts: seq<string>, backend: Backend, mdnsAllow: Option<bool>) returns (hors: bool, mdns: nat)
    ensures hors <==> exists s :: s in hosts && JugerSource(s, backend, mdnsAllow) == Hors
    ensures mdns <= |hosts| && (mdns > 0 <==> exists s :: s in hosts && JugerSource(s, backend, mdnsAllow) == Mdns)
  {
    hors, mdns := false, 0;
    for k := 0 to |hosts|
      invariant hors <==> exists s :: s in hosts[..k] && JugerSource(s, backend, mdnsAllow) == Hors
      invariant mdns <= k && (mdns > 0 <==> exists s :: s in hosts[..k] && JugerSource(s, backend, mdnsAllow) == Mdns)
    {
      assert hosts[..k + 1] == hosts[..k] + [hosts[k]];
      match JugerSource(hosts[k], backend, mdnsAllow) {
        case Admise =>
        case Mdns => mdns := mdns + 1;
        case Hors => hors := true;
      }
    }
    assert hosts[..|hosts|] == hosts;
  }

  /** The scopes other than the tunnel's that have a server, and whether one of
      them bears a domain. */
  method JugerLesAutres(r: EtatResolved, attribues: seq<Serveur>, tunnel: Option<Lien>) returns (exceptions: bool, concurrentes: bool)
    ensures exceptions <==> AutrePortee(r, attribues, tunnel, false)
    ensures concurrentes <==> AutrePortee(r, attribues, tunnel, true)
  {
    exceptions, concurrentes := false, false;
    for k := 0 to |attribues|
      invariant exceptions <==> AutrePortee(r, attribues[..k], tunnel, false)
      invariant concurrentes <==> AutrePortee(r, attribues[..k], tunnel, true)
    {
      var s := attribues[k];
      assert attribues[..k + 1] == attribues[..k] + [s];
      if tunnel.None? || s.index != tunnel.value.index {
        var x, c := JugerDomaines(r, s.index);
        assert s in attribues[..k + 1];
        exceptions, concurrentes := exceptions || x, concurrentes || c;
      }
    }
    assert attribues[..|attribues|] == attribues;
  }

  method JugerDomaines(r: EtatResolved, index: i32) returns (exception: bool, concurrente: bool)
    ensures exception <==> exists d :: d in r.domaines && d.index == index && d.nom != "."
    ensures concurrente <==> exists d :: d in r.domaines && d.index == index && d.nom == "."
  {
    exception, concurrente := false, false;
    for k := 0 to |r.domaines|
      invariant exception <==> exists d :: d in r.domaines[..k] && d.index == index && d.nom != "."
      invariant concurrente <==> exists d :: d in r.domaines[..k] && d.index == index && d.nom == "."
    {
      var d := r.domaines[k];
      assert r.domaines[..k + 1] == r.domaines[..k] + [d];
      if d.index == index {
        if d.nom == "." {
          concurrente := true;
        } else {
          exception := true;
        }
      }
    }
    assert r.domaines[..|r.domaines|] == r.domaines;
  }

  ghost predicate Croissants(ecarts: seq<Ecart>) { StrictementTrie(ecarts, Rang) }

  lemma Quatre(a: bool, b: bool, c: bool, d: bool, p: Ecart, q: Ecart, r: Ecart, s: Ecart)
    requires Rang(p) < Rang(q) < Rang(r) < Rang(s)
    ensures var l := Si(a, p) + Si(b, q) + Si(c, r) + Si(d, s);
            Croissants(l) && forall e :: e in l <==> (a && e == p) || (b && e == q) || (c && e == r) || (d && e == s)
  {
    hide StrictementTrie;
    CroissantsSi([], a, p);
    assert [] + Si(a, p) == Si(a, p);
    hide Si;
    CroissantsSi(Si(a, p), b, q);
    CroissantsSi(Si(a, p) + Si(b, q), c, r);
    CroissantsSi(Si(a, p) + Si(b, q) + Si(c, r), d, s);
  }

  lemma CroissantsSi(l: seq<Ecart>, b: bool, q: Ecart)
    requires Croissants(l) && forall e :: e in l ==> Rang(e) < Rang(q)
    ensures Croissants(l + Si(b, q)) && forall e :: e in l + Si(b, q) <==> e in l || (b && e == q)
  {
  }

  /** The tunnel link's part, and the path to it. */
  method JugerTunnel(i: Intention, o: Observation, r: EtatResolved, attribues: seq<Serveur>) returns (ecarts: seq<Ecart>)
    ensures Croissants(ecarts)
    ensures forall e :: e in ecarts <==> Rang(e) < 6 && PresentResolved(i, o, r, attribues, e)
  {
    hide VersLeStub, LienDe, DIndex, DomainesDe, ServeursDuPlan, StrictementTrie;
    var tunnel := LienDuTunnel(o, r);
    var siens, domaines := [], [];
    if tunnel.Some? && tunnel.value.index <= I32_MAX {
      siens, domaines := DIndex(attribues, tunnel.value.index), DomainesDe(r.domaines, tunnel.value.index);
    }
    var chemin := !(o.mode in {Some(Stub), Some(Statique)}) || !VersLeStub(o.resolvConf);
    var portee := tunnel.None? || !PorteeDns(tunnel.value);
    var serveurs, racine := !ServeursDuPlan(siens, i.plan.serveurs), !RacineSeule(domaines);
    ecarts := Si(chemin, ResolvConfPath) + Si(portee, TunnelLinkScope) + Si(serveurs, TunnelLinkServers) + Si(racine, TunnelLinkDomains);
    Quatre(chemin, portee, serveurs, racine, ResolvConfPath, TunnelLinkScope, TunnelLinkServers, TunnelLinkDomains);
  }

  /** The other scopes' part. */
  method JugerAutresPortees(i: Intention, o: Observation, r: EtatResolved, attribues: seq<Serveur>) returns (ecarts: seq<Ecart>)
    ensures Croissants(ecarts)
    ensures forall e :: e in ecarts <==> Rang(e) >= 6 && PresentResolved(i, o, r, attribues, e)
  {
    hide AutrePortee, LienDe, StrictementTrie;
    var exceptions, concurrentes := JugerLesAutres(r, attribues, LienDuTunnel(o, r));
    var llmnr := exists l :: l in r.liens && PorteeLlmnr(l);
    ecarts := Si(exceptions, DnsExceptions) + Si(concurrentes, CompetingDefaultRoutes) + Si(llmnr, MulticastResolution);
    Quatre(exceptions, concurrentes, llmnr, false, DnsExceptions, CompetingDefaultRoutes, MulticastResolution, LocalResolverListener);
    assert ecarts + Si(false, LocalResolverListener) == ecarts;
  }

  /** The resolved backend, past its guards. */
  method JugerResolved(i: Intention, o: Observation, r: EtatResolved, attribues: seq<Serveur>) returns (ecarts: seq<Ecart>)
    ensures Croissants(ecarts)
    ensures forall e :: e in ecarts <==> PresentResolved(i, o, r, attribues, e)
    ensures forall e :: e in ecarts ==> Rang(e) !in {1, 2, 9}
  {
    assert forall e :: PresentResolved(i, o, r, attribues, e) ==> Rang(e) !in {1, 2, 9};
    hide PresentResolved;
    var premiers := JugerTunnel(i, o, r, attribues);
    var seconds := JugerAutresPortees(i, o, r, attribues);
    ecarts := premiers + seconds;
  }

  /** The guards, in order; past them, the servers attributed to their scopes. */
  method Garder(o: Observation) returns (res: Result<seq<Serveur>>)
    ensures res.Ok? <==> GardesTenues(o)
    ensures res.Ok? ==> res.value == Attribues(o.resolved.value.serveurs, o.resolved.value.liens)
  {
    if o.resolved.None? {
      return Err("etat de systemd-resolved non lu");
    }
    if o.mode.None? {
      return Err("mode de /etc/resolv.conf non lu");
    }
    var r := o.resolved.value;
    if r.delegues {
      return Err("delegues DNS presents");
    }
    if !StubEcoute(o, r) {
      return Err("ecoute du stub de systemd-resolved absente du namespace courant");
    }
    if !IndexConnus(r) {
      return Err("systemd-resolved cite un lien absent du namespace courant");
    }
    if r.mode != o.mode.value.Nom() {
      return Err("systemd-resolved juge un autre /etc/resolv.conf");
    }
    res := Attribuer(r);
  }

  /** Who listens on the embedded resolver's address, and under which account. */
  method JugerEcouteur(i: Intention, o: Observation) returns (absent: bool)
    ensures absent <==> EcouteurAbsent(i, o)
  {
    if !i.embarque {
      return false;
    }
    var vues, etrangere := 0, false;
    for k := 0 to |o.ecoutes|
      invariant vues == 0 <==> forall e :: e in o.ecoutes[..k] ==> !(e.adresse == i.localResolver && e.port == 53)
      invariant vues >= 0
      invariant etrangere <==> (exists e :: e in o.ecoutes[..k] && Etrangere(i, e))
    {
      var e := o.ecoutes[k];
      assert o.ecoutes[..k + 1] == o.ecoutes[..k] + [e];
      if e.adresse == i.localResolver && e.port == 53 {
        vues := vues + 1;
        if Etrangere(i, e) {
          etrangere := true;
        }
      }
    }
    assert o.ecoutes[..|o.ecoutes|] == o.ecoutes;
    absent := vues == 0 || etrangere;
  }

  /** The part of `comparer` that depends on the backend. */
  method JugerBackend(i: Intention, o: Observation, graphie: Adresse -> string) returns (res: Result<seq<Ecart>>)
    ensures res.Ok? <==> Mesurable(i, o)
    ensures res.Ok? ==> Croissants(res.value) && forall e :: e in res.value <==> Rang(e) !in {2, 9} && Present(i, o, graphie, e)
  {
    hide StubEcoute, IndexConnus, Attribues, Concordants, FichierAttendu, PresentResolved;
    match i.backend {
      case BackendResolvConf =>
        return Ok(if o.resolvConf != Some(FichierAttendu(i, graphie)) then [ResolvConfContent] else []);
      case BackendResolved =>
        var garde := Garder(o);
        if garde.Err? {
          return Err(garde.raison);
        }
        var siens := JugerResolved(i, o, o.resolved.value, garde.value);
        return Ok(siens);
    }
  }

  /** `comparer`: refused exactly when a guard does not hold, otherwise each
      category of difference is reported exactly when it is present, once, in order. */
  method Comparer(i: Intention, o: Observation, graphie: Adresse -> string) returns (res: Result<seq<Ecart>>)
    ensures res.Ok? <==> Mesurable(i, o)
    ensures res.Ok? ==> Croissants(res.value) && forall e :: e in res.value <==> Present(i, o, graphie, e)
  {
    hide Mesurable, PresentResolved, EcouteurAbsent, Trier;
    var hors, mdns := JugerSources(o.hosts, i.backend, o.mdnsAllow);
    var premiers := if hors then [HostsSources] else [];
    var siens := JugerBackend(i, o, graphie);
    if siens.Err? {
      return Err(siens.raison);
    }
    var absent := JugerEcouteur(i, o);
    var ecarts := premiers + siens.value + Si(absent, LocalResolverListener);
    DistinctsConcat(premiers, siens.value, Rang);
    DistinctsConcat(premiers + siens.value, Si(absent, LocalResolverListener), Rang);
    assert forall e :: e in ecarts <==> Present(i, o, graphie, e);
    ecarts := Ordonner(ecarts);
    res := Ok(ecarts);
  }

  /** The final sort: the order of `ORDRE`. */
  method Ordonner(ecarts: seq<Ecart>) returns (r: seq<Ecart>)
    requires Distincts(ecarts, Rang)
    ensures Croissants(r) && forall e :: e in r <==> e in ecarts
  {
    r := Trier(ecarts, Rang);
    TrierStrict(ecarts, Rang);
    forall e ensures e in r <==> e in ecarts {
      TrierMembre(ecarts, Rang, e);
    }
  }
}
