/**
 The other way round for the resolver: systemd-resolved as it stands once the
 product's plan is posed matches (crates/bifrost-cli/src/preuve_dns.rs:672-975). It is
 described by what it runs, its global servers and its links', not by the servers the
 comparison attributes to its scopes.
 */
module PoseDns {
  import opened Commun
  import opened PlanDns
  import opened Resolved
  import opened ResolvConf
  import opened Dns
  import opened ChoixDns
  import TriStable

  /** What is outside the resolver: the sources of `hosts`, the embedded resolver's
      account, and `/etc/resolv.conf`. */
  ghost predicate MachineSaine(i: Intention, o: Observation) {
    && (forall s :: s in o.hosts ==> s in {"files", "myhostname", "mymachines", "mdns4_minimal", "resolve", "dns"})
    && (i.embarque ==> exists e :: e in o.ecoutes && e.adresse == i.localResolver && e.port == 53)
    && (i.embarque && i.resolveurUid.Some? ==> forall e :: e in o.ecoutes && e.adresse == i.localResolver && e.port == 53 ==>
          e.uid == i.resolveurUid.value)
    && o.mode in {Some(Stub), Some(Statique)} && VersLeStub(o.resolvConf)
  }

  /** The resolver speaks for itself: no delegate, its stub listens, it judges the
      same file, and every domain is on a link or on the global scope. */
  ghost predicate ResolveurSain(o: Observation, v: Resolveur) {
    && !v.etat.delegues && StubEcoute(o, v.etat) && IndexConnus(v.etat)
    && o.mode.Some? && v.etat.mode == o.mode.value.Nom()
  }

  /** The plan on the tunnel's link: its servers, the root for only domain; no other
      scope has both a server and a domain, and none resolves by multicast. */
  ghost predicate PlanSurLeLien(plan: Plan, v: Resolveur, tunnel: Resolved.Lien) {
    && tunnel in v.etat.liens && PorteeDns(tunnel) && Interroges(tunnel.serveurs, plan.serveurs)
    && (forall d :: d in v.etat.domaines && d.index == tunnel.index ==> d.nom == "." && d.routeSeule)
    && (exists n :: 0 <= n < |v.etat.domaines| && SeulDuLien(v.etat.domaines, tunnel.index, n))
    && (forall d :: d in v.etat.domaines && d.index != tunnel.index ==> ServeursDe(v, d.index) == [])
    && forall l :: l in v.etat.liens ==> !PorteeLlmnr(l)
  }

  /** The domain at `n` is the only one under its index. */
  ghost predicate SeulDuLien(d: seq<Domaine>, index: int, n: nat)
    requires n < |d|
  {
    d[n].index == index && forall k :: 0 <= k < |d| && k != n ==> d[k].index != index
  }

  ghost predicate Posee(i: Intention, o: Observation, v: Resolveur, tunnel: Resolved.Lien) {
    && i.backend == BackendResolved && o.resolved == Some(v.etat) && o.tunnel == Some(tunnel.index)
    && Reel(v) && MachineSaine(i, o) && ResolveurSain(o, v) && PlanSurLeLien(i.plan, v, tunnel)
  }

  /** One domain of an index, and the domains of the index are that one. */
  lemma SeulDomaine(d: seq<Domaine>, index: i32, n: nat)
    requires n < |d| && SeulDuLien(d, index, n)
    ensures DomainesDe(d, index) == [d[n]]
  {
    var a, b := d[..n], d[n + 1..];
    assert d == a + ([d[n]] + b);
    TriStable.DeCleVide(a, IndexDomaine, index);
    TriStable.DeCleVide(b, IndexDomaine, index);
    TriStable.DeCleConcat(a, [d[n]] + b, IndexDomaine, index);
    TriStable.DeCleTete(d[n], b, IndexDomaine, index);
  }

  /** The servers attributed to the tunnel are its own: the plan's. */
  lemma ServeursPoses(plan: Plan, v: Resolveur, tunnel: Resolved.Lien)
    requires Reel(v) && Concordants(v.etat.serveurs, v.etat.liens) && PlanSurLeLien(plan, v, tunnel)
    ensures ServeursDuPlan(DIndex(Attribues(v.etat.serveurs, v.etat.liens), tunnel.index), plan.serveurs)
  {
    var n := PositionDuLien(v.etat.liens, tunnel);
    AttributionParLien(v.etat.serveurs, v.etat.liens, n);
    InterrogesEst(tunnel.serveurs, plan.serveurs);
    hide Attribues, DIndex, IndexDistincts, Concordants;
    var s := DIndex(Attribues(v.etat.serveurs, v.etat.liens), tunnel.index);
    forall k | 0 <= k < |s| ensures ServeurDuPlan(s[k], plan.serveurs[k]) {
      assert ServeurDuPlan(tunnel.serveurs[k], plan.serveurs[k]);
    }
  }

  /** No attributed server elsewhere bears a domain. */
  lemma AucuneAutre(plan: Plan, v: Resolveur, tunnel: Resolved.Lien, racine: bool)
    requires Reel(v) && Concordants(v.etat.serveurs, v.etat.liens) && PlanSurLeLien(plan, v, tunnel)
    ensures !AutrePortee(v.etat, Attribues(v.etat.serveurs, v.etat.liens), Some(tunnel), racine)
  {
    hide Attribues, Reel, ServeursDuPlan;
    forall s, d | s in Attribues(v.etat.serveurs, v.etat.liens) && s.index != tunnel.index && d in v.etat.domaines && d.index == s.index
      ensures false
    {
      PorteeAttribuee(v, s);
    }
  }

  /** No category of the resolver's is present. */
  lemma RienDansResolved(i: Intention, o: Observation, v: Resolveur, tunnel: Resolved.Lien, e: Ecart)
    requires Posee(i, o, v, tunnel) && Concordants(v.etat.serveurs, v.etat.liens)
    ensures !PresentResolved(i, o, v.etat, Attribues(v.etat.serveurs, v.etat.liens), e)
  {
    hide Attribues, Concordants, DIndex, AutrePortee, ServeursDuPlan, DomainesDe, VersLeStub, ResolveurSain, LienDe;
    ServeursPoses(i.plan, v, tunnel);
    AucuneAutre(i.plan, v, tunnel, true);
    AucuneAutre(i.plan, v, tunnel, false);
    LienSeulDeSonIndex(v, tunnel);
    var n :| 0 <= n < |v.etat.domaines| && SeulDuLien(v.etat.domaines, tunnel.index, n);
    SeulDomaine(v.etat.domaines, tunnel.index, n);
  }

  lemma Mesuree(i: Intention, o: Observation, v: Resolveur, tunnel: Resolved.Lien)
    requires Posee(i, o, v, tunnel)
    ensures Mesurable(i, o) && Concordants(v.etat.serveurs, v.etat.liens)
  {
    hide Concordants, MachineSaine, PlanSurLeLien, StubEcoute, IndexConnus;
    AttributionInverse(v.globaux, v.etat.liens, v.etat.serveurs);
  }

  lemma RienAilleurs(i: Intention, o: Observation)
    requires i.backend == BackendResolved && MachineSaine(i, o)
    ensures !SourceHors(i, o) && !EcouteurAbsent(i, o)
  {
  }

  /** The product's plan posed on such a resolver: measured, and no difference. */
  lemma PlanPose(i: Intention, o: Observation, graphie: Adresse -> string, v: Resolveur, tunnel: Resolved.Lien)
    requires Posee(i, o, v, tunnel)
    ensures Mesurable(i, o) && forall e :: !Present(i, o, graphie, e)
  {
    Mesuree(i, o, v, tunnel);
    RienAilleurs(i, o);
    hide Mesurable, Attribues, Concordants, PresentResolved, SourceHors, EcouteurAbsent, Reel, MachineSaine, ResolveurSain, PlanSurLeLien;
    forall e ensures !Present(i, o, graphie, e) {
      RienDansResolved(i, o, v, tunnel, e);
    }
  }

  /** Both ways at once: such a resolver asks the tunnel's scope alone, and the plan's
      servers, for every name outside the named limits. */
  lemma PoseSure(i: Intention, o: Observation, v: Resolveur, tunnel: Resolved.Lien, n: Nom)
    requires Posee(i, o, v, tunnel) && i.plan.serveurs != [] && !Limite(v, n)
    ensures SeuleInterrogee(v, tunnel.index, n) && Interroges(ServeursDe(v, tunnel.index), i.plan.serveurs)
  {
    var graphie := (a: Adresse) => "";
    PlanPose(i, o, graphie, v, tunnel);
    CorrespondanceSure(i, o, graphie, v, n);
  }

  // ---------------------------------------------------------------------
  // Such a resolver exists, for any intention of this backend.
  // ---------------------------------------------------------------------

  ghost function TunnelServi(plan: Plan): Resolved.Lien {
    Resolved.Lien(2, "wg0", true, 1, seq(|plan.serveurs|, k requires 0 <= k < |plan.serveurs| =>
      Serveur(2, if plan.serveurs[k].famille == Ipv4 then 2 else 10, plan.serveurs[k].octets, 53, "")))
  }

  /** The loopback link, under which a loopback server is asked. */
  const BOUCLE: Resolved.Lien := Resolved.Lien(1, "lo", false, 0, [])

  ghost function Servi(plan: Plan, uid: u32): Resolveur {
    var liens := [BOUCLE, TunnelServi(plan)];
    Resolveur([], EtatResolved(":1.0", uid, "stub", Demandes(liens), [Domaine(2, ".", true)], false, liens),
              (s: string) => [], (x: i32, n: Nom) => false, false, false)
  }

  ghost function Vue(i: Intention, uid: u32, texte: string): Observation {
    Observation([], None, [Ecoute(STUB, 53, uid), Ecoute(i.localResolver, 53, uid)], Some(Stub),
                Some(texte), Some(2), Some(Servi(i.plan, uid).etat))
  }

  lemma DemandesServies(plan: Plan)
    ensures Demandes([BOUCLE, TunnelServi(plan)]) == Siens(TunnelServi(plan), Demande)
  {
    var l := TunnelServi(plan);
    assert [BOUCLE, l] == [BOUCLE] + [l] && [] + [BOUCLE] == [BOUCLE];
    DesServeursVide();
    DesServeursSuite([BOUCLE], l, Demande);
    DesServeursSuite([], BOUCLE, Demande);
  }

  lemma ServiReel(plan: Plan, uid: u32)
    ensures Reel(Servi(plan, uid)) && PlanSurLeLien(plan, Servi(plan, uid), TunnelServi(plan))
  {
    hide DesServeurs;
    assert SeulDuLien(Servi(plan, uid).etat.domaines, 2, 0);
  }

  lemma ServiConnu(plan: Plan, uid: u32)
    ensures IndexConnus(Servi(plan, uid).etat)
  {
    DemandesServies(plan);
    hide DesServeurs, Bouclage, Demandes;
    var r := Servi(plan, uid).etat;
    assert r.liens[0] in r.liens && r.liens[1] in r.liens;
    assert Connu(r, 1) && Connu(r, 2);
    forall s | s in r.serveurs ensures Connu(r, s.index) {
      var k :| 0 <= k < |r.serveurs| && r.serveurs[k] == s;
      assert s == Demande(r.liens[1].serveurs[k], 2);
    }
  }

  lemma VueSaine(i: Intention, uid: u32, texte: string)
    requires VersLeStub(Some(texte)) && (i.resolveurUid.None? || i.resolveurUid.value == uid)
    ensures MachineSaine(i, Vue(i, uid, texte)) && StubEcoute(Vue(i, uid, texte), Servi(i.plan, uid).etat)
  {
    hide VersLeStub, Demandes, TunnelServi;
    var e := Vue(i, uid, texte).ecoutes;
    assert e[0] == Ecoute(STUB, 53, uid) && e[1] == Ecoute(i.localResolver, 53, uid);
  }

  lemma MotDuStub()
    ensures Mot("127.0.0.53")
  {
  }

  lemma TexteDuStub() returns (texte: string)
    ensures VersLeStub(Some(texte))
  {
    var s := "127.0.0.53";
    MotDuStub();
    hide Mot, ContenuResolvConf, ServeursResolvConf;
    texte := ContenuResolvConf([s]);
    FichierRelu([s]);
  }

  lemma PoseExiste(i: Intention) returns (o: Observation, v: Resolveur, tunnel: Resolved.Lien)
    requires i.backend == BackendResolved
    ensures Posee(i, o, v, tunnel)
  {
    hide VersLeStub, MachineSaine, Reel, PlanSurLeLien, StubEcoute, IndexConnus, TunnelServi, Demandes;
    var texte := TexteDuStub();
    var uid := if i.resolveurUid.Some? then i.resolveurUid.value else 0;
    o, v, tunnel := Vue(i, uid, texte), Servi(i.plan, uid), TunnelServi(i.plan);
    VueSaine(i, uid, texte);
    ServiReel(i.plan, uid);
    ServiConnu(i.plan, uid);
    assert tunnel.index == 2 by { TunnelDeux(i.plan); }
  }

  lemma TunnelDeux(plan: Plan)
    ensures TunnelServi(plan).index == 2
  {
  }

  // ---------------------------------------------------------------------
  // Counted, and never asked.
  // ---------------------------------------------------------------------

  const EN_TUNNEL: Resolved.Lien := Resolved.Lien(2, "wg0", true, 1, [Serveur(2, 2, [10, 64, 0, 1], 53, "")])
  const INACTIF: Resolved.Lien := Resolved.Lien(3, "eth0", false, 0, [Serveur(3, 2, [192, 0, 2, 1], 53, "")])

  /** The tunnel's link, and one without a DNS scope that keeps a server and a domain. */
  ghost function AvecInactif(): Resolveur {
    var liens := [EN_TUNNEL, INACTIF];
    Resolveur([], EtatResolved(":1.0", 0, "stub", Demandes(liens), [Domaine(2, ".", true), Domaine(3, "lan", true)], false, liens),
              (s: string) => if s == "." then [] else [s], (x: i32, n: Nom) => false, false, false)
  }

  lemma InactiveComptee() returns (v: Resolveur)
    ensures Reel(v) && EN_TUNNEL in v.etat.liens && !Active(v, INACTIF.index)
    ensures AutrePortee(v.etat, Attribues(v.etat.serveurs, v.etat.liens), Some(EN_TUNNEL), false)
    ensures forall n: Nom :: Score(v, Unicast(INACTIF.index), n) < Score(v, Unicast(EN_TUNNEL.index), n)
  {
    hide DesServeurs, Concordants, Attribues, Score;
    v := AvecInactif();
    assert v.etat.liens[0] == EN_TUNNEL && v.etat.liens[1] == INACTIF;
    AttributionInverse(v.globaux, v.etat.liens, v.etat.serveurs);
    LienSeulDeSonIndex(v, INACTIF);
    var s := PorteeServie(v, 3);
    assert v.etat.domaines[1] in v.etat.domaines;
    assert SeulDuLien(v.etat.domaines, 2, 0);
    SeulDomaine(v.etat.domaines, 2, 0);
    ConcurrenteReelle(v, EN_TUNNEL, s, v.etat.domaines[1]);
  }
}
