/**
 What each guard and each difference of the DNS comparison says of the resolver as it
 runs (crates/bifrost-cli/src/preuve_dns.rs:672-975): its links and their servers, its
 global ones, its domains, what listens, and the sources of `hosts`. A category is
 reported exactly when its sentence here holds.
 */
module EcartsDns {
  import opened Commun
  import opened PlanDns
  import opened Resolved
  import opened ResolvConf
  import opened Dns
  import opened ChoixDns
  import TriStable

  /** The tunnel's link, as resolved shows it. */
  predicate EstLeTunnel(o: Observation, l: Resolved.Lien) { o.tunnel == Some(l.index) }

  /** Domain `n` is the index's only one. */
  ghost predicate Seul(d: seq<Domaine>, index: int, n: nat) {
    n < |d| && d[n].index == index && forall k :: 0 <= k < |d| && k != n ==> d[k].index != index
  }

  /** A scope other than the tunnel's, with a server of its own, bears this domain. */
  ghost predicate PorteAilleurs(o: Observation, v: Resolveur, d: Domaine) {
    && d in v.etat.domaines
    && !(exists l :: l in v.etat.liens && EstLeTunnel(o, l) && l.index == d.index)
    && ((d.index == 0 && v.globaux != []) || exists l :: l in v.etat.liens && l.index == d.index && l.serveurs != [])
  }

  /** What reads as an admitted source of `hosts`. */
  predicate SourceAdmise(s: string, backend: Backend, mdnsAllow: Option<bool>) {
    || s in {"files", "myhostname", "mymachines", "dns", "mdns_minimal", "mdns4_minimal", "mdns6_minimal"}
    || (s == "resolve" && backend == BackendResolved)
    || (s in {"mdns", "mdns4", "mdns6"} && mdnsAllow == Some(false))
  }

  /** Somebody listens on port 53 of an address. */
  predicate Ecoutee(o: Observation, e: Ecoute, a: Adresse) { e in o.ecoutes && e.adresse == a && e.port == 53 }

  /** What each category says. */
  ghost predicate Sentence(i: Intention, o: Observation, v: Resolveur, graphie: Adresse -> string, e: Ecart) {
    match e
    case HostsSources => exists s :: s in o.hosts && !SourceAdmise(s, i.backend, o.mdnsAllow)
    case ResolvConfContent => i.backend == BackendResolvConf && o.resolvConf != Some(FichierAttendu(i, graphie))
    case LocalResolverListener =>
      i.embarque && ((forall x :: !Ecoutee(o, x, i.localResolver))
                     || exists x :: Ecoutee(o, x, i.localResolver) && i.resolveurUid != None && Some(x.uid) != i.resolveurUid)
    case ResolvConfPath =>
      i.backend == BackendResolved
      && !((o.mode == Some(Stub) || o.mode == Some(Statique))
           && o.resolvConf.Some? && var s := ServeursResolvConf(o.resolvConf.value); s != [] && forall x :: x in s ==> x == "127.0.0.53")
    case TunnelLinkScope =>
      i.backend == BackendResolved && !exists l :: l in v.etat.liens && EstLeTunnel(o, l) && l.portees % 2 == 1
    case TunnelLinkServers =>
      i.backend == BackendResolved
      && !((exists l :: l in v.etat.liens && EstLeTunnel(o, l) && Interroges(l.serveurs, i.plan.serveurs))
           || (i.plan.serveurs == [] && forall l :: l in v.etat.liens ==> !EstLeTunnel(o, l)))
    case TunnelLinkDomains =>
      i.backend == BackendResolved
      && !exists l, n: nat :: l in v.etat.liens && EstLeTunnel(o, l) && Seul(v.etat.domaines, l.index, n)
                              && v.etat.domaines[n].nom == "." && v.etat.domaines[n].routeSeule
    case DnsExceptions => i.backend == BackendResolved && exists d :: PorteAilleurs(o, v, d) && d.nom != "."
    case CompetingDefaultRoutes => i.backend == BackendResolved && exists d :: PorteAilleurs(o, v, d) && d.nom == "."
    case MulticastResolution =>
      i.backend == BackendResolved && exists l :: l in v.etat.liens && (l.portees / 2 % 2 == 1 || l.portees / 4 % 2 == 1)
  }

  // ---------------------------------------------------------------------
  // The tunnel's link.
  // ---------------------------------------------------------------------

  lemma TunnelEst(o: Observation, v: Resolveur, l: Resolved.Lien)
    requires Reel(v) && l in v.etat.liens && EstLeTunnel(o, l)
    ensures LienDuTunnel(o, v.etat) == Some(l)
  {
  }

  lemma TunnelAbsent(o: Observation, v: Resolveur)
    requires forall l :: l in v.etat.liens ==> !EstLeTunnel(o, l)
    ensures LienDuTunnel(o, v.etat) == None
  {
  }

  lemma {:induction false} AucunDomaine(d: seq<Domaine>, index: int)
    ensures TriStable.DeCle(d, IndexDomaine, index) == [] <==> forall k :: 0 <= k < |d| ==> d[k].index != index
  {
    if d != [] {
      AucunDomaine(d[1..], index);
      assert d == [d[0]] + d[1..];
    }
  }

  lemma SeulSuivant(d: seq<Domaine>, index: int, n: nat)
    requires d != [] && d[0].index != index
    ensures Seul(d, index, n + 1) <==> Seul(d[1..], index, n)
  {
    if Seul(d, index, n + 1) {
      assert forall k :: 0 <= k < |d| - 1 ==> d[1..][k] == d[k + 1];
    }
    if Seul(d[1..], index, n) {
      assert forall k :: 0 < k < |d| ==> d[k] == d[1..][k - 1];
    }
  }

  /** A domain is an index's only one exactly when it is all the index has. */
  lemma {:induction false} SeulEst(d: seq<Domaine>, index: int, n: nat)
    ensures Seul(d, index, n) ==> TriStable.DeCle(d, IndexDomaine, index) == [d[n]]
  {
    if d != [] && Seul(d, index, n) {
      if n == 0 {
        AucunDomaine(d[1..], index);
        assert forall k :: 0 <= k < |d| - 1 ==> d[1..][k] == d[k + 1];
      } else {
        SeulSuivant(d, index, n - 1);
        SeulEst(d[1..], index, n - 1);
      }
    }
  }

  lemma {:induction false} SeulExiste(d: seq<Domaine>, index: int) returns (n: nat)
    requires |TriStable.DeCle(d, IndexDomaine, index)| == 1
    ensures Seul(d, index, n)
  {
    if d[0].index == index {
      AucunDomaine(d[1..], index);
      n := 0;
      assert forall k :: 0 < k < |d| ==> d[k] == d[1..][k - 1];
    } else {
      var m := SeulExiste(d[1..], index);
      n := m + 1;
      SeulSuivant(d, index, m);
    }
  }

  lemma DomainesDuTunnel(o: Observation, v: Resolveur, l: Resolved.Lien)
    requires Reel(v) && l in v.etat.liens && EstLeTunnel(o, l)
    ensures RacineSeule(DomainesDe(v.etat.domaines, l.index)) <==>
              exists n: nat :: Seul(v.etat.domaines, l.index, n) && v.etat.domaines[n].nom == "." && v.etat.domaines[n].routeSeule
  {
    var d := v.etat.domaines;
    if n: nat :| Seul(d, l.index, n) && d[n].nom == "." && d[n].routeSeule {
      SeulEst(d, l.index, n);
    }
    if RacineSeule(DomainesDe(d, l.index)) {
      var n := SeulExiste(d, l.index);
      SeulEst(d, l.index, n);
    }
  }

  lemma ServeursDuTunnel(i: Intention, o: Observation, v: Resolveur, l: Resolved.Lien)
    requires Reel(v) && Concordants(v.etat.serveurs, v.etat.liens) && l in v.etat.liens && EstLeTunnel(o, l)
    ensures ServeursDuPlan(DIndex(Attribues(v.etat.serveurs, v.etat.liens), l.index), i.plan.serveurs) <==> Interroges(l.serveurs, i.plan.serveurs)
  {
    var n := PositionDuLien(v.etat.liens, l);
    AttributionParLien(v.etat.serveurs, v.etat.liens, n);
    var s := DIndex(Attribues(v.etat.serveurs, v.etat.liens), l.index);
    InterrogesEst(s, i.plan.serveurs);
    hide Attribues, DIndex, Concordants, ServeursDuPlan;
    assert forall k :: 0 <= k < |s| ==> s[k] == Rattache(l.serveurs[k], l.index);
  }

  /** The categories of the tunnel's link. */
  lemma TunnelDit(i: Intention, o: Observation, v: Resolveur)
    requires i.backend == BackendResolved && Reel(v) && Concordants(v.etat.serveurs, v.etat.liens)
    ensures forall graphie, e :: e in {TunnelLinkScope, TunnelLinkServers, TunnelLinkDomains} ==>
              (PresentResolved(i, o, v.etat, Attribues(v.etat.serveurs, v.etat.liens), e) <==> Sentence(i, o, v, graphie, e))
  {
    hide Attribues, DIndex, Concordants, ServeursDuPlan, Interroges, RacineSeule, DomainesDe, Seul, Reel;
    if l :| l in v.etat.liens && EstLeTunnel(o, l) {
      TunnelEst(o, v, l);
      ServeursDuTunnel(i, o, v, l);
      DomainesDuTunnel(o, v, l);
      forall m | m in v.etat.liens && EstLeTunnel(o, m) ensures m == l {
        TunnelEst(o, v, m);
      }
      assert l.index <= I32_MAX by { IndexBorne(v, l); }
    } else {
      TunnelAbsent(o, v);
      assert ServeursDuPlan([], i.plan.serveurs) <==> i.plan.serveurs == [] by { RienDemande(i.plan.serveurs); }
    }
  }

  lemma IndexBorne(v: Resolveur, l: Resolved.Lien)
    requires Reel(v) && l in v.etat.liens
    ensures l.index <= I32_MAX
  {
  }

  lemma RienDemande(plan: seq<Adresse>)
    ensures ServeursDuPlan([], plan) <==> plan == []
  {
  }

  // ---------------------------------------------------------------------
  // The other scopes.
  // ---------------------------------------------------------------------

  lemma PorteAilleursEst(o: Observation, v: Resolveur, d: Domaine)
    requires Reel(v) && Concordants(v.etat.serveurs, v.etat.liens)
    ensures PorteAilleurs(o, v, d) <==>
      var t := LienDuTunnel(o, v.etat);
      d in v.etat.domaines && (t.None? || d.index != t.value.index) && exists s :: s in Attribues(v.etat.serveurs, v.etat.liens) && s.index == d.index
  {
    var a, t := Attribues(v.etat.serveurs, v.etat.liens), LienDuTunnel(o, v.etat);
    if l :| l in v.etat.liens && EstLeTunnel(o, l) {
      TunnelEst(o, v, l);
    } else {
      TunnelAbsent(o, v);
    }
    if l :| l in v.etat.liens && l.index == d.index {
      LienSeulDeSonIndex(v, l);
    }
    hide Attribues, Concordants, LienDuTunnel;
    if ServeursDe(v, d.index) != [] {
      var s := PorteeServie(v, d.index);
    }
    if s :| s in a && s.index == d.index {
      PorteeAttribuee(v, s);
    }
  }

  lemma AilleursDit(i: Intention, o: Observation, v: Resolveur, racine: bool)
    requires Reel(v) && Concordants(v.etat.serveurs, v.etat.liens)
    ensures AutrePortee(v.etat, Attribues(v.etat.serveurs, v.etat.liens), LienDuTunnel(o, v.etat), racine)
       <==> exists d :: PorteAilleurs(o, v, d) && (d.nom == "." <==> racine)
  {
    hide Attribues, LienDuTunnel, PorteAilleurs, Reel;
    forall d ensures PorteAilleurs(o, v, d) <==>
        var t := LienDuTunnel(o, v.etat);
        d in v.etat.domaines && (t.None? || d.index != t.value.index) && exists s :: s in Attribues(v.etat.serveurs, v.etat.liens) && s.index == d.index
    {
      PorteAilleursEst(o, v, d);
    }
  }

  lemma BitsLlmnr(p: u64)
    ensures p / 2 % 4 != 0 <==> p / 2 % 2 == 1 || p / 4 % 2 == 1
  {
    var k, r := p / 8, p % 8;
    assert p == 8 * k + r;
    assert p / 2 == 4 * k + r / 2 && p / 4 == 2 * k + r / 4;
    match r { case 0 => case 1 => case 2 => case 3 => case 4 => case 5 => case 6 => case _ => }
  }

  lemma MulticastDit(v: Resolveur)
    ensures (exists l :: l in v.etat.liens && PorteeLlmnr(l)) <==> exists l :: l in v.etat.liens && (l.portees / 2 % 2 == 1 || l.portees / 4 % 2 == 1)
  {
    forall l: Resolved.Lien ensures PorteeLlmnr(l) <==> l.portees / 2 % 2 == 1 || l.portees / 4 % 2 == 1 {
      BitsLlmnr(l.portees);
    }
  }

  lemma CheminDit(o: Observation)
    ensures VersLeStub(o.resolvConf) <==>
      o.resolvConf.Some? && var s := ServeursResolvConf(o.resolvConf.value); s != [] && forall x :: x in s ==> x == "127.0.0.53"
  {
    hide ServeursResolvConf;
    if o.resolvConf.Some? {
      var s := ServeursResolvConf(o.resolvConf.value);
      if forall i :: 0 <= i < |s| ==> s[i] == "127.0.0.53" {
        assert forall x :: x in s ==> x == "127.0.0.53";
      }
      if forall x :: x in s ==> x == "127.0.0.53" {
        forall i | 0 <= i < |s| ensures s[i] == "127.0.0.53" {
          assert s[i] in s;
        }
      }
    }
  }

  /** Every category of the resolved backend. */
  lemma ResolvedDit(i: Intention, o: Observation, v: Resolveur, graphie: Adresse -> string, e: Ecart)
    requires i.backend == BackendResolved && Reel(v) && Concordants(v.etat.serveurs, v.etat.liens)
    requires e !in {HostsSources, LocalResolverListener}
    ensures PresentResolved(i, o, v.etat, Attribues(v.etat.serveurs, v.etat.liens), e) <==> Sentence(i, o, v, graphie, e)
  {
    hide Attribues, Concordants, Reel, DIndex, ServeursDuPlan, Interroges, RacineSeule, DomainesDe, Seul, VersLeStub, ServeursResolvConf, AutrePortee,
         PorteAilleurs, LienDuTunnel, PorteeLlmnr;
    TunnelDit(i, o, v);
    AilleursDit(i, o, v, true);
    AilleursDit(i, o, v, false);
    MulticastDit(v);
    CheminDit(o);
  }

  lemma SourcesDites(i: Intention, o: Observation)
    ensures SourceHors(i, o) <==> exists s :: s in o.hosts && !SourceAdmise(s, i.backend, o.mdnsAllow)
  {
    forall s ensures JugerSource(s, i.backend, o.mdnsAllow) == Hors <==> !SourceAdmise(s, i.backend, o.mdnsAllow) {
    }
  }

  lemma EcouteurDit(i: Intention, o: Observation)
    ensures EcouteurAbsent(i, o) <==>
      i.embarque && ((forall x :: !Ecoutee(o, x, i.localResolver))
                     || exists x :: Ecoutee(o, x, i.localResolver) && i.resolveurUid != None && Some(x.uid) != i.resolveurUid)
  {
    assert forall x :: Ecoutee(o, x, i.localResolver) ==> x in o.ecoutes;
    if x :| x in o.ecoutes && Etrangere(i, x) {
      assert Ecoutee(o, x, i.localResolver);
    }
    if x :| x in o.ecoutes && x.adresse == i.localResolver && x.port == 53 {
      assert Ecoutee(o, x, i.localResolver);
    }
    if x :| Ecoutee(o, x, i.localResolver) && i.resolveurUid != None && Some(x.uid) != i.resolveurUid {
      assert Etrangere(i, x);
    }
  }

  /** The report: each category exactly when its sentence holds, whatever the resolver
      that runs. */
  lemma EcartsExacts(i: Intention, o: Observation, v: Resolveur, graphie: Adresse -> string, e: Ecart)
    requires Mesurable(i, o) && (i.backend == BackendResolved ==> o.resolved == Some(v.etat) && Reel(v))
    ensures Present(i, o, graphie, e) <==> Sentence(i, o, v, graphie, e)
  {
    hide Attribues, Reel, PresentResolved, SourceHors, EcouteurAbsent, FichierAttendu, ServeursResolvConf, Interroges, Seul, PorteAilleurs, SourceAdmise,
         Ecoutee;
    SourcesDites(i, o);
    EcouteurDit(i, o);
    if i.backend == BackendResolved && e !in {HostsSources, LocalResolverListener} {
      ResolvedDit(i, o, v, graphie, e);
      PresentAilleurs(i, o, v.etat, Attribues(v.etat.serveurs, v.etat.liens), e);
    }
  }

  // ---------------------------------------------------------------------
  // The guards.
  // ---------------------------------------------------------------------

  /** resolved's own word for what `/etc/resolv.conf` is. */
  predicate Mot(m: Mode, s: string) {
    match m
    case Uplink => s == "uplink"
    case Stub => s == "stub"
    case Statique => s == "static"
    case Etranger => s == "foreign"
    case Absent => s == "missing"
  }

  /** An index is 0, or the number of a link of this namespace. */
  ghost predicate Numero(liens: seq<Resolved.Lien>, index: i32) { index == 0 || (index > 0 && exists l :: l in liens && l.index == index) }

  lemma GardesExactes(i: Intention, o: Observation)
    ensures Mesurable(i, o) <==>
      i.backend == BackendResolvConf
      || (exists r, m, e :: o.resolved == Some(r) && o.mode == Some(m) && !r.delegues
            && e in o.ecoutes && e.adresse.famille == Ipv4 && e.adresse.octets == [127, 0, 0, 53] && e.port == 53 && e.uid == r.uid
            && (forall s :: s in r.serveurs ==> Numero(r.liens, s.index)) && (forall d :: d in r.domaines ==> Numero(r.liens, d.index))
            && Mot(m, r.mode) && Concordants(r.serveurs, r.liens))
  {
    hide Concordants;
    if o.resolved.Some? {
      var r := o.resolved.value;
      assert IndexConnus(r) <==>
        (forall s :: s in r.serveurs ==> Numero(r.liens, s.index)) && (forall d :: d in r.domaines ==> Numero(r.liens, d.index));
      hide IndexConnus;
    }
  }

  // ---------------------------------------------------------------------
  // A server that is not the plan's.
  // ---------------------------------------------------------------------

  /** One server of the tunnel's link differs from the plan's, in any field: the
      difference is reported. */
  lemma ServeurDifferent(i: Intention, o: Observation, v: Resolveur, graphie: Adresse -> string, l: Resolved.Lien, k: nat)
    requires i.backend == BackendResolved && Mesurable(i, o) && o.resolved == Some(v.etat) && Reel(v)
    requires l in v.etat.liens && o.tunnel == Some(l.index) && k < |l.serveurs| == |i.plan.serveurs|
    requires var s, a := l.serveurs[k], i.plan.serveurs[k];
             s.adresse != a.octets || s.famille != (match a.famille case Ipv4 => 2 case Ipv6 => 10) || s.port !in {0, 53} || s.nom != ""
    ensures Present(i, o, graphie, TunnelLinkServers)
  {
    EcartsExacts(i, o, v, graphie, TunnelLinkServers);
    forall m | m in v.etat.liens && EstLeTunnel(o, m) ensures m == l {
      TunnelEst(o, v, m);
      TunnelEst(o, v, l);
    }
    hide Reel, Mesurable, Present;
  }
}
