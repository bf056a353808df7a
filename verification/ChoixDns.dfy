/**
 Which scope systemd-resolved asks for a name
 (crates/bifrost-cli/src/preuve_dns.rs:88-106, `dns_scope_good_domain` of systemd v255),
 and what a DNS comparison without difference means for every name.
 */
module ChoixDns {
  import opened Commun
  import opened PlanDns
  import opened Resolved
  import opened ResolvConf
  import opened Dns
  import TriStable

  /** A name, label by label; the root has none. */
  type Nom = seq<string>

  /** The resolver as it runs: the servers of its global scope, the state it shows
      on the bus, and what the bus does not say. `lire` splits a written domain into
      labels; `inverse(x, n)`: `n` is the reverse lookup of an address of link `x`'s
      network. */
  datatype Resolveur = Resolveur(
    globaux: seq<Serveur>, etat: EtatResolved, lire: string -> Nom, inverse: (i32, Nom) -> bool, monoEtiquette: bool, routeGlobale: bool)

  /** The global scope is the unicast scope of index 0. */
  datatype Portee = Unicast(index: i32) | Llmnr(index: i32) | Mdns(index: i32)

  /** Facts about a real resolver: interface numbers are positive and distinct, the
      Manager lists the global servers and every link's, and "." reads as the root. */
  ghost predicate Reel(v: Resolveur) {
    var r := v.etat;
    && Indexables(r.liens) && IndexDistincts(r.liens) && (forall l :: l in r.liens ==> l.index > 0)
    && multiset(r.serveurs) == multiset(v.globaux) + multiset(Demandes(r.liens))
    && v.lire(".") == []
  }

  function Lien(v: Resolveur, index: i32): Option<Resolved.Lien> { if index > 0 then LienDe(v.etat.liens, index) else None }

  predicate Active(v: Resolveur, index: i32) { index == 0 || (Lien(v, index).Some? && PorteeDns(Lien(v, index).value)) }

  function ServeursDe(v: Resolveur, index: i32): seq<Serveur> {
    if index == 0 then v.globaux else if Lien(v, index).Some? then Lien(v, index).value.serveurs else []
  }

  predicate MonoEtiquette(n: Nom) { |n| == 1 }
  predicate Local(n: Nom) { n != [] && n[|n| - 1] == "local" }
  predicate FinitPar(n: Nom, d: Nom) { |d| <= |n| && n[|n| - |d|..] == d }

  /** The label count of the longest domain the name ends with, -1 without one. */
  function Meilleur(v: Resolveur, d: seq<Domaine>, n: Nom): (r: int)
    ensures r >= -1
    ensures forall x :: x in d && FinitPar(n, v.lire(x.nom)) ==> r >= |v.lire(x.nom)|
  {
    if d == [] then -1
    else
      var suite, e := Meilleur(v, d[1..], n), v.lire(d[0].nom);
      if FinitPar(n, e) && |e| > suite then |e| else suite
  }

  predicate DeRecherche(v: Resolveur, d: seq<Domaine>) { exists x :: x in d && !x.routeSeule && v.lire(x.nom) != [] }

  const NON := 0
  const PEUT_ETRE := 1
  const OUI := 2

  /** How well a scope suits a name. */
  function Score(v: Resolveur, p: Portee, n: Nom): nat {
    match p
    case Unicast(x) =>
      var d := DomainesDe(v.etat.domaines, x);
      if !Active(v, x) || ServeursDe(v, x) == [] then NON
      else if MonoEtiquette(n) && (DeRecherche(v, d) || v.monoEtiquette) then OUI + 1
      else if v.inverse(x, n) then OUI
      else if Meilleur(v, d, n) >= 0 then OUI + Meilleur(v, d, n)
      else if (if x == 0 then v.routeGlobale else Lien(v, x).value.routeParDefaut) && !Local(n) then PEUT_ETRE
      else NON
    case Llmnr(x) => if Lien(v, x).Some? && PorteeLlmnr(Lien(v, x).value) && MonoEtiquette(n) then OUI + 1 else NON
    case Mdns(x) => if Lien(v, x).Some? && PorteeMdns(Lien(v, x).value) && (Local(n) || v.inverse(x, n)) then OUI + 1 else NON
  }

  /** The named limits of the proof. */
  ghost predicate Limite(v: Resolveur, n: Nom) {
    || Local(n)
    || (exists x :: v.inverse(x, n))
    || (MonoEtiquette(n) && v.monoEtiquette)
  }

  /** The only scope asked: every other one suits the name less. */
  ghost predicate SeuleInterrogee(v: Resolveur, t: i32, n: Nom) {
    forall p :: p != Unicast(t) ==> Score(v, p, n) < Score(v, Unicast(t), n)
  }

  /** These servers, asked in this order, are the plan's: same addresses, of their
      family, on port 53 written or not, under no TLS name. */
  predicate Interroges(s: seq<Serveur>, plan: seq<Adresse>) {
    && |s| == |plan|
    && forall k :: 0 <= k < |s| ==>
         && s[k].adresse == plan[k].octets && s[k].famille == (match plan[k].famille case Ipv4 => 2 case Ipv6 => 10)
         && (s[k].port == 0 || s[k].port == 53) && s[k].nom == ""
  }

  lemma InterrogesEst(s: seq<Serveur>, plan: seq<Adresse>)
    ensures ServeursDuPlan(s, plan) <==> Interroges(s, plan)
  {
    if ServeursDuPlan(s, plan) {
      forall k | 0 <= k < |s| ensures ServeurDuPlan(s[k], plan[k]) {
      }
    }
  }

  // ---------------------------------------------------------------------
  // Soundness.
  // ---------------------------------------------------------------------

  lemma {:induction false} PositionDuLien(liens: seq<Resolved.Lien>, l: Resolved.Lien) returns (n: nat)
    requires l in liens
    ensures n < |liens| && liens[n] == l
  {
    n :| 0 <= n < |liens| && liens[n] == l;
  }

  /** A scope with a server has one among the attributed servers, under its index. */
  lemma PorteeServie(v: Resolveur, x: i32) returns (s: Serveur)
    requires Reel(v) && Concordants(v.etat.serveurs, v.etat.liens) && ServeursDe(v, x) != []
    ensures s in Attribues(v.etat.serveurs, v.etat.liens) && s.index == x
  {
    var r := v.etat;
    var a := Attribues(r.serveurs, r.liens);
    if x == 0 {
      AttributionInverse(v.globaux, r.liens, r.serveurs);
      s := Globaux(v.globaux)[0];
      assert s in multiset(Globaux(v.globaux));
      assert s in multiset(a);
    } else {
      var n := PositionDuLien(r.liens, Lien(v, x).value);
      AttributionParLien(r.serveurs, r.liens, n);
      s := DIndex(a, x)[0];
      assert s in DIndex(a, x);
      TriStable.DeCleMembre(a, IndexServeur, x, s);
    }
  }

  lemma AutreSansDomaine(v: Resolveur, tunnel: Resolved.Lien, x: i32)
    requires Reel(v) && Concordants(v.etat.serveurs, v.etat.liens)
    requires !AutrePortee(v.etat, Attribues(v.etat.serveurs, v.etat.liens), Some(tunnel), false)
    requires !AutrePortee(v.etat, Attribues(v.etat.serveurs, v.etat.liens), Some(tunnel), true)
    requires x != tunnel.index && ServeursDe(v, x) != []
    ensures DomainesDe(v.etat.domaines, x) == []
  {
    var s := PorteeServie(v, x);
    TriStable.DeCleVide(v.etat.domaines, IndexDomaine, x);
  }

  lemma ScoreDUneAutre(v: Resolveur, p: Portee, n: Nom)
    requires !Limite(v, n)
    requires p.Unicast? ==> ServeursDe(v, p.index) == [] || DomainesDe(v.etat.domaines, p.index) == []
    requires p.Llmnr? ==> forall l :: l in v.etat.liens ==> !PorteeLlmnr(l)
    ensures Score(v, p, n) < OUI
  {
  }

  lemma RacineConvient(v: Resolveur, d: seq<Domaine>, n: Nom)
    requires v.lire(".") == [] && RacineSeule(d)
    ensures Meilleur(v, d, n) == 0 && !DeRecherche(v, d)
  {
  }

  /** With the root for only domain, a scope suits every name just enough. */
  lemma ScoreRacine(v: Resolveur, x: i32, n: Nom)
    requires v.lire(".") == [] && RacineSeule(DomainesDe(v.etat.domaines, x))
    ensures Score(v, Unicast(x), n) <= if MonoEtiquette(n) && v.monoEtiquette then OUI + 1 else OUI
    ensures Active(v, x) && ServeursDe(v, x) != [] ==> Score(v, Unicast(x), n) >= OUI
  {
    RacineConvient(v, DomainesDe(v.etat.domaines, x), n);
  }

  /** The shape a comparison without difference leaves. */
  ghost predicate Conforme(v: Resolveur, tunnel: Resolved.Lien)
    requires Indexables(v.etat.liens)
  {
    var a := Attribues(v.etat.serveurs, v.etat.liens);
    && tunnel in v.etat.liens && Lien(v, tunnel.index) == Some(tunnel) && PorteeDns(tunnel)
    && RacineSeule(DomainesDe(v.etat.domaines, tunnel.index))
    && !AutrePortee(v.etat, a, Some(tunnel), false) && !AutrePortee(v.etat, a, Some(tunnel), true)
    && forall l :: l in v.etat.liens ==> !PorteeLlmnr(l)
  }

  lemma SansEcartConforme(i: Intention, o: Observation, v: Resolveur) returns (tunnel: Resolved.Lien)
    requires Reel(v) && Concordants(v.etat.serveurs, v.etat.liens)
    requires forall e :: !PresentResolved(i, o, v.etat, Attribues(v.etat.serveurs, v.etat.liens), e)
    ensures LienDuTunnel(o, v.etat) == Some(tunnel) && Conforme(v, tunnel) && o.tunnel == Some(tunnel.index)
    ensures ServeursDuPlan(DIndex(Attribues(v.etat.serveurs, v.etat.liens), tunnel.index), i.plan.serveurs)
    ensures VersLeStub(o.resolvConf)
  {
    hide AutrePortee, DIndex, DomainesDe, Attribues, VersLeStub, ServeursDuPlan, RacineSeule;
    var a := Attribues(v.etat.serveurs, v.etat.liens);
    assert !PresentResolved(i, o, v.etat, a, TunnelLinkScope);
    tunnel := LienDuTunnel(o, v.etat).value;
    assert !PresentResolved(i, o, v.etat, a, TunnelLinkServers) && !PresentResolved(i, o, v.etat, a, TunnelLinkDomains);
    assert !PresentResolved(i, o, v.etat, a, ResolvConfPath) && !PresentResolved(i, o, v.etat, a, MulticastResolution);
    assert !PresentResolved(i, o, v.etat, a, DnsExceptions) && !PresentResolved(i, o, v.etat, a, CompetingDefaultRoutes);
  }

  /** With that shape and a server on the tunnel's link, the tunnel alone is asked. */
  lemma ConformeSeule(v: Resolveur, tunnel: Resolved.Lien, n: Nom)
    requires Reel(v) && Concordants(v.etat.serveurs, v.etat.liens) && Conforme(v, tunnel)
    requires tunnel.serveurs != [] && !Limite(v, n)
    ensures SeuleInterrogee(v, tunnel.index, n)
  {
    hide AutrePortee, DomainesDe, Attribues, Score, Limite;
    ScoreRacine(v, tunnel.index, n);
    forall p | p != Unicast(tunnel.index) ensures Score(v, p, n) < Score(v, Unicast(tunnel.index), n) {
      if p.Unicast? && ServeursDe(v, p.index) != [] {
        AutreSansDomaine(v, tunnel, p.index);
      }
      ScoreDUneAutre(v, p, n);
    }
  }

  /** No difference, for the resolved backend: for every name outside the named
      limits, the tunnel's scope is the only one asked, and it asks the servers of
      the plan, in its order; glibc, for its part, asks the stub alone. */
  lemma CorrespondanceSure(i: Intention, o: Observation, graphie: Adresse -> string, v: Resolveur, n: Nom)
    requires i.backend == BackendResolved && i.plan.serveurs != []
    requires Mesurable(i, o) && o.resolved == Some(v.etat) && Reel(v)
    requires forall e :: !Present(i, o, graphie, e)
    requires !Limite(v, n)
    ensures o.tunnel.Some? && 0 < o.tunnel.value <= I32_MAX
    ensures SeuleInterrogee(v, o.tunnel.value, n)
    ensures Interroges(ServeursDe(v, o.tunnel.value), i.plan.serveurs)
    ensures VersLeStub(o.resolvConf)
  {
    hide PresentResolved, Attribues, SeuleInterrogee, VersLeStub, DIndex;
    forall e ensures !PresentResolved(i, o, v.etat, Attribues(v.etat.serveurs, v.etat.liens), e) {
      assert !Present(i, o, graphie, e);
      PresentAilleurs(i, o, v.etat, Attribues(v.etat.serveurs, v.etat.liens), e);
    }
    var tunnel := SansEcartConforme(i, o, v);
    TunnelAuPlan(i, v, tunnel);
    InterrogesEst(ServeursDe(v, tunnel.index), i.plan.serveurs);
    ConformeSeule(v, tunnel, n);
  }

  lemma PresentAilleurs(i: Intention, o: Observation, r: EtatResolved, attribues: seq<Serveur>, e: Ecart)
    ensures e in {HostsSources, LocalResolverListener, ResolvConfContent} ==> !PresentResolved(i, o, r, attribues, e)
  {
  }

  /** The servers attributed to the tunnel's link are the link's own. */
  lemma TunnelAuPlan(i: Intention, v: Resolveur, tunnel: Resolved.Lien)
    requires Reel(v) && Concordants(v.etat.serveurs, v.etat.liens)
    requires tunnel in v.etat.liens && Lien(v, tunnel.index) == Some(tunnel)
    requires ServeursDuPlan(DIndex(Attribues(v.etat.serveurs, v.etat.liens), tunnel.index), i.plan.serveurs)
    ensures ServeursDuPlan(ServeursDe(v, tunnel.index), i.plan.serveurs)
  {
    var n := PositionDuLien(v.etat.liens, tunnel);
    AttributionParLien(v.etat.serveurs, v.etat.liens, n);
    var s := DIndex(Attribues(v.etat.serveurs, v.etat.liens), tunnel.index);
    forall k | 0 <= k < |s| ensures ServeurDuPlan(tunnel.serveurs[k], i.plan.serveurs[k]) {
      assert ServeurDuPlan(s[k], i.plan.serveurs[k]);
    }
  }

  // ---------------------------------------------------------------------
  // Precision.
  // ---------------------------------------------------------------------

  /** A server found among a link's is under that link's index. */
  lemma {:induction false} LienDuServeur(liens: seq<Resolved.Lien>, s: Serveur) returns (l: Resolved.Lien)
    requires Indexables(liens) && s in DesLiens(liens)
    ensures l in liens && l.index == s.index && l.serveurs != []
  {
    var d, dernier := liens[..|liens| - 1], liens[|liens| - 1];
    assert DesLiens(liens) == DesLiens(d) + Siens(dernier, Rattache);
    if s in DesLiens(d) {
      l := LienDuServeur(d, s);
    } else {
      l := dernier;
    }
  }

  /** The other way round: an attributed server's scope has servers. */
  lemma PorteeAttribuee(v: Resolveur, s: Serveur)
    requires Reel(v) && s in Attribues(v.etat.serveurs, v.etat.liens)
    ensures ServeursDe(v, s.index) != []
  {
    var r := v.etat;
    AttributionInverse(v.globaux, r.liens, r.serveurs);
    assert s in multiset(Attribues(r.serveurs, r.liens));
    if s in DesLiens(r.liens) {
      var l := LienDuServeur(r.liens, s);
      LienSeulDeSonIndex(v, l);
    } else {
      assert s in multiset(Globaux(v.globaux));
    }
  }

  /** A counted exception or competing default route is one exactly when its scope is
      active: some name is then asked of it at least as much as of the tunnel. */
  lemma ConcurrenteReelle(v: Resolveur, tunnel: Resolved.Lien, s: Serveur, d: Domaine)
    requires Reel(v) && tunnel in v.etat.liens && RacineSeule(DomainesDe(v.etat.domaines, tunnel.index))
    requires PorteeDns(tunnel) && tunnel.serveurs != []
    requires s in Attribues(v.etat.serveurs, v.etat.liens) && s.index != tunnel.index && d in v.etat.domaines && d.index == s.index
    ensures Active(v, s.index) <==>
              exists n: Nom :: Score(v, Unicast(s.index), n) >= Score(v, Unicast(tunnel.index), n)
    ensures Active(v, s.index) ==> !SeuleInterrogee(v, tunnel.index, v.lire(d.nom))
  {
    PorteeAttribuee(v, s);
    LienSeulDeSonIndex(v, tunnel);
    hide DomainesDe, Attribues, RacineSeule;
    if Active(v, s.index) {
      var n := v.lire(d.nom);
      ScoreRacine(v, tunnel.index, n);
      ScoreDeSonDomaine(v, s.index, d);
      assert Score(v, Unicast(s.index), n) >= Score(v, Unicast(tunnel.index), n);
    } else {
      forall n: Nom ensures Score(v, Unicast(s.index), n) < Score(v, Unicast(tunnel.index), n) {
        ScoreRacine(v, tunnel.index, n);
      }
    }
  }

  /** A scope suits its own domains at least as well as the root does. */
  lemma ScoreDeSonDomaine(v: Resolveur, x: i32, d: Domaine)
    requires d in v.etat.domaines && d.index == x && Active(v, x) && ServeursDe(v, x) != []
    ensures var n := v.lire(d.nom); Score(v, Unicast(x), n) >= if MonoEtiquette(n) && v.monoEtiquette then OUI + 1 else OUI
  {
    TriStable.DeCleMembre(v.etat.domaines, IndexDomaine, x, d);
    assert FinitPar(v.lire(d.nom), v.lire(d.nom));
  }

  /** A multicast scope takes the single-label names the tunnel would be asked. */
  lemma MulticastReelle(v: Resolveur, tunnel: Resolved.Lien, l: Resolved.Lien, nom: string)
    requires Reel(v) && tunnel in v.etat.liens && RacineSeule(DomainesDe(v.etat.domaines, tunnel.index))
    requires l in v.etat.liens && PorteeLlmnr(l)
    ensures !SeuleInterrogee(v, tunnel.index, [nom])
  {
    var n := [nom];
    ScoreRacine(v, tunnel.index, n);
    LienSeulDeSonIndex(v, l);
    assert Score(v, Llmnr(l.index), n) == OUI + 1;
  }

  lemma LienSeulDeSonIndex(v: Resolveur, l: Resolved.Lien)
    requires Reel(v) && l in v.etat.liens
    ensures Lien(v, l.index) == Some(l)
  {
  }

  /** No difference, for the file backend: the servers glibc reads are the plan's,
      in its order. */
  lemma FichierDuPlan(i: Intention, o: Observation, graphie: Adresse -> string)
    requires i.backend == BackendResolvConf && forall e :: !Present(i, o, graphie, e)
    requires forall a :: Mot(graphie(a))
    ensures o.resolvConf.Some?
    ensures var s := ServeursResolvConf(o.resolvConf.value);
            |s| == |i.plan.serveurs| && forall k :: 0 <= k < |s| ==> s[k] == graphie(i.plan.serveurs[k])
  {
    assert !Present(i, o, graphie, ResolvConfContent);
    FichierRelu(seq(|i.plan.serveurs|, k requires 0 <= k < |i.plan.serveurs| => graphie(i.plan.serveurs[k])));
  }
}
