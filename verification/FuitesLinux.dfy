/**
 What a report of an illegitimate route is worth. The legitimacy rule
 (crates/bifrost-cli/src/preuve_routes.rs:27-59 and 464-517) admits classes of
 routes; here every route is judged by the packets it can carry, exactly, and a
 route it reports by the packets that do leave through it.
 */
module FuitesLinux {
  import opened Commun
  import opened Octets
  import opened PlanLinux
  import opened RoutesLinux
  import opened MarcheLinux

  // ---------------------------------------------------------------------
  // A prefix and a union of networks.
  // ---------------------------------------------------------------------

  datatype Reseau = Reseau(adresse: Adresse, longueur: u8)

  ghost predicate Dans(nets: seq<Reseau>, x: Adresse) { exists e :: e in nets && MemePrefixe(x, e.adresse, e.longueur) }

  predicate Accord(e: Reseau, d: Adresse) { Masquer(d, e.longueur) == Masquer(e.adresse, e.longueur) }

  /** The networks cover every address that begins with the first `n` bits of `d`: one
      of them does, or they cover both halves. */
  predicate Recouvre(nets: seq<Reseau>, d: Adresse, n: nat)
    requires n <= 8 * |d|
    decreases 8 * |d| - n
  {
    || (exists e | e in nets :: (e.longueur <= n || n == 8 * |d|) && Accord(e, d))
    || (n < 8 * |d| && Recouvre(nets, PoserBit(d, n, false), n + 1) && Recouvre(nets, PoserBit(d, n, true), n + 1))
  }

  lemma {:induction false} RecouvreTout(nets: seq<Reseau>, d: Adresse, n: nat, x: Adresse)
    requires n <= 8 * |d| && Recouvre(nets, d, n) && MemePrefixe(d, x, n)
    ensures Dans(nets, x)
    decreases 8 * |d| - n
  {
    if e :| e in nets && (e.longueur <= n || n == 8 * |d|) && Accord(e, d) {
      MasquesEgaux(d, e.adresse, e.longueur);
      PrefixeDansReseau(e, d, n, x);
    } else {
      hide MemePrefixe;
      PrefixeAllonge(d, x, n);
      RecouvreTout(nets, PoserBit(d, n, Bit(x, n)), n + 1, x);
    }
  }

  lemma PrefixeDansReseau(e: Reseau, d: Adresse, n: nat, x: Adresse)
    requires (e.longueur <= n || n == 8 * |d|) && MemePrefixe(d, e.adresse, e.longueur) && MemePrefixe(d, x, n)
    ensures MemePrefixe(x, e.adresse, e.longueur)
  {
    hide Bit;
  }

  /** When they do not, an address of the prefix is in none of them. */
  lemma {:induction false} Echappee(nets: seq<Reseau>, d: Adresse, n: nat) returns (x: Adresse)
    requires n <= 8 * |d| && !Recouvre(nets, d, n)
    ensures MemePrefixe(d, x, n) && !Dans(nets, x)
    decreases 8 * |d| - n
  {
    hide MemePrefixe;
    if n == 8 * |d| {
      x := d;
      SoiMeme(d, n);
      forall e | e in nets ensures !MemePrefixe(x, e.adresse, e.longueur) {
        MasquesEgaux(d, e.adresse, e.longueur);
      }
    } else {
      var b := Recouvre(nets, PoserBit(d, n, false), n + 1);
      x := Echappee(nets, PoserBit(d, n, b), n + 1);
      PrefixeRaccourci(d, x, n, b);
    }
  }

  lemma SoiMeme(d: Adresse, n: nat)
    ensures MemePrefixe(d, d, n)
  {
  }

  // ---------------------------------------------------------------------
  // The packets of a route.
  // ---------------------------------------------------------------------

  function Zeros(f: Famille): (z: Adresse)
    ensures |z| == LargeurDe(f)
  { seq(LargeurDe(f), _ => 0) }

  /** The destinations a route matches; a default route may be written without any. */
  function PrefixeDe(r: Route, f: Famille): Reseau { Reseau(if r.dstLen == 0 then Zeros(f) else r.dst, r.dstLen) }

  /** A destination of another width matches no packet of the family. */
  predicate SansPaquet(f: Famille, r: Route) { r.dstLen > 0 && |r.dst| != LargeurDe(f) }

  lemma DestinationsDe(f: Famille, r: Route, p: Paquet)
    requires PaquetDe(f, p)
    ensures (r.dstLen > 0 ==> MemePrefixe(r.dst, p.dst, r.dstLen)) <==> MemePrefixe(p.dst, PrefixeDe(r, f).adresse, r.dstLen)
  {
  }

  /** The networks cover every destination of the route. */
  predicate RecouvreRoute(f: Famille, r: Route, nets: seq<Reseau>) {
    SansPaquet(f, r) || Recouvre(nets, PrefixeDe(r, f).adresse, if r.dstLen <= 8 * LargeurDe(f) then r.dstLen else 8 * LargeurDe(f))
  }

  lemma RecouvrePaquet(f: Famille, r: Route, nets: seq<Reseau>, p: Paquet)
    requires RecouvreRoute(f, r, nets) && PaquetDe(f, p) && Couvre(r, p)
    ensures Dans(nets, p.dst)
  {
    var d := PrefixeDe(r, f).adresse;
    DestinationsDe(f, r, p);
    var n := if r.dstLen <= 8 * LargeurDe(f) then r.dstLen else 8 * LargeurDe(f);
    assert MemePrefixe(d, p.dst, n) by { hide Bit; }
    RecouvreTout(nets, d, n, p.dst);
  }

  /** When they do not, the route covers a packet of any mark and account whose
      destination is in none of them. */
  lemma PaquetEchappe(f: Famille, r: Route, nets: seq<Reseau>, marque: bv32, compte: u32) returns (p: Paquet)
    requires !RecouvreRoute(f, r, nets)
    ensures PaquetDe(f, p) && Couvre(r, p) && p.marque == marque && p.compte == compte && !Dans(nets, p.dst)
  {
    var d := PrefixeDe(r, f).adresse;
    var n := if r.dstLen <= 8 * LargeurDe(f) then r.dstLen else 8 * LargeurDe(f);
    var x := Echappee(nets, d, n);
    p := Paquet(r.src, x, r.tos, r.iif, marque, compte);
    hide Recouvre, Dans;
    PrefixeEntier(d, x, n, r.dstLen);
    SoiMeme(r.src, r.srcLen);
  }

  lemma PrefixeEntier(d: Adresse, x: Adresse, n: nat, m: nat)
    requires MemePrefixe(d, x, n) && (m <= n || n == 8 * |d|)
    ensures MemePrefixe(d, x, m) && |x| == |d|
  {
    hide Bit;
  }

  // ---------------------------------------------------------------------
  // When a route never carries a packet the product would refuse.
  // ---------------------------------------------------------------------

  function Multicast(f: Famille): Reseau {
    match f case Ipv4 => Reseau([0xe0, 0, 0, 0], 4) case Ipv6 => Reseau([0xff] + seq(15, _ => 0), 8)
  }

  /** The networks of the addresses an interface holds. */
  function DuLien(oif: Option<u32>, adresses: seq<AdresseLue>): (nets: seq<Reseau>)
    ensures forall e :: e in nets <==> exists a :: a in adresses && oif == Some(a.index) && e == Reseau(a.adresse, a.prefixe)
  {
    if adresses == [] then []
    else
      assert adresses == [adresses[0]] + adresses[1..];
      (if oif == Some(adresses[0].index) then [Reseau(adresses[0].adresse, adresses[0].prefixe)] else []) + DuLien(oif, adresses[1..])
  }

  /** The destinations a route may emit towards, when it emits to its destination. */
  function ReseauxAdmis(f: Famille, r: Route, obs: Observation): seq<Reseau> {
    if Simple(r) && Directe(r) then [Multicast(f)] + DuLien(r.oif, obs.VueDe(f).adresses) else []
  }

  /** Onto the tunnel, or to the host: whatever the destination. */
  predicate AdmiseTelle(r: Route, obs: Observation) {
    Simple(r) && ((obs.tunnel.Some? && r.oif == obs.tunnel) || (Directe(r) && r.genre == 2))
  }

  lemma MulticastExact(f: Famille, x: Adresse)
    requires |x| == LargeurDe(f)
    ensures DestinationMulticast(f, x) <==> MemePrefixe(x, Multicast(f).adresse, Multicast(f).longueur)
  {
    var m := Multicast(f);
    PremierOctet(x, m.adresse, m.longueur);
    OctetMasque(x[0], m.adresse[0], m.longueur);
    assert f == Ipv4 ==> MasqueDeLOctet(4) == 0xf0;
    assert f == Ipv6 ==> MasqueDeLOctet(8) == 0xff;
  }

  lemma LegitimeExacte(f: Famille, r: Route, p: Paquet, obs: Observation)
    requires PaquetDe(f, p)
    ensures EmissionLegitime(f, r, p, obs) <==> AdmiseTelle(r, obs) || Dans(ReseauxAdmis(f, r, obs), p.dst)
  {
    hide DestinationMulticast, MemePrefixe, Multicast;
    MulticastExact(f, p.dst);
    var l := DuLien(r.oif, obs.VueDe(f).adresses);
    assert Dans([Multicast(f)] + l, p.dst) <==> MemePrefixe(p.dst, Multicast(f).adresse, Multicast(f).longueur) || Dans(l, p.dst) by {
      assert Multicast(f) in [Multicast(f)] + l;
    }
    assert Dans(l, p.dst) <==> DansUnReseauDuLien(r, p, obs.VueDe(f).adresses) by {
      if DansUnReseauDuLien(r, p, obs.VueDe(f).adresses) {
        var a :| a in obs.VueDe(f).adresses && r.oif == Some(a.index) && MemePrefixe(p.dst, a.adresse, a.prefixe);
        assert Reseau(a.adresse, a.prefixe) in l;
      }
    }
  }

  /** No packet of this route leaves illegitimately. */
  predicate SansFuite(f: Famille, r: Route, obs: Observation) { AdmiseTelle(r, obs) || RecouvreRoute(f, r, ReseauxAdmis(f, r, obs)) }

  /** Every packet a route carries is one the product accepts exactly when it emits on
      the tunnel or to the host, or emits to its destination and the networks of its
      interface, with multicast, cover its prefix. */
  lemma SansFuiteExacte(f: Famille, r: Route, obs: Observation)
    ensures (forall p :: PaquetDe(f, p) && Couvre(r, p) ==> EmissionLegitime(f, r, p, obs)) <==> SansFuite(f, r, obs)
  {
    hide EmissionLegitime, ReseauxAdmis, RecouvreRoute, Couvre, AdmiseTelle, Dans;
    if SansFuite(f, r, obs) {
      forall p | PaquetDe(f, p) && Couvre(r, p) ensures EmissionLegitime(f, r, p, obs) {
        LegitimeExacte(f, r, p, obs);
        if !AdmiseTelle(r, obs) {
          RecouvrePaquet(f, r, ReseauxAdmis(f, r, obs), p);
        }
      }
    } else {
      var p := PaquetEchappe(f, r, ReseauxAdmis(f, r, obs), 0, 0);
      LegitimeExacte(f, r, p, obs);
    }
  }

  /** What the classifier admits never leaves illegitimately. */
  lemma AdmiseSansFuite(f: Famille, r: Route, obs: Observation)
    requires Classer(f, r, obs.tunnel, obs.VueDe(f).adresses) != Autre && !(6 <= r.genre <= 9)
    ensures SansFuite(f, r, obs)
  {
    hide Classer, EmissionLegitime, SansFuite, Couvre;
    forall p | PaquetDe(f, p) && Couvre(r, p) ensures EmissionLegitime(f, r, p, obs) {
      ClasseAdmiseLegitime(f, r, p, obs);
    }
    SansFuiteExacte(f, r, obs);
  }

  /** A route the classifier does not admit, of the kinds it reads: it is a false alarm
      exactly when it emits to its destination and the networks of its interface, with
      multicast, cover its prefix. */
  lemma FausseAlerte(f: Famille, r: Route, obs: Observation)
    requires Classer(f, r, obs.tunnel, obs.VueDe(f).adresses) == Autre && (r.genre == 1 || 3 <= r.genre <= 5)
    ensures (forall p :: PaquetDe(f, p) && Couvre(r, p) ==> EmissionLegitime(f, r, p, obs)) <==> RecouvreRoute(f, r, ReseauxAdmis(f, r, obs))
  {
    SansFuiteExacte(f, r, obs);
    hide RecouvreRoute, ReseauxAdmis, EmissionLegitime;
  }

  /** Reported on the tunnel's interface: several next hops, a next-hop object or an
      encapsulation. Where it emits is not read, and none of its packets is accepted. */
  lemma AutreSurLeTunnel(f: Famille, r: Route, obs: Observation, p: Paquet)
    requires Classer(f, r, obs.tunnel, obs.VueDe(f).adresses) == Autre && (r.genre == 1 || 3 <= r.genre <= 5)
    requires obs.tunnel.Some? && r.oif == obs.tunnel
    ensures !Simple(r) && !EmissionLegitime(f, r, p, obs)
  {
  }

  /** One such false alarm: a route of its own, on the link, towards a part of the
      link's network. */
  lemma RefuseeSansFuite(f: Famille, r: Route, a: AdresseLue, obs: Observation)
    requires a in obs.VueDe(f).adresses && r.oif == Some(a.index) && r.oif != obs.tunnel && r.genre == 1 && Simple(r) && Directe(r)
    requires 0 < r.dstLen <= 8 * LargeurDe(f) && a.prefixe <= r.dstLen && MemePrefixe(r.dst, a.adresse, a.prefixe)
    requires forall b :: b in obs.VueDe(f).adresses && b.index == a.index ==> b.prefixe != r.dstLen
    ensures Classer(f, r, obs.tunnel, obs.VueDe(f).adresses) == Autre
    ensures forall p :: PaquetDe(f, p) && Couvre(r, p) ==> EmissionLegitime(f, r, p, obs)
  {
    hide EmissionLegitime, Couvre;
    assert Reseau(a.adresse, a.prefixe) in DuLien(r.oif, obs.VueDe(f).adresses);
    assert Reseau(a.adresse, a.prefixe) in ReseauxAdmis(f, r, obs);
    MasquesEgaux(r.dst, a.adresse, a.prefixe);
    assert RecouvreRoute(f, r, ReseauxAdmis(f, r, obs));
    FausseAlerte(f, r, obs);
  }

  // ---------------------------------------------------------------------
  // When a reported route is a way out.
  // ---------------------------------------------------------------------

  /** The route matches by destination alone. */
  predicate ParDestination(x: Route) { x.srcLen == 0 && x.tos == 0 && x.iif.None? }

  lemma CouvreParDestination(f: Famille, x: Route, p: Paquet)
    requires PaquetDe(f, p) && ParDestination(x)
    ensures Couvre(x, p) <==> MemePrefixe(p.dst, PrefixeDe(x, f).adresse, x.dstLen)
  {
    DestinationsDe(f, x, p);
  }

  /** The prefixes of the usable routes of a table longer than this. */
  function Prefixes(f: Famille, routes: seq<Route>, t: u32, plusQue: int): (nets: seq<Reseau>)
    ensures forall e :: e in nets <==> exists x :: x in routes && x.table == t && Utilisable(x) && x.dstLen > plusQue && e == PrefixeDe(x, f)
  {
    if routes == [] then []
    else
      assert routes == [routes[0]] + routes[1..];
      (if routes[0].table == t && Utilisable(routes[0]) && routes[0].dstLen > plusQue then [PrefixeDe(routes[0], f)] else [])
      + Prefixes(f, routes[1..], t, plusQue)
  }

  /** The rule passes over every packet of this mark and account. */
  predicate Passante(r: RegleLue, marque: bv32, compte: u32) { r.action == Neutre || Decide(r, marque, compte, false) }

  /** The prefixes decided by the tables consulted before rule `i`. */
  function EcransAvant(f: Famille, vue: Vue, i: nat, marque: bv32, compte: u32): seq<Reseau>
    requires i <= |vue.regles|
  {
    if i == 0 then []
    else
      EcransAvant(f, vue, i - 1, marque, compte)
      + if Passante(vue.regles[i - 1], marque, compte) then [] else Prefixes(f, vue.routes, vue.regles[i - 1].table, -1)
  }

  lemma {:induction false} EcranAvant(f: Famille, vue: Vue, i: nat, marque: bv32, compte: u32, e: Reseau)
    requires i <= |vue.regles|
    ensures e in EcransAvant(f, vue, i, marque, compte) <==>
              exists n: nat :: n < i && !Passante(vue.regles[n], marque, compte) && e in Prefixes(f, vue.routes, vue.regles[n].table, -1)
  {
    hide Passante, Prefixes;
    if i > 0 {
      EcranAvant(f, vue, i - 1, marque, compte, e);
    }
  }

  /** What keeps a packet from `r`: a table consulted before, or a longer route of its own. */
  function Ecrans(f: Famille, vue: Vue, i: nat, r: Route, marque: bv32, compte: u32): seq<Reseau>
    requires i <= |vue.regles|
  { EcransAvant(f, vue, i, marque, compte) + Prefixes(f, vue.routes, r.table, r.dstLen) }

  /** Before rule `i`, a rule passes over these packets or takes them to a table it
      suppresses nothing of; those tables, and the longer routes of `r`'s, match by
      destination, and none throws. */
  predicate VoieSimple(vue: Vue, i: nat, r: Route, marque: bv32, compte: u32)
    requires i <= |vue.regles|
  {
    && (forall n | 0 <= n < i ::
          Passante(vue.regles[n], marque, compte)
          || (vue.regles[n].action == VersTable && Decide(vue.regles[n], marque, compte, true)
              && vue.regles[n].suppressionPrefixe.None? && vue.regles[n].suppressionGroupe.None?
              && forall x | x in vue.routes :: x.table == vue.regles[n].table && Utilisable(x) ==> ParDestination(x) && x.genre != 9))
    && forall x | x in vue.routes :: x.table == r.table && Utilisable(x) && x.dstLen > r.dstLen ==> ParDestination(x)
  }

  /** Some packet of this mark and account leaves by `r` at rule `i`, illegitimately,
      under some kernel that looks up the longest prefix. */
  ghost predicate Fuit(f: Famille, obs: Observation, i: nat, r: Route, marque: bv32, compte: u32) {
    exists p, k :: Sort(f, obs, i, r, marque, compte, p, k)
  }

  ghost predicate Sort(f: Famille, obs: Observation, i: nat, r: Route, marque: bv32, compte: u32, p: Paquet, k: Noyau) {
    && PaquetDe(f, p) && p.marque == marque && p.compte == compte && NoyauPrecis(obs.VueDe(f), p, k)
    && Marche(obs.VueDe(f).regles, p, k, 0) == (Sortie(r), i) && !EmissionLegitime(f, r, p, obs)
  }

  lemma DansSomme(a: seq<Reseau>, b: seq<Reseau>, x: Adresse)
    ensures Dans(a + b, x) <==> Dans(a, x) || Dans(b, x)
  {
    hide MemePrefixe;
    if Dans(a, x) || Dans(b, x) {
      var e :| (e in a || e in b) && MemePrefixe(x, e.adresse, e.longueur);
      assert e in a + b;
    }
  }

  lemma DansPrefixes(f: Famille, routes: seq<Route>, t: u32, plusQue: int, p: Paquet)
    requires PaquetDe(f, p)
    requires forall x :: x in routes && x.table == t && Utilisable(x) && x.dstLen > plusQue ==> ParDestination(x)
    ensures Dans(Prefixes(f, routes, t, plusQue), p.dst) <==>
              exists x :: x in routes && x.table == t && Utilisable(x) && x.dstLen > plusQue && Couvre(x, p)
  {
    hide MemePrefixe, Couvre, Utilisable, ParDestination;
    var nets := Prefixes(f, routes, t, plusQue);
    if Dans(nets, p.dst) {
      var e :| e in nets && MemePrefixe(p.dst, e.adresse, e.longueur);
      var x :| x in routes && x.table == t && Utilisable(x) && x.dstLen > plusQue && e == PrefixeDe(x, f);
      CouvreParDestination(f, x, p);
    }
    if x :| x in routes && x.table == t && Utilisable(x) && x.dstLen > plusQue && Couvre(x, p) {
      CouvreParDestination(f, x, p);
      assert PrefixeDe(x, f) in nets;
    }
  }

  /** Outside the screens, every rule before `i` lets the packet past and `r` is best. */
  lemma HorsEcrans(f: Famille, vue: Vue, i: nat, r: Route, p: Paquet)
    requires i <= |vue.regles| && VoieSimple(vue, i, r, p.marque, p.compte) && PaquetDe(f, p)
    requires r in vue.routes && Utilisable(r) && Couvre(r, p)
    requires !Dans(Ecrans(f, vue, i, r, p.marque, p.compte), p.dst)
    ensures Meilleure(vue, r.table, p, r)
    ensures forall n :: 0 <= n < i ==> SansEffet(vue, p, vue.regles[n])
  {
    hide Couvre, Utilisable, ParDestination, Dans, Prefixes, EcransAvant, Decide;
    DansSomme(EcransAvant(f, vue, i, p.marque, p.compte), Prefixes(f, vue.routes, r.table, r.dstLen), p.dst);
    DansPrefixes(f, vue.routes, r.table, r.dstLen, p);
    forall n | 0 <= n < i ensures SansEffet(vue, p, vue.regles[n]) {
      if !Passante(vue.regles[n], p.marque, p.compte) {
        PasDansEcran(f, vue, i, n, p);
        DansPrefixes(f, vue.routes, vue.regles[n].table, -1, p);
      }
    }
  }

  lemma PasDansEcran(f: Famille, vue: Vue, i: nat, n: nat, p: Paquet)
    requires n < i <= |vue.regles| && !Passante(vue.regles[n], p.marque, p.compte)
    ensures Dans(Prefixes(f, vue.routes, vue.regles[n].table, -1), p.dst) ==> Dans(EcransAvant(f, vue, i, p.marque, p.compte), p.dst)
  {
    hide MemePrefixe, Passante;
    if Dans(Prefixes(f, vue.routes, vue.regles[n].table, -1), p.dst) {
      var e :| e in Prefixes(f, vue.routes, vue.regles[n].table, -1) && MemePrefixe(p.dst, e.adresse, e.longueur);
      EcranAvant(f, vue, i, p.marque, p.compte, e);
    }
  }

  /** A reported route is a way out for some packet of a mark and an account exactly
      when it is usable, emits neither on the tunnel nor to the host, and neither the
      networks it may emit towards nor the screens cover its prefix. */
  lemma FuiteExacte(f: Famille, ordre: seq<Regle>, obs: Observation, exiger: bool, i: nat, r: Route, marque: bv32, compte: u32)
    requires Exposee(f, ordre, obs, exiger, i, r) && Decide(obs.VueDe(f).regles[i], marque, compte, true)
    requires VoieSimple(obs.VueDe(f), i, r, marque, compte)
    ensures Fuit(f, obs, i, r, marque, compte) <==>
              Utilisable(r) && !AdmiseTelle(r, obs)
              && !RecouvreRoute(f, r, ReseauxAdmis(f, r, obs) + Ecrans(f, obs.VueDe(f), i, r, marque, compte))
  {
    hide NoyauPrecis, EmissionLegitime, Marche, RecouvreRoute, ReseauxAdmis, Ecrans, VoieSimple, Utilisable, AdmiseTelle, Dans, Decide, Couvre,
         Classer, Consultee, PaquetDe;
    var vue := obs.VueDe(f);
    var nets := ReseauxAdmis(f, r, obs) + Ecrans(f, vue, i, r, marque, compte);
    if Utilisable(r) && !AdmiseTelle(r, obs) && !RecouvreRoute(f, r, nets) {
      var p := PaquetEchappe(f, r, nets, marque, compte);
      var k := PaquetFuit(f, ordre, obs, exiger, i, r, p);
      assert Sort(f, obs, i, r, marque, compte, p, k);
    }
    if Fuit(f, obs, i, r, marque, compte) {
      var p, k :| Sort(f, obs, i, r, marque, compte, p, k);
      SortiEchappe(f, ordre, obs, exiger, i, r, p, k);
      if RecouvreRoute(f, r, nets) {
        RecouvrePaquet(f, r, nets, p);
      }
    }
  }

  lemma PaquetFuit(f: Famille, ordre: seq<Regle>, obs: Observation, exiger: bool, i: nat, r: Route, p: Paquet) returns (k: Noyau)
    requires Exposee(f, ordre, obs, exiger, i, r) && Decide(obs.VueDe(f).regles[i], p.marque, p.compte, true)
    requires VoieSimple(obs.VueDe(f), i, r, p.marque, p.compte) && PaquetDe(f, p) && Couvre(r, p) && Utilisable(r) && !AdmiseTelle(r, obs)
    requires !Dans(ReseauxAdmis(f, r, obs) + Ecrans(f, obs.VueDe(f), i, r, p.marque, p.compte), p.dst)
    ensures Sort(f, obs, i, r, p.marque, p.compte, p, k)
  {
    hide NoyauPrecis, EmissionLegitime, Marche, ReseauxAdmis, Ecrans, VoieSimple, Utilisable, AdmiseTelle, Dans, Decide, Couvre, Classer,
         Meilleure, SansEffet, Consultee;
    DansSomme(ReseauxAdmis(f, r, obs), Ecrans(f, obs.VueDe(f), i, r, p.marque, p.compte), p.dst);
    HorsEcrans(f, obs.VueDe(f), i, r, p);
    k := AutreVraimentChoisie(f, ordre, obs, exiger, i, r, p);
    LegitimeExacte(f, r, p, obs);
  }

  /** A packet that left escaped the networks and the screens. */
  lemma SortiEchappe(f: Famille, ordre: seq<Regle>, obs: Observation, exiger: bool, i: nat, r: Route, p: Paquet, k: Noyau)
    requires Exposee(f, ordre, obs, exiger, i, r) && VoieSimple(obs.VueDe(f), i, r, p.marque, p.compte)
    requires Sort(f, obs, i, r, p.marque, p.compte, p, k)
    ensures PaquetDe(f, p) && Couvre(r, p) && Utilisable(r) && !AdmiseTelle(r, obs)
    ensures !Dans(ReseauxAdmis(f, r, obs) + Ecrans(f, obs.VueDe(f), i, r, p.marque, p.compte), p.dst)
  {
    hide NoyauPossible, EmissionLegitime, Marche, ReseauxAdmis, AdmiseTelle, Dans, Decide, Couvre, Classer, Utilisable, Prefixes, EcransAvant,
         ParDestination, Consultee, IssueDe, Selectionne;
    var vue := obs.VueDe(f);
    LegitimeExacte(f, r, p, obs);
    ConsulteeTable(ordre, vue.regles[i], exiger);
    SortieChoisie(vue.regles, p, k, 0, i, r);
    assert Meilleure(vue, r.table, p, r);
    var avant, longues := EcransAvant(f, vue, i, p.marque, p.compte), Prefixes(f, vue.routes, r.table, r.dstLen);
    DansSomme(ReseauxAdmis(f, r, obs), Ecrans(f, vue, i, r, p.marque, p.compte), p.dst);
    DansSomme(avant, longues, p.dst);
    DansPrefixes(f, vue.routes, r.table, r.dstLen, p);
    if Dans(avant, p.dst) {
      EcranDecide(f, vue, i, r, p, k);
    }
  }

  /** The rule a walk ends at, by a route, took that route. */
  lemma {:induction false} SortieChoisie(regles: seq<RegleLue>, p: Paquet, k: Noyau, j: nat, i: nat, r: Route)
    requires Marche(regles, p, k, j) == (Sortie(r), i) && i < |regles|
    ensures regles[i].action == VersTable && k.choix(i) == Some(r)
    decreases |regles| - j
  {
    if j < |regles| {
      if regles[j].action == Saut && Selectionne(regles[j], p, k) && k.cible(j).Some? && j < k.cible(j).value <= |regles| {
        SortieChoisie(regles, p, k, k.cible(j).value, i, r);
      } else if IssueDe(regles[j], j, p, k) == Suite {
        SortieChoisie(regles, p, k, j + 1, i, r);
      }
    }
  }

  /** A screen stops the walk before rule `i`. */
  lemma EcranDecide(f: Famille, vue: Vue, i: nat, r: Route, p: Paquet, k: Noyau)
    requires i <= |vue.regles| && VoieSimple(vue, i, r, p.marque, p.compte) && PaquetDe(f, p) && NoyauPrecis(vue, p, k)
    requires Dans(EcransAvant(f, vue, i, p.marque, p.compte), p.dst)
    ensures Marche(vue.regles, p, k, 0).1 < i
  {
    var n := EcranDe(f, vue, i, p);
    hide Decide, Couvre, Prefixes, EcransAvant, Dans, ParDestination;
    DansPrefixes(f, vue.routes, vue.regles[n].table, -1, p);
    DiversAucun(vue, p, k);
    SelectionDecidee(vue.regles[n], p, k, true);
    assert k.choix(n).Some? && Meilleure(vue, vue.regles[n].table, p, k.choix(n).value);
    assert IssueDe(vue.regles[n], n, p, k) != Suite;
    forall m | 0 <= m < n ensures vue.regles[m].action == Saut ==> !Selectionne(vue.regles[m], p, k) {
      if vue.regles[m].action == Saut {
        SelectionDecidee(vue.regles[m], p, k, false);
      }
    }
    ArreteAvant(vue.regles, p, k, n, 0);
  }

  lemma EcranDe(f: Famille, vue: Vue, i: nat, p: Paquet) returns (n: nat)
    requires i <= |vue.regles| && Dans(EcransAvant(f, vue, i, p.marque, p.compte), p.dst)
    ensures n < i && !Passante(vue.regles[n], p.marque, p.compte) && Dans(Prefixes(f, vue.routes, vue.regles[n].table, -1), p.dst)
  {
    hide MemePrefixe, Passante;
    var e :| e in EcransAvant(f, vue, i, p.marque, p.compte) && MemePrefixe(p.dst, e.adresse, e.longueur);
    EcranAvant(f, vue, i, p.marque, p.compte, e);
    n :| n < i && !Passante(vue.regles[n], p.marque, p.compte) && e in Prefixes(f, vue.routes, vue.regles[n].table, -1);
  }

  lemma {:induction false} ArreteAvant(regles: seq<RegleLue>, p: Paquet, k: Noyau, n: nat, j: nat)
    requires j <= n < |regles| && IssueDe(regles[n], n, p, k) != Suite && regles[n].action != Saut
    requires forall m :: j <= m < n ==> regles[m].action == Saut ==> !Selectionne(regles[m], p, k)
    ensures Marche(regles, p, k, j).1 <= n
    decreases n - j
  {
    hide Selectionne, IssueDe;
    if j < n {
      ArreteAvant(regles, p, k, n, j + 1);
    }
  }
}
