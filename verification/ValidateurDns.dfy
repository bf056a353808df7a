/**
 Two readings of one DNS plan: the intention
 (crates/bifrost-cli/src/preuve_dns.rs:155-274) and the posed declaration
 (crates/bifrost-cli/src/declaration.rs:446-529, then preuve_dns.rs:1161-1213).
 Reading and writing an address as text are parameters.
 */
module ValidateurDns {
  import opened Commun
  import opened Json
  import opened Declarations
  import opened PlanDns

  const CLES := {"schema_version", "backend", "interface", "local_resolver", "upstream", "embarque", "resolveur_uid"}
  const PLAN_CLES := {"backend", "interface", "local_resolver", "upstream", "embarque", "resolveur_uid"}
  const MAX_AMONTS := 16

  datatype Textes = Textes(lire: string -> Option<Adresse>, ecrire: Adresse -> string)

  predicate Canonique(v: Value, x: Textes) { v.Texte? && x.lire(v.t).Some? && x.ecrire(x.lire(v.t).value) == v.t }

  /** `IpAddr::is_loopback`: 127.0.0.0/8 and ::1. */
  predicate Bouclage(a: Adresse) {
    if a.famille == Ipv4 then a.octets[0] == 127 else a.octets == [0, 0, 0, 0, 0, 0, 0, 0, 0, 0, 0, 0, 0, 0, 0, 1]
  }

  /** `DnsPolicy::validate`, without telemetry filtering. */
  predicate Valide(p: Politique) { Bouclage(p.localResolver) && p.upstream != [] }

  /** The upstreams of an intention: each canonical and new. */
  function AmontsLus(l: seq<Value>, x: Textes): Option<seq<Adresse>> {
    if l == [] then Some([])
    else if !Canonique(l[|l| - 1], x) then None
    else
      match AmontsLus(l[..|l| - 1], x)
      case None => None
      case Some(s) => var a := x.lire(l[|l| - 1].t).value; if a in s then None else Some(s + [a])
  }

  /** `intention_dns`. */
  function IntentionDns(v: Value, x: Textes): Result<Intention> {
    if !v.Objet? || v.m.Keys != CLES then Err("champs d'intention DNS manquants ou inconnus")
    else if v.m["schema_version"] != Nombre(1) then Err("version d'intention DNS inconnue")
    else
      IntentionDesChamps(BackendNomme(v.m["backend"], "resolv-conf"), v.m["interface"], v.m["local_resolver"], v.m["upstream"],
                         v.m["embarque"], v.m["resolveur_uid"], x)
  }

  function BackendNomme(v: Value, fichier: string): Option<Backend> {
    if v == Texte("systemd-resolved") then Some(BackendResolved) else if v == Texte(fichier) then Some(BackendResolvConf) else None
  }

  function IntentionDesChamps(backend: Option<Backend>, interface: Value, local: Value, upstream: Value, embarque: Value, uid: Value,
                              x: Textes): Result<Intention>
  {
    if backend.None? then Err("backend d'intention DNS inconnu")
    else if !(interface.Texte? && InterfaceAdmise(interface.t)) then Err("interface d'intention DNS invalide")
    else if !Canonique(local, x) then Err("adresse d'intention DNS invalide")
    else if !upstream.Liste? then Err("types d'intention DNS invalides")
    else if !(1 <= |upstream.l| <= MAX_AMONTS) then Err("nombre de serveurs amont hors perimetre")
    else if AmontsLus(upstream.l, x).None? then Err("serveur amont invalide ou en double")
    else if !embarque.Bool? || Entier32(uid).Err? then Err("types d'intention DNS invalides")
    else if Entier32(uid).value == Some(0) then Err("compte du resolveur root interdit")
    else if Entier32(uid).value.Some? && !embarque.b then Err("compte de resolveur sans resolveur embarque")
    else
      var p := Politique(x.lire(local.t).value, AmontsLus(upstream.l, x).value, embarque.b);
      if !Valide(p) then Err("intention DNS refusee par la regle du produit")
      else Ok(Intention(backend.value, Nouveau(interface.t, p), p.localResolver, embarque.b, Entier32(uid).value))
  }

  // ---------------------------------------------------------------------
  // The declaration.
  // ---------------------------------------------------------------------

  datatype PoseDns = PoseDns(backend: string, interface: string, localResolver: Adresse, upstream: seq<Adresse>, embarque: bool,
                             resolveurUid: Option<u32>)

  /** What the deserialiser reads of a list of addresses. */
  function AmontsTypes(l: seq<Value>, x: Textes): Option<seq<Adresse>> {
    if l == [] then Some([])
    else if !(l[|l| - 1].Texte? && x.lire(l[|l| - 1].t).Some?) then None
    else match AmontsTypes(l[..|l| - 1], x) case None => None case Some(s) => Some(s + [x.lire(l[|l| - 1].t).value])
  }

  predicate TousCanoniques(l: seq<Value>, x: Textes) { forall i :: 0 <= i < |l| ==> Canonique(l[i], x) }

  function PoseDesChamps(backend: Value, interface: Value, local: Value, upstream: Value, embarque: Value, uid: Value, x: Textes): Result<PoseDns> {
    if !upstream.Liste? || !Canonique(local, x) || !TousCanoniques(upstream.l, x) then Err(HORS_SCHEMA)
    else if !backend.Texte? || backend.t == "" || !interface.Texte? || AmontsTypes(upstream.l, x).None? || !embarque.Bool? || Entier32(uid).Err?
    then Err(HORS_SCHEMA)
    else Ok(PoseDns(backend.t, interface.t, x.lire(local.t).value, AmontsTypes(upstream.l, x).value, embarque.b, Entier32(uid).value))
  }

  /** The strict reading of the `plan` of a posed declaration. */
  function LirePlan(v: Value, x: Textes): Result<PoseDns> {
    if !v.Objet? || v.m.Keys != PLAN_CLES then Err(HORS_SCHEMA)
    else PoseDesChamps(v.m["backend"], v.m["interface"], v.m["local_resolver"], v.m["upstream"], v.m["embarque"], v.m["resolveur_uid"], x)
  }

  /** `intention_de_la_declaration`, for a posed plan. */
  function IntentionDeLaPose(p: PoseDns): Result<Intention> {
    var backend := BackendNomme(Texte(p.backend), "resolv.conf");
    if backend.None? then Err("backend DNS declare hors perimetre de la reference")
    else if !InterfaceAdmise(p.interface) then Err("interface du plan DNS declare hors perimetre de la reference")
    else if !(1 <= |p.upstream| <= MAX_AMONTS) then Err("nombre de serveurs amont declares hors perimetre de la reference")
    else if !SansDoublon(p.upstream) then Err("serveur amont declare en double: plan DNS hors perimetre")
    else if p.resolveurUid == Some(0) then Err("compte du resolveur root: plan DNS declare hors perimetre")
    else if p.resolveurUid.Some? && !p.embarque then Err("compte de resolveur declare sans resolveur embarque: plan DNS hors perimetre")
    else
      var q := Politique(p.localResolver, p.upstream, p.embarque);
      if !Valide(q) then Err("plan DNS declare refuse par la regle de Bifrost: hors perimetre")
      else Ok(Intention(backend.value, Nouveau(p.interface, q), p.localResolver, p.embarque, p.resolveurUid))
  }

  /** `analyser_dns`, then `intention_de_la_declaration`. */
  function Declare(v: Value, variante: Variante, x: Textes): Result<Intention> {
    match LireEnTete(v, "declaration-dns", variante)
    case Err(e) => Err(e)
    case Ok(t) =>
      if t.issue == "non-applicable" || t.issue == "aucun" || t.issue == "echec" then Err("rien a comparer")
      else if t.issue != "pose" || t.application == 0 then Err(HORS_SCHEMA)
      else match LirePlan(v.m["plan"], x) case Err(e) => Err(e) case Ok(p) => IntentionDeLaPose(p)
  }

  // ---------------------------------------------------------------------
  // One plan for both.
  // ---------------------------------------------------------------------

  /** The file backend has one name in an intention and another in a declaration;
      any other text is no backend in either. */
  ghost predicate MemeBackend(i: Value, d: Value) {
    && i.Texte? && d.Texte?
    && (i.t == "resolv-conf" <==> d.t == "resolv.conf")
    && (i.t == "systemd-resolved" <==> d.t == "systemd-resolved")
  }

  ghost predicate MemesValeurs(i: Value, d: Value, variante: Variante) {
    && i.Objet? && i.m.Keys == CLES && i.m["schema_version"] == Nombre(1)
    && Posee(d, "declaration-dns", variante)
    && d.m["plan"].Objet? && d.m["plan"].m.Keys == PLAN_CLES
    && var p := d.m["plan"].m;
       && MemeBackend(i.m["backend"], p["backend"])
       && i.m["interface"] == p["interface"] && i.m["local_resolver"] == p["local_resolver"] && i.m["upstream"] == p["upstream"]
       && i.m["embarque"] == p["embarque"] && i.m["resolveur_uid"] == p["resolveur_uid"]
  }

  /** The upstreams an intention accepts are those the declaration reads, canonical
      and without a duplicate. */
  lemma {:induction false} AmontsEgaux(l: seq<Value>, x: Textes)
    ensures var t := AmontsTypes(l, x);
            AmontsLus(l, x) == if TousCanoniques(l, x) && t.Some? && SansDoublon(t.value) then t else None
    ensures AmontsTypes(l, x).Some? ==> |AmontsTypes(l, x).value| == |l|
    ensures TousCanoniques(l, x) ==> AmontsTypes(l, x).Some?
  {
    if l != [] {
      var p, v := l[..|l| - 1], l[|l| - 1];
      AmontsEgaux(p, x);
      assert l == p + [v];
      CanoniquesSuite(p, v, x);
      if Canonique(v, x) && AmontsTypes(p, x).Some? {
        DoublonSuite(AmontsTypes(p, x).value, x.lire(v.t).value);
      }
    }
  }

  lemma CanoniquesSuite(p: seq<Value>, v: Value, x: Textes)
    ensures TousCanoniques(p + [v], x) <==> TousCanoniques(p, x) && Canonique(v, x)
  {
    var l := p + [v];
    if TousCanoniques(l, x) {
      forall i | 0 <= i < |p| ensures Canonique(p[i], x) {
        assert Canonique(l[i], x);
      }
      assert Canonique(l[|p|], x);
    }
  }

  lemma DoublonSuite(s: seq<Adresse>, a: Adresse)
    ensures SansDoublon(s + [a]) <==> SansDoublon(s) && a !in s
  {
    var t := s + [a];
    if SansDoublon(t) {
      forall i, j | 0 <= i < j < |s| ensures s[i] != s[j] {
        assert t[i] != t[j];
      }
      forall i | 0 <= i < |s| ensures s[i] != a {
        assert t[i] != t[|s|];
      }
    }
  }

  /** What both readers ask of the fields. */
  ghost predicate Admises(backend: Option<Backend>, interface: Value, local: Value, upstream: Value, embarque: Value, uid: Value, x: Textes) {
    && backend.Some? && interface.Texte? && InterfaceAdmise(interface.t)
    && Canonique(local, x) && upstream.Liste? && 1 <= |upstream.l| <= MAX_AMONTS && AmontsLus(upstream.l, x).Some?
    && embarque.Bool? && Entier32(uid).Ok? && Entier32(uid).value != Some(0) && (Entier32(uid).value.Some? ==> embarque.b)
    && Valide(Politique(x.lire(local.t).value, AmontsLus(upstream.l, x).value, embarque.b))
  }

  lemma IntentionAdmise(backend: Option<Backend>, interface: Value, local: Value, upstream: Value, embarque: Value, uid: Value, x: Textes)
    ensures IntentionDesChamps(backend, interface, local, upstream, embarque, uid, x).Ok? <==>
              Admises(backend, interface, local, upstream, embarque, uid, x)
  {
    hide InterfaceAdmise, Entier32, Valide, Nouveau, Canonique, AmontsLus;
  }

  /** What a posed plan must satisfy once it is typed. */
  ghost predicate PoseAdmissible(p: PoseDns) {
    && BackendNomme(Texte(p.backend), "resolv.conf").Some? && InterfaceAdmise(p.interface)
    && 1 <= |p.upstream| <= MAX_AMONTS && SansDoublon(p.upstream)
    && p.resolveurUid != Some(0) && (p.resolveurUid.Some? ==> p.embarque)
    && Valide(Politique(p.localResolver, p.upstream, p.embarque))
  }

  lemma PoseJugee(p: PoseDns)
    ensures IntentionDeLaPose(p).Ok? <==> PoseAdmissible(p)
  {
    hide BackendNomme, InterfaceAdmise, Valide, Nouveau, SansDoublon;
  }

  lemma PoseTypee(e: Value, interface: Value, local: Value, upstream: Value, embarque: Value, uid: Value, x: Textes)
    ensures PoseDesChamps(e, interface, local, upstream, embarque, uid, x).Ok? <==>
              && upstream.Liste? && Canonique(local, x) && TousCanoniques(upstream.l, x)
              && e.Texte? && e.t != "" && interface.Texte? && AmontsTypes(upstream.l, x).Some? && embarque.Bool? && Entier32(uid).Ok?
  {
    hide Canonique, TousCanoniques, AmontsTypes, Entier32;
  }

  lemma PoseAdmise(e: Value, interface: Value, local: Value, upstream: Value, embarque: Value, uid: Value, x: Textes)
    requires e.Texte? && (e.t == "" ==> BackendNomme(e, "resolv.conf").None?)
    ensures var p := PoseDesChamps(e, interface, local, upstream, embarque, uid, x);
            (p.Ok? && IntentionDeLaPose(p.value).Ok?) <==> Admises(BackendNomme(e, "resolv.conf"), interface, local, upstream, embarque, uid, x)
  {
    hide IntentionDeLaPose, BackendNomme, InterfaceAdmise, Entier32, Valide, Nouveau, Canonique, TousCanoniques, SansDoublon, AmontsLus, AmontsTypes;
    PoseTypee(e, interface, local, upstream, embarque, uid, x);
    var p := PoseDesChamps(e, interface, local, upstream, embarque, uid, x);
    if upstream.Liste? {
      AmontsEgaux(upstream.l, x);
    }
    if p.Ok? {
      PoseJugee(p.value);
    }
  }

  lemma ChampsEgaux(b: Value, e: Value, interface: Value, local: Value, upstream: Value, embarque: Value, uid: Value, x: Textes)
    requires MemeBackend(b, e)
    ensures var i := IntentionDesChamps(BackendNomme(b, "resolv-conf"), interface, local, upstream, embarque, uid, x);
            var p := PoseDesChamps(e, interface, local, upstream, embarque, uid, x);
            var d := if p.Ok? then IntentionDeLaPose(p.value) else Err(HORS_SCHEMA);
            (i.Ok? <==> d.Ok?) && (i.Ok? ==> i.value == d.value)
  {
    BackendsEgaux(b, e);
    hide MemeBackend, BackendNomme, InterfaceAdmise, Entier32, Valide, Nouveau, Admises;
    hide Canonique, TousCanoniques, SansDoublon, AmontsLus, AmontsTypes;
    IntentionAdmise(BackendNomme(b, "resolv-conf"), interface, local, upstream, embarque, uid, x);
    PoseAdmise(e, interface, local, upstream, embarque, uid, x);
    if upstream.Liste? {
      AmontsEgaux(upstream.l, x);
    }
  }

  lemma BackendsEgaux(b: Value, e: Value)
    requires MemeBackend(b, e)
    ensures b.Texte? && e.Texte? && BackendNomme(b, "resolv-conf") == BackendNomme(Texte(e.t), "resolv.conf")
    ensures e.t == "" ==> BackendNomme(e, "resolv.conf").None?
  {
  }

  /** They both refuse, or both accept the same intention. */
  lemma UnSeulPlan(i: Value, d: Value, variante: Variante, x: Textes)
    requires MemesValeurs(i, d, variante)
    ensures IntentionDns(i, x).Ok? <==> Declare(d, variante, x).Ok?
    ensures IntentionDns(i, x).Ok? ==> IntentionDns(i, x).value == Declare(d, variante, x).value
  {
    hide IntentionDesChamps, PoseDesChamps, IntentionDeLaPose, BackendNomme, MemeBackend;
    var p := d.m["plan"].m;
    ChampsEgaux(i.m["backend"], p["backend"], p["interface"], p["local_resolver"], p["upstream"], p["embarque"], p["resolveur_uid"], x);
  }
}
