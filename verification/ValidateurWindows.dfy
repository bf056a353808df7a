/**
 Two readings of one Windows routing plan: the intention
 (crates/bifrost-cli/src/preuve_routes_windows.rs:132-256) and the posed declaration
 (crates/bifrost-cli/src/declaration.rs:390-443, then preuve_routes_windows.rs:258-290).
 Reading and writing a prefix as text are parameters.
 */
module ValidateurWindows {
  import opened Commun
  import opened Json
  import opened Declarations
  import Executions
  import opened PrefixesIp
  import opened RoutesWindows

  const CLES := {"schema_version", "plateforme", "chemin", "interface", "mtu", "familles", "destinations"}
  const PLAN_CLES := {"chemin", "interface", "mtu", "familles", "destinations"}

  datatype Textes = Textes(lire: string -> Option<IpNet>, ecrire: IpNet -> string)

  /** A text that reads as a prefix and is the one written for it. */
  predicate Canonique(v: Value, x: Textes) { v.Texte? && x.lire(v.t).Some? && x.ecrire(x.lire(v.t).value) == v.t }

  predicate Masquees(d: seq<IpNet>) { forall i :: 0 <= i < |d| ==> Masquer(d[i]) == d[i] }

  /** Strictly increasing: IPv4 then IPv6, none twice. */
  predicate Croissantes(f: seq<Famille>) { forall i, j :: 0 <= i < j < |f| ==> f[i].Ipv4? && f[j].Ipv6? }

  /** `plan_windows`: the common judgement of the five values. */
  function PlanDesValeurs(chemin: Chemin, interface: string, mtu: u32, familles: seq<Famille>,
                          destinations: Option<seq<IpNet>>): Result<PlanWindows>
  {
    if !NomAdmis(interface) then Err("interface du plan de routage invalide")
    else if !(576 <= mtu <= 9000) then Err("MTU du plan de routage hors de la plage du produit")
    else if familles == [] || !Croissantes(familles) then Err("familles du plan de routage vides, en double ou hors d'ordre")
    else
      match (chemin, destinations)
      case (WireGuard, Some(d)) =>
        if d == [] then Err("chemin WireGuard: au moins une destination exigee")
        else if !Masquees(d) then Err("destination du plan de routage non masquee")
        else if !SansDoublon(d) then Err("destination du plan de routage en double")
        else Ok(PlanWireGuard(interface, familles, d, mtu))
      case (WireGuard, None) => Err("chemin WireGuard: au moins une destination exigee")
      case (Coeur, None) => Ok(PlanCoeur(interface, familles, mtu))
      case (Coeur, Some(_)) => Err("chemin par coeur: aucune destination dans le plan")
  }

  function Mtu(v: Value): Option<u32> { if v.Nombre? && 0 <= v.n < 0x1_0000_0000 then Some(v.n) else None }

  function CheminNomme(nom: Option<string>): Option<Chemin> {
    if nom == Some("wireguard") then Some(WireGuard) else if nom == Some("coeur") then Some(Coeur) else None
  }

  function FamilleNommee(nom: Option<string>): Option<Famille> {
    if nom == Some("ipv4") then Some(Ipv4) else if nom == Some("ipv6") then Some(Ipv6) else None
  }

  /** A list of families, each named by `nommer`. */
  function FamillesLues(l: seq<Value>, nommer: Variante): Option<seq<Famille>> {
    if l == [] then Some([])
    else
      match (FamillesLues(l[..|l| - 1], nommer), FamilleNommee(nommer(l[|l| - 1])))
      case (Some(s), Some(f)) => Some(s + [f])
      case _ => None
  }

  /** The destinations of an intention: null, or canonical prefixes. */
  function DestinationsLues(l: seq<Value>, x: Textes): Option<seq<IpNet>> {
    if l == [] then Some([])
    else if !Canonique(l[|l| - 1], x) then None
    else match DestinationsLues(l[..|l| - 1], x) case None => None case Some(s) => Some(s + [x.lire(l[|l| - 1].t).value])
  }

  function DestinationsDIntention(v: Value, x: Textes): Result<Option<seq<IpNet>>> {
    if v.Null? then Ok(None)
    else if !v.Liste? then Err("types d'intention de routage invalides")
    else match DestinationsLues(v.l, x) case None => Err("destination d'intention de routage illisible") case Some(s) => Ok(Some(s))
  }

  /** `plan_de_l_intention`. */
  function PlanDeLIntention(v: Value, x: Textes): Result<PlanWindows> {
    if !v.Objet? || v.m.Keys != CLES then Err("champs d'intention de routage manquants ou inconnus")
    else if v.m["schema_version"] != Nombre(1) then Err("version d'intention de routage inconnue")
    else if v.m["plateforme"] != Texte("windows") then Err("intention de routage d'une autre plateforme")
    else
      var chemin, mtu := CheminNomme(Textuel(v.m["chemin"])), Mtu(v.m["mtu"]);
      var familles := if v.m["familles"].Liste? then FamillesLues(v.m["familles"].l, Textuel) else None;
      var destinations := DestinationsDIntention(v.m["destinations"], x);
      if chemin.None? || !v.m["interface"].Texte? || mtu.None? || familles.None? || destinations.Err?
      then Err("types d'intention de routage invalides")
      else PlanDesValeurs(chemin.value, v.m["interface"].t, mtu.value, familles.value, destinations.value)
  }

  // ---------------------------------------------------------------------
  // The declaration.
  // ---------------------------------------------------------------------

  datatype PlanDeclare = PlanDeclare(chemin: Chemin, interface: string, mtu: u32, familles: seq<Famille>, destinations: Option<seq<IpNet>>)

  /** The raw check: every destination of a list is written canonically. */
  predicate GraphieCanonique(v: Value, x: Textes) {
    v.Liste? ==> forall i :: 0 <= i < |v.l| ==> Canonique(v.l[i], x)
  }

  /** What the deserialiser reads of a list of prefixes. */
  function DestinationsTypees(l: seq<Value>, x: Textes): Option<seq<IpNet>> {
    if l == [] then Some([])
    else if !(l[|l| - 1].Texte? && x.lire(l[|l| - 1].t).Some?) then None
    else match DestinationsTypees(l[..|l| - 1], x) case None => None case Some(s) => Some(s + [x.lire(l[|l| - 1].t).value])
  }

  function DestinationsDeclarees(v: Value, x: Textes): Result<Option<seq<IpNet>>> {
    if v.Null? then Ok(None)
    else if !v.Liste? then Err(HORS_SCHEMA)
    else match DestinationsTypees(v.l, x) case None => Err(HORS_SCHEMA) case Some(s) => Ok(Some(s))
  }

  predicate PlanCoherent(p: PlanDeclare) {
    match p.chemin
    case WireGuard => p.destinations.Some? && p.destinations.value != []
    case Coeur => p.destinations.None?
  }

  /** The strict reading of the `plan` of a posed declaration. */
  function LirePlan(v: Value, variante: Variante, x: Textes): Result<PlanDeclare> {
    if !v.Objet? || v.m.Keys != PLAN_CLES || !GraphieCanonique(v.m["destinations"], x) then Err(HORS_SCHEMA)
    else
      var chemin, mtu := CheminNomme(variante(v.m["chemin"])), Mtu(v.m["mtu"]);
      var familles := if v.m["familles"].Liste? then FamillesLues(v.m["familles"].l, variante) else None;
      var destinations := DestinationsDeclarees(v.m["destinations"], x);
      if chemin.None? || !v.m["interface"].Texte? || mtu.None? || familles.None? || destinations.Err? then Err(HORS_SCHEMA)
      else
        var p := PlanDeclare(chemin.value, v.m["interface"].t, mtu.value, familles.value, destinations.value);
        if PlanCoherent(p) then Ok(p) else Err(HORS_SCHEMA)
  }

  /** `analyser_routage_windows`, then `plan_de_la_declaration`. */
  function Declare(v: Value, variante: Variante, x: Textes): Result<PlanWindows> {
    match LireEnTete(v, "declaration-routage-windows", variante)
    case Err(e) => Err(e)
    case Ok(t) =>
      if t.issue == "non-applicable" || t.issue == "aucun" then
        (if v.m["plan"].Null? then Err("rien a comparer") else Err(HORS_SCHEMA))
      else if t.issue != "pose" || t.application == 0 then Err(HORS_SCHEMA)
      else
        match LirePlan(v.m["plan"], variante, x)
        case Err(e) => Err(e)
        case Ok(p) => PlanDesValeurs(p.chemin, p.interface, p.mtu, p.familles, p.destinations)
  }

  // ---------------------------------------------------------------------
  // One plan for both.
  // ---------------------------------------------------------------------

  /** An intention and a posed declaration of the same values. */
  ghost predicate MemesValeurs(i: Value, d: Value, variante: Variante) {
    && i.Objet? && i.m.Keys == CLES && i.m["schema_version"] == Nombre(1) && i.m["plateforme"] == Texte("windows")
    && Posee(d, "declaration-routage-windows", variante)
    && d.m["plan"].Objet? && d.m["plan"].m.Keys == PLAN_CLES
    && (forall k :: k in PLAN_CLES ==> i.m[k] == d.m["plan"].m[k])
    && NommeLeTexte(i.m["chemin"], variante)
    && (i.m["familles"].Liste? ==> NommeLesTextes(i.m["familles"].l, variante))
  }

  predicate NommeLesTextes(l: seq<Value>, variante: Variante) { forall k :: 0 <= k < |l| ==> NommeLeTexte(l[k], variante) }

  function Noms(l: seq<Value>, variante: Variante): seq<Value> { seq(|l|, k requires 0 <= k < |l| => NomDe(l[k], variante)) }

  function NomsDe(v: Value, variante: Variante): Value { if v.Liste? then Liste(Noms(v.l, variante)) else v }

  /** The intention, its path and its families written as the texts the
      deserialiser names them by. */
  function Nommee(i: Value, variante: Variante): Value
    requires i.Objet? && i.m.Keys == CLES
  {
    Objet(i.m["chemin" := NomDe(i.m["chemin"], variante)]["familles" := NomsDe(i.m["familles"], variante)])
  }

  predicate EnTextes(v: Value) { v.Liste? ==> forall k :: 0 <= k < |v.l| ==> v.l[k].Texte? }

  lemma {:induction false} FamillesNommees(l: seq<Value>, variante: Variante)
    requires NommeLesTextes(l, variante)
    ensures FamillesLues(Noms(l, variante), Textuel) == FamillesLues(l, variante)
  {
    if l != [] {
      var p, v := l[..|l| - 1], l[|l| - 1];
      assert NommeLeTexte(v, variante);
      assert forall k :: 0 <= k < |p| ==> p[k] == l[k] && NommeLeTexte(l[k], variante);
      FamillesNommees(p, variante);
      assert Noms(l, variante)[..|l| - 1] == Noms(p, variante);
      assert FamilleNommee(Textuel(NomDe(v, variante))) == FamilleNommee(variante(v));
    }
  }

  lemma {:induction false} FamillesEnTextes(l: seq<Value>)
    requires FamillesLues(l, Textuel).Some?
    ensures forall k :: 0 <= k < |l| ==> l[k].Texte?
  {
    if l != [] {
      FamillesEnTextes(l[..|l| - 1]);
      assert forall k :: 0 <= k < |l| - 1 ==> l[..|l| - 1][k] == l[k];
    }
  }

  lemma {:induction false} DestinationsEgales(l: seq<Value>, x: Textes)
    ensures DestinationsLues(l, x) == if forall i :: 0 <= i < |l| ==> Canonique(l[i], x) then DestinationsTypees(l, x) else None
  {
    if l != [] {
      var p := l[..|l| - 1];
      DestinationsEgales(p, x);
      if forall i :: 0 <= i < |p| ==> Canonique(p[i], x) {
        assert Canonique(l[|l| - 1], x) ==> forall i :: 0 <= i < |l| ==> Canonique(l[i], x);
      } else {
        var i :| 0 <= i < |p| && !Canonique(p[i], x);
        assert l[i] == p[i];
      }
    }
  }

  lemma DestinationsPareilles(v: Value, x: Textes)
    ensures GraphieCanonique(v, x) ==>
              (DestinationsDIntention(v, x).Ok? <==> DestinationsDeclarees(v, x).Ok?)
              && (DestinationsDIntention(v, x).Ok? ==> DestinationsDIntention(v, x).value == DestinationsDeclarees(v, x).value)
    ensures !GraphieCanonique(v, x) ==> DestinationsDIntention(v, x).Err?
  {
    if v.Liste? {
      DestinationsEgales(v.l, x);
    }
  }

  /** An incoherent plan is one the common judgement refuses. */
  lemma IncoherentRefuse(p: PlanDeclare)
    requires !PlanCoherent(p)
    ensures PlanDesValeurs(p.chemin, p.interface, p.mtu, p.familles, p.destinations).Err?
  {
  }

  /** The values of a plan, judged as an intention's. */
  function DesValeurs(chemin: Option<Chemin>, interface: Value, mtu: Value, familles: Option<seq<Famille>>, destinations: Value, x: Textes): Result<PlanWindows> {
    if chemin.None? || !interface.Texte? || Mtu(mtu).None? || familles.None? || DestinationsDIntention(destinations, x).Err? then Err("types")
    else PlanDesValeurs(chemin.value, interface.t, Mtu(mtu).value, familles.value, DestinationsDIntention(destinations, x).value)
  }

  function FamillesDe(v: Value, nommer: Variante): Option<seq<Famille>> { if v.Liste? then FamillesLues(v.l, nommer) else None }

  lemma IntentionJugee(i: Value, x: Textes)
    requires i.Objet? && i.m.Keys == CLES && i.m["schema_version"] == Nombre(1) && i.m["plateforme"] == Texte("windows")
    ensures !Desaccord(PlanDeLIntention(i, x), DesValeurs(CheminNomme(Textuel(i.m["chemin"])), i.m["interface"], i.m["mtu"],
                                                         FamillesDe(i.m["familles"], Textuel), i.m["destinations"], x))
  {
    hide PlanDesValeurs, FamillesLues, DestinationsDIntention, CheminNomme, Mtu;
  }

  lemma DeclarationJugee(d: Value, variante: Variante, x: Textes)
    requires Posee(d, "declaration-routage-windows", variante) && d.m["plan"].Objet? && d.m["plan"].m.Keys == PLAN_CLES
    ensures var p := d.m["plan"].m;
            !Desaccord(Declare(d, variante, x), DesValeurs(CheminNomme(variante(p["chemin"])), p["interface"], p["mtu"],
                                                          FamillesDe(p["familles"], variante), p["destinations"], x))
  {
    hide PlanDesValeurs, PlanCoherent, GraphieCanonique, FamillesLues, DestinationsDIntention, DestinationsDeclarees, CheminNomme, Mtu;
    var p := d.m["plan"].m;
    DestinationsPareilles(p["destinations"], x);
    var chemin, mtu, familles := CheminNomme(variante(p["chemin"])), Mtu(p["mtu"]), FamillesDe(p["familles"], variante);
    var destinations := DestinationsDeclarees(p["destinations"], x);
    if chemin.Some? && mtu.Some? && p["interface"].Texte? && familles.Some? && destinations.Ok? {
      var q := PlanDeclare(chemin.value, p["interface"].t, mtu.value, familles.value, destinations.value);
      if !PlanCoherent(q) {
        IncoherentRefuse(q);
      }
    }
  }

  lemma NomDuChemin(v: Value, variante: Variante)
    requires NommeLeTexte(v, variante)
    ensures CheminNomme(Textuel(NomDe(v, variante))) == CheminNomme(variante(v))
  {
  }

  lemma ValeursNommees(i: Value, d: Value, variante: Variante)
    requires MemesValeurs(i, d, variante)
    ensures var n, p := Nommee(i, variante).m, d.m["plan"].m;
            && n.Keys == CLES && n["schema_version"] == Nombre(1) && n["plateforme"] == Texte("windows")
            && n["interface"] == p["interface"] && n["mtu"] == p["mtu"] && n["destinations"] == p["destinations"]
            && n["chemin"] == NomDe(p["chemin"], variante) && n["familles"] == NomsDe(p["familles"], variante)
            && p["chemin"] == i.m["chemin"] && p["familles"] == i.m["familles"]
  {
    hide Posee, NomDe, NomsDe, NommeLesTextes;
    var p := d.m["plan"].m;
    assert "chemin" in PLAN_CLES && "interface" in PLAN_CLES && "mtu" in PLAN_CLES && "familles" in PLAN_CLES && "destinations" in PLAN_CLES;
    assert i.m["chemin"] == p["chemin"] && i.m["interface"] == p["interface"] && i.m["mtu"] == p["mtu"];
    assert i.m["familles"] == p["familles"] && i.m["destinations"] == p["destinations"];
    assert Nommee(i, variante).m.Keys == CLES;
  }

  /** One plan for both: the declaration is read as the intention whose path and
      families are the texts it names; they both refuse, or both accept the same
      plan. */
  lemma UnSeulPlan(i: Value, d: Value, variante: Variante, x: Textes)
    requires MemesValeurs(i, d, variante)
    ensures !Desaccord(PlanDeLIntention(Nommee(i, variante), x), Declare(d, variante, x))
  {
    ValeursNommees(i, d, variante);
    var p := d.m["plan"].m;
    NomDuChemin(p["chemin"], variante);
    if p["familles"].Liste? {
      FamillesNommees(p["familles"].l, variante);
    }
    hide MemesValeurs, Posee, Nommee, NomDe, Declare, DesValeurs, PlanDeLIntention, CheminNomme, FamillesLues;
    IntentionJugee(Nommee(i, variante), x);
    PoseeDe(i, d, variante);
    DeclarationJugee(d, variante, x);
    assert FamillesDe(NomsDe(p["familles"], variante), Textuel) == FamillesDe(p["familles"], variante);
  }

  lemma PoseeDe(i: Value, d: Value, variante: Variante)
    requires MemesValeurs(i, d, variante)
    ensures Posee(d, "declaration-routage-windows", variante) && d.m["plan"].Objet? && d.m["plan"].m.Keys == PLAN_CLES
    ensures i.Objet? && i.m.Keys == CLES && i.m["schema_version"] == Nombre(1) && i.m["plateforme"] == Texte("windows")
  {
  }

  /** The two readers disagree on the same values exactly when the path or a family
      is not a text and the intention with the texts the deserialiser names in their
      place is accepted; the intention is then the one that refuses. */
  lemma DesaccordExact(i: Value, d: Value, variante: Variante, x: Textes)
    requires MemesValeurs(i, d, variante)
    ensures i.Objet? && i.m.Keys == CLES
    ensures Desaccord(PlanDeLIntention(i, x), Declare(d, variante, x)) <==>
              !(i.m["chemin"].Texte? && EnTextes(i.m["familles"])) && PlanDeLIntention(Nommee(i, variante), x).Ok?
    ensures Desaccord(PlanDeLIntention(i, x), Declare(d, variante, x)) ==> PlanDeLIntention(i, x).Err? && Declare(d, variante, x).Ok?
  {
    PoseeDe(i, d, variante);
    UnSeulPlan(i, d, variante, x);
    hide MemesValeurs, Posee, Declare;
    if i.m["chemin"].Texte? && EnTextes(i.m["familles"]) {
      NommeeTelle(i, variante);
    } else {
      NonTexteRefuse(i, x);
    }
  }

  lemma NommeeTelle(i: Value, variante: Variante)
    requires i.Objet? && i.m.Keys == CLES && i.m["chemin"].Texte? && EnTextes(i.m["familles"])
    ensures Nommee(i, variante) == i
  {
    var f := i.m["familles"];
    if f.Liste? {
      assert Noms(f.l, variante) == f.l;
    }
    assert Nommee(i, variante).m == i.m;
  }

  lemma NonTexteRefuse(i: Value, x: Textes)
    requires i.Objet? && i.m.Keys == CLES && !(i.m["chemin"].Texte? && EnTextes(i.m["familles"]))
    ensures PlanDeLIntention(i, x).Err?
  {
    hide PlanDesValeurs, DestinationsDIntention, Mtu;
    var f := i.m["familles"];
    if f.Liste? && FamillesLues(f.l, Textuel).Some? {
      FamillesEnTextes(f.l);
    }
  }

  /** A deserialiser that also names a variant by an object of one key. */
  function ParObjet(v: Value): Option<string> {
    if v.Texte? then Some(v.t)
    else if v.Objet? && v.m.Keys == {"coeur"} then Some("coeur")
    else if v.Objet? && v.m.Keys == {"ipv4"} then Some("ipv4")
    else None
  }

  function ObjetDe(nom: string): Value { Objet(map[nom := Null]) }

  /** The same five values, the path or a family written as an object: the intention
      refuses them and the declaration gives a plan. */
  lemma NonTexteAccepte(interface: string, instance: string, chemin: Value, famille: Value, x: Textes) returns (i: Value, d: Value)
    requires NomAdmis(interface) && Executions.InstanceValide(instance)
    requires chemin in {Texte("coeur"), ObjetDe("coeur")} && famille in {Texte("ipv4"), ObjetDe("ipv4")}
    requires !(chemin.Texte? && famille.Texte?)
    ensures MemesValeurs(i, d, ParObjet) && PlanDeLIntention(i, x).Err?
    ensures Declare(d, ParObjet, x) == Ok(PlanCoeur(interface, [Ipv4], 1420))
  {
    i := IntentionParObjet(interface, chemin, famille, x);
    d := Poser("declaration-routage-windows", instance, Objet(PlanParObjet(interface, chemin, famille)));
    hide Executions.InstanceValide, Posee, Poser, NomAdmis, PlanCoeur, PlanDeLIntention, Declare, CheminNomme, PlanDesValeurs, DesValeurs;
    hide EnTextes;
    var plan := PlanParObjet(interface, chemin, famille);
    assert plan["chemin"] == chemin && plan["interface"] == Texte(interface) && plan["mtu"] == Nombre(1420)
        && plan["familles"] == Liste([famille]) && plan["destinations"] == Null;
    hide PlanParObjet, PLAN_CLES, FamillesLues, NommeLeTexte;
    PoserPose("declaration-routage-windows", instance, Objet(plan), ParObjet);
    NomsParObjet(chemin, famille);
    assert "chemin" in PLAN_CLES && "familles" in PLAN_CLES;
    assert MemesValeurs(i, d, ParObjet);
    DeclarationJugee(d, ParObjet, x);
    ValeursJugees(interface, famille, x);
  }

  /** The five values of a plan through the core, for IPv4. */
  function PlanParObjet(interface: string, chemin: Value, famille: Value): (plan: map<string, Value>)
    ensures plan.Keys == PLAN_CLES
  {
    map["chemin" := chemin, "interface" := Texte(interface), "mtu" := Nombre(1420), "familles" := Liste([famille]), "destinations" := Null]
  }

  lemma IntentionParObjet(interface: string, chemin: Value, famille: Value, x: Textes) returns (i: Value)
    requires !(chemin.Texte? && famille.Texte?)
    ensures i.Objet? && i.m.Keys == CLES && i.m["schema_version"] == Nombre(1) && i.m["plateforme"] == Texte("windows")
    ensures forall k :: k in PLAN_CLES ==> i.m[k] == PlanParObjet(interface, chemin, famille)[k]
    ensures PlanDeLIntention(i, x).Err?
  {
    hide PlanDeLIntention;
    var plan := PlanParObjet(interface, chemin, famille);
    i := Objet(plan["schema_version" := Nombre(1)]["plateforme" := Texte("windows")]);
    assert i.m.Keys == CLES;
    assert i.m["familles"].l[0] == famille;
    NonTexteRefuse(i, x);
  }

  lemma NomsParObjet(chemin: Value, famille: Value)
    requires chemin in {Texte("coeur"), ObjetDe("coeur")} && famille in {Texte("ipv4"), ObjetDe("ipv4")}
    ensures ParObjet(chemin) == Some("coeur") && ParObjet(famille) == Some("ipv4")
    ensures NommeLeTexte(chemin, ParObjet) && NommeLesTextes([famille], ParObjet)
    ensures CheminNomme(ParObjet(chemin)) == Some(Coeur)
  {
    assert ObjetDe("coeur").m.Keys == {"coeur"} && ObjetDe("ipv4").m.Keys == {"ipv4"};
    assert "coeur" != "ipv4" by { assert |"coeur"| != |"ipv4"|; }
    assert "coeur" in ObjetDe("coeur").m.Keys && "coeur" !in ObjetDe("ipv4").m.Keys;
  }

  lemma ValeursJugees(interface: string, famille: Value, x: Textes)
    requires NomAdmis(interface) && ParObjet(famille) == Some("ipv4")
    ensures DesValeurs(Some(Coeur), Texte(interface), Nombre(1420), FamillesDe(Liste([famille]), ParObjet), Null, x)
            == Ok(PlanCoeur(interface, [Ipv4], 1420))
  {
    hide NomAdmis, PlanCoeur;
    assert [famille][..0] == [];
    assert FamilleNommee(Some("ipv4")) == Some(Ipv4);
    var familles: seq<Famille> := [Ipv4];
    assert [] + familles == familles;
    assert FamillesLues([famille], ParObjet) == Some(familles);
    assert FamillesDe(Liste([famille]), ParObjet) == Some(familles);
    assert PlanDesValeurs(Coeur, interface, 1420, familles, None) == Ok(PlanCoeur(interface, familles, 1420));
  }
}
