/**
 Two readers of one Linux routing plan: the intention
 (crates/bifrost-cli/src/preuve_routes.rs:242-316) and the posed declaration
 (crates/bifrost-cli/src/declaration.rs:323-371, then preuve_routes.rs:887-931).
 */
module ValidateurLinux {
  import opened Commun
  import opened Json
  import opened Declarations
  import opened PlanLinux
  import Executions

  const CLES := {"schema_version", "chemin", "interface", "fwmark", "table", "coeur_uid"}
  const PLAN_CLES := {"chemin", "interface", "fwmark", "table", "coeur_uid"}

  function Marque(n: u32): bv32 { n as bv32 }

  datatype CheminRoutage = ParWireguard | ParCoeur

  function LireChemin(nom: Option<string>): Option<CheminRoutage> {
    if nom == Some("wireguard") then Some(ParWireguard) else if nom == Some("coeur") then Some(ParCoeur) else None
  }

  function ParWireGuard(interface: string, m: Option<u32>, t: Option<u32>, c: Option<u32>): Result<Plan> {
    if m.None? || t.None? || c.Some? then Err("chemin WireGuard: marque et table exigees, pas de compte de coeur")
    else if m.value == 0 then Err("marque nulle interdite")
    else if t.value in TABLES_RESERVEES then Err("table reservee du noyau: hors perimetre de la reference")
    else Ok(PlanWireGuard(interface, Marque(m.value), t.value))
  }

  function ParLeCoeur(interface: string, m: Option<u32>, t: Option<u32>, c: Option<u32>): Result<Plan> {
    if m.Some? || t.Some? then Err("chemin par coeur: ni marque ni table dans l'intention")
    else if c == Some(0) then Err("compte de coeur root interdit")
    else Ok(PlanCoeur(interface, c))
  }

  /** The fields of an intention, judged. */
  function PlanDesChamps(chemin: Value, interface: Value, fwmark: Value, table: Value, coeurUid: Value): Result<Plan> {
    if !(interface.Texte? && InterfaceAdmise(interface.t)) then Err("interface d'intention de routage invalide")
    else
      var m, t, c := Entier32(fwmark), Entier32(table), Entier32(coeurUid);
      if m.Err? || t.Err? || c.Err? then Err("types d'intention de routage invalides")
      else
        match LireChemin(Textuel(chemin))
        case Some(ParWireguard) => ParWireGuard(interface.t, m.value, t.value, c.value)
        case Some(ParCoeur) => ParLeCoeur(interface.t, m.value, t.value, c.value)
        case None => Err("chemin d'intention de routage inconnu")
  }

  /** `plan_de_l_intention`. */
  function PlanDeLIntention(v: Value): Result<Plan> {
    if !v.Objet? || v.m.Keys != CLES then Err("champs d'intention de routage manquants ou inconnus")
    else if Entier32(v.m["schema_version"]) != Ok(Some(1)) then Err("version d'intention de routage inconnue")
    else PlanDesChamps(v.m["chemin"], v.m["interface"], v.m["fwmark"], v.m["table"], v.m["coeur_uid"])
  }

  datatype PlanRoutage = PlanRoutage(chemin: CheminRoutage, interface: string, fwmark: Option<u32>, table: Option<u32>, coeurUid: Option<u32>)

  datatype EtatRoutage = NonApplicable | Aucun | Pose

  datatype Declaration = Declaration(application: u64, issue: EtatRoutage, plan: Option<PlanRoutage>)

  function TyperChamps(chemin: Option<string>, interface: Value, fwmark: Value, table: Value, coeurUid: Value): Result<PlanRoutage> {
    var m, t, c := Entier32(fwmark), Entier32(table), Entier32(coeurUid);
    if m.Err? || t.Err? || c.Err? || !interface.Texte? || LireChemin(chemin).None? then Err(HORS_SCHEMA)
    else Ok(PlanRoutage(LireChemin(chemin).value, interface.t, m.value, t.value, c.value))
  }

  /** The typed plan: exact keys, then each field's type. */
  function LirePlan(v: Value, variante: Variante): Result<PlanRoutage> {
    if !v.Objet? || v.m.Keys != PLAN_CLES then Err(HORS_SCHEMA)
    else TyperChamps(variante(v.m["chemin"]), v.m["interface"], v.m["fwmark"], v.m["table"], v.m["coeur_uid"])
  }

  function LireEtat(issue: string): Option<EtatRoutage> {
    if issue == "non-applicable" then Some(NonApplicable) else if issue == "aucun" then Some(Aucun) else if issue == "pose" then Some(Pose) else None
  }

  predicate PlanCoherent(p: PlanRoutage) {
    match p.chemin
    case ParWireguard => p.fwmark.Some? && p.table.Some? && p.coeurUid.None?
    case ParCoeur => p.fwmark.None? && p.table.None?
  }

  /** `analyser_routage`. */
  function AnalyserRoutage(v: Value, variante: Variante): Result<Declaration> {
    match LireEnTete(v, "declaration-routage", variante)
    case Err(e) => Err(e)
    case Ok(t) =>
      var plan: Result<Option<PlanRoutage>> :=
        if v.m["plan"].Null? then Ok(None)
        else match LirePlan(v.m["plan"], variante) case Err(e) => Err(e) case Ok(p) => Ok(Some(p));
      if plan.Err? || LireEtat(t.issue).None? then Err(HORS_SCHEMA)
      else
        var issue := LireEtat(t.issue).value;
        var coherente := if issue == Pose then t.application > 0 && plan.value.Some? else plan.value.None?;
        if !coherente || (plan.value.Some? && !PlanCoherent(plan.value.value)) then Err(HORS_SCHEMA)
        else Ok(Declaration(t.application, issue, plan.value))
  }

  /** `plan_de_la_declaration`. */
  function PlanDeLaDeclaration(d: Declaration): Result<Plan> {
    match d.issue
    case NonApplicable => Err("le daemon ne declare pas de plan de routage")
    case Aucun => Err("aucun plan de routage pose par ce daemon: rien a comparer")
    case Pose =>
      if d.plan.None? then Err("declaration de routage posee sans plan")
      else
        var p := d.plan.value;
        if !InterfaceAdmise(p.interface) then Err("interface du plan declare hors perimetre de la reference")
        else
          match p.chemin
          case ParWireguard =>
            if p.fwmark.None? || p.table.None? then Err("plan WireGuard declare sans marque ni table")
            else if p.fwmark.value == 0 then Err("marque nulle: plan declare hors perimetre de la reference")
            else if p.table.value in TABLES_RESERVEES then Err("table reservee du noyau: plan declare hors perimetre")
            else Ok(PlanWireGuard(p.interface, Marque(p.fwmark.value), p.table.value))
          case ParCoeur =>
            if p.coeurUid == Some(0) then Err("compte de coeur root: plan declare hors perimetre")
            else Ok(PlanCoeur(p.interface, p.coeurUid))
  }

  /** The posed-declaration path, end to end. */
  function Declare(v: Value, variante: Variante): Result<Plan> {
    match AnalyserRoutage(v, variante) case Err(e) => Err(e) case Ok(d) => PlanDeLaDeclaration(d)
  }

  /** An intention and a posed declaration of the same values. */
  ghost predicate MemesValeurs(i: Value, d: Value, variante: Variante) {
    && i.Objet? && i.m.Keys == CLES && i.m["schema_version"] == Nombre(1)
    && Posee(d, "declaration-routage", variante)
    && d.m["plan"].Objet? && d.m["plan"].m.Keys == PLAN_CLES
    && (forall k :: k in PLAN_CLES ==> i.m[k] == d.m["plan"].m[k])
    && NommeLeTexte(i.m["chemin"], variante)
  }

  /** The intention, its path written as the text the deserialiser names it by. */
  function Nommee(i: Value, variante: Variante): Value
    requires i.Objet? && i.m.Keys == CLES
  { Objet(i.m["chemin" := NomDe(i.m["chemin"], variante)]) }

  /** The posed-declaration path, past its envelope. */
  function PlanPose(p: Result<PlanRoutage>, application: u64): Result<Plan> {
    if p.Err? || !PlanCoherent(p.value) then Err(HORS_SCHEMA) else PlanDeLaDeclaration(Declaration(application, Pose, Some(p.value)))
  }

  lemma DeclarePose(d: Value, variante: Variante)
    requires Posee(d, "declaration-routage", variante) && d.m["plan"].Objet?
    ensures var p := PlanPose(LirePlan(d.m["plan"], variante), LireEnTete(d, "declaration-routage", variante).value.application);
            Declare(d, variante) == p || (Declare(d, variante).Err? && p.Err?)
  {
    hide LirePlan, PlanDeLaDeclaration, PlanCoherent;
    assert LireEtat("pose") == Some(Pose);
  }

  lemma RienAPoser(n: u64)
    ensures PlanPose(Err(HORS_SCHEMA), n).Err?
  {
  }

  lemma WireGuardEgal(interface: string, m: Option<u32>, t: Option<u32>, c: Option<u32>, n: u64)
    ensures var w, p := ParWireGuard(interface, m, t, c), PlanPose(Ok(PlanRoutage(ParWireguard, interface, m, t, c)), n);
            if InterfaceAdmise(interface) then (w.Ok? <==> p.Ok?) && (w.Ok? ==> w == p) else p.Err?
  {
    hide InterfaceAdmise, PlanWireGuard, PlanCoeur, Marque;
  }

  lemma CoeurEgal(interface: string, m: Option<u32>, t: Option<u32>, c: Option<u32>, n: u64)
    ensures var k, p := ParLeCoeur(interface, m, t, c), PlanPose(Ok(PlanRoutage(ParCoeur, interface, m, t, c)), n);
            if InterfaceAdmise(interface) then (k.Ok? <==> p.Ok?) && (k.Ok? ==> k == p) else p.Err?
  {
    hide InterfaceAdmise, PlanWireGuard, PlanCoeur, Marque;
  }

  lemma Illisibles(chemin: string, interface: Value, fwmark: Value, table: Value, coeurUid: Value)
    requires Entier32(fwmark).Err? || Entier32(table).Err? || Entier32(coeurUid).Err? || !interface.Texte? || LireChemin(Some(chemin)).None?
    ensures PlanDesChamps(Texte(chemin), interface, fwmark, table, coeurUid).Err?
    ensures TyperChamps(Some(chemin), interface, fwmark, table, coeurUid) == Err(HORS_SCHEMA)
  {
    hide InterfaceAdmise, Entier32, ParWireGuard, ParLeCoeur, LireChemin;
  }

  lemma Lisibles(chemin: string, interface: string, fwmark: Value, table: Value, coeurUid: Value, c: CheminRoutage)
    requires Entier32(fwmark).Ok? && Entier32(table).Ok? && Entier32(coeurUid).Ok? && LireChemin(Some(chemin)) == Some(c)
    ensures var m, t, u := Entier32(fwmark).value, Entier32(table).value, Entier32(coeurUid).value;
            var i := PlanDesChamps(Texte(chemin), Texte(interface), fwmark, table, coeurUid);
            && TyperChamps(Some(chemin), Texte(interface), fwmark, table, coeurUid) == Ok(PlanRoutage(c, interface, m, t, u))
            && (if InterfaceAdmise(interface) then i == if c == ParWireguard then ParWireGuard(interface, m, t, u) else ParLeCoeur(interface, m, t, u)
                else i.Err?)
  {
    hide InterfaceAdmise, Entier32, ParWireGuard, ParLeCoeur, LireChemin;
  }

  lemma ChampsEgaux(chemin: string, interface: Value, fwmark: Value, table: Value, coeurUid: Value, n: u64)
    ensures var i := PlanDesChamps(Texte(chemin), interface, fwmark, table, coeurUid);
            var d := PlanPose(TyperChamps(Some(chemin), interface, fwmark, table, coeurUid), n);
            !Desaccord(i, d)
  {
    hide InterfaceAdmise, Entier32, ParWireGuard, ParLeCoeur, PlanPose, LireChemin, TyperChamps, PlanDesChamps;
    var m, t, u, c := Entier32(fwmark), Entier32(table), Entier32(coeurUid), LireChemin(Some(chemin));
    if m.Ok? && t.Ok? && u.Ok? && interface.Texte? && c.Some? {
      Lisibles(chemin, interface.t, fwmark, table, coeurUid, c.value);
      match c.value {
        case ParWireguard => WireGuardEgal(interface.t, m.value, t.value, u.value, n);
        case ParCoeur => CoeurEgal(interface.t, m.value, t.value, u.value, n);
      }
    } else {
      Illisibles(chemin, interface, fwmark, table, coeurUid);
      RienAPoser(n);
    }
  }

  /** A path that is neither a text nor a name of one is refused by both. */
  lemma CheminSansNom(v: Value, interface: Value, fwmark: Value, table: Value, coeurUid: Value, n: u64)
    requires !v.Texte?
    ensures PlanDesChamps(v, interface, fwmark, table, coeurUid).Err?
    ensures PlanPose(TyperChamps(None, interface, fwmark, table, coeurUid), n).Err?
  {
    hide InterfaceAdmise, Entier32, ParWireGuard, ParLeCoeur, PlanDeLaDeclaration, PlanCoherent;
  }

  lemma ValeursDuPlan(i: Value, d: Value, variante: Variante)
    requires MemesValeurs(i, d, variante)
    ensures var p := d.m["plan"].m;
            && LirePlan(d.m["plan"], variante) == TyperChamps(variante(i.m["chemin"]), i.m["interface"], i.m["fwmark"], i.m["table"], i.m["coeur_uid"])
            && PlanDeLIntention(i) == PlanDesChamps(i.m["chemin"], i.m["interface"], i.m["fwmark"], i.m["table"], i.m["coeur_uid"])
            && PlanDeLIntention(Nommee(i, variante))
               == PlanDesChamps(NomDe(i.m["chemin"], variante), i.m["interface"], i.m["fwmark"], i.m["table"], i.m["coeur_uid"])
  {
    hide Posee, TyperChamps, PlanDesChamps, NomDe;
    var p := d.m["plan"].m;
    assert "chemin" in PLAN_CLES && "interface" in PLAN_CLES && "fwmark" in PLAN_CLES && "table" in PLAN_CLES && "coeur_uid" in PLAN_CLES;
    assert i.m["chemin"] == p["chemin"] && i.m["interface"] == p["interface"] && i.m["fwmark"] == p["fwmark"];
    assert i.m["table"] == p["table"] && i.m["coeur_uid"] == p["coeur_uid"];
    assert Nommee(i, variante).m.Keys == CLES;
  }

  /** One plan for both: the declaration is read as the intention whose path is the
      text it names; they both refuse, or both accept the same plan. */
  lemma UnSeulPlan(i: Value, d: Value, variante: Variante)
    requires MemesValeurs(i, d, variante)
    ensures !Desaccord(PlanDeLIntention(Nommee(i, variante)), Declare(d, variante))
  {
    hide Posee, LireEnTete, Declare, PlanPose, PlanDesChamps, TyperChamps, LirePlan, PlanDeLIntention;
    DeclarePose(d, variante);
    ValeursDuPlan(i, d, variante);
    var n := LireEnTete(d, "declaration-routage", variante).value.application;
    match variante(i.m["chemin"]) {
      case Some(nom) => ChampsEgaux(nom, i.m["interface"], i.m["fwmark"], i.m["table"], i.m["coeur_uid"], n);
      case None => CheminSansNom(i.m["chemin"], i.m["interface"], i.m["fwmark"], i.m["table"], i.m["coeur_uid"], n);
    }
  }

  /** The two readers disagree on the same values exactly when the path is not a
      text, the deserialiser names one of the two paths by it, and the intention
      with that text in its place is accepted; the intention is then the one that
      refuses. */
  lemma DesaccordExact(i: Value, d: Value, variante: Variante)
    requires MemesValeurs(i, d, variante)
    ensures Desaccord(PlanDeLIntention(i), Declare(d, variante)) <==>
              && !i.m["chemin"].Texte? && variante(i.m["chemin"]) in {Some("wireguard"), Some("coeur")}
              && PlanDeLIntention(Nommee(i, variante)).Ok?
    ensures Desaccord(PlanDeLIntention(i), Declare(d, variante)) ==> PlanDeLIntention(i).Err? && Declare(d, variante).Ok?
  {
    hide MemesValeurs, Declare, PlanDeLIntention, Nommee;
    assert i.Objet? && i.m.Keys == CLES by { IntentionDe(i, d, variante); }
    UnSeulPlan(i, d, variante);
    if i.m["chemin"].Texte? {
      NommeeTelle(i, variante);
    } else {
      CheminRefuse(i, d, variante);
    }
  }

  lemma IntentionDe(i: Value, d: Value, variante: Variante)
    requires MemesValeurs(i, d, variante)
    ensures i.Objet? && i.m.Keys == CLES
  {
  }

  lemma NommeeTelle(i: Value, variante: Variante)
    requires i.Objet? && i.m.Keys == CLES && i.m["chemin"].Texte?
    ensures Nommee(i, variante) == i
  {
    assert Nommee(i, variante).m == i.m;
  }

  /** The intention refuses a path that is not a text; it accepts the text named in
      its place only when that is one of the two paths. */
  lemma CheminRefuse(i: Value, d: Value, variante: Variante)
    requires MemesValeurs(i, d, variante)
    requires i.Objet? && i.m.Keys == CLES && !i.m["chemin"].Texte?
    ensures PlanDeLIntention(i).Err?
    ensures PlanDeLIntention(Nommee(i, variante)).Ok? ==> variante(i.m["chemin"]) in {Some("wireguard"), Some("coeur")}
  {
    hide MemesValeurs, TyperChamps, LirePlan, PlanDeLIntention, Nommee, PlanDesChamps;
    ValeursDuPlan(i, d, variante);
    CheminSansNom(i.m["chemin"], i.m["interface"], i.m["fwmark"], i.m["table"], i.m["coeur_uid"], 0);
    var nom := NomDe(i.m["chemin"], variante);
    if PlanDesChamps(nom, i.m["interface"], i.m["fwmark"], i.m["table"], i.m["coeur_uid"]).Ok? {
      CheminAccepte(nom, i.m["interface"], i.m["fwmark"], i.m["table"], i.m["coeur_uid"]);
    }
  }

  lemma CheminAccepte(v: Value, interface: Value, fwmark: Value, table: Value, coeurUid: Value)
    requires PlanDesChamps(v, interface, fwmark, table, coeurUid).Ok?
    ensures Textuel(v) in {Some("wireguard"), Some("coeur")}
  {
    hide InterfaceAdmise, Entier32, ParWireGuard, ParLeCoeur;
  }

  /** A deserialiser that also names a path by an object of one key. */
  function ParObjet(v: Value): Option<string> {
    if v.Texte? then Some(v.t) else if v.Objet? && v.m.Keys == {"coeur"} then Some("coeur") else None
  }

  /** The same five values, the path written as an object: the intention refuses
      them and the declaration gives a plan. */
  lemma CheminParObjet(interface: string, instance: string) returns (i: Value, d: Value)
    requires InterfaceAdmise(interface) && Executions.InstanceValide(instance)
    ensures MemesValeurs(i, d, ParObjet) && PlanDeLIntention(i).Err?
    ensures Declare(d, ParObjet) == Ok(PlanCoeur(interface, None))
  {
    hide Executions.InstanceValide, Posee, Poser, InterfaceAdmise, PlanCoeur, PlanDesChamps, Declare;
    var chemin := Objet(map["coeur" := Null]);
    var plan := map["chemin" := chemin, "interface" := Texte(interface), "fwmark" := Null, "table" := Null, "coeur_uid" := Null];
    i, d := Objet(plan["schema_version" := Nombre(1)]), Poser("declaration-routage", instance, Objet(plan));
    assert plan.Keys == PLAN_CLES && i.m.Keys == CLES;
    PoserPose("declaration-routage", instance, Objet(plan), ParObjet);
    assert NomDe(chemin, ParObjet) == Texte("coeur");
    ValeursDuPlan(i, d, ParObjet);
    UnSeulPlan(i, d, ParObjet);
    CheminObjetJuge(chemin, interface);
  }

  lemma CheminObjetJuge(chemin: Value, interface: string)
    requires InterfaceAdmise(interface) && !chemin.Texte?
    ensures PlanDesChamps(chemin, Texte(interface), Null, Null, Null).Err?
    ensures PlanDesChamps(Texte("coeur"), Texte(interface), Null, Null, Null) == Ok(PlanCoeur(interface, None))
  {
    hide InterfaceAdmise, PlanCoeur;
  }
}
