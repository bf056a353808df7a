/**
 A posed Linux plan, declared by the daemon and read back: the projection
 (crates/bifrost-daemon/src/supervisor.rs:432-455) is enough to rebuild the plan
 (crates/bifrost-cli/src/preuve_routes.rs:881-962).
 */
module RoutageDeclare {
  import opened Commun
  import opened Json
  import opened Declarations
  import opened PlanLinux
  import opened ValidateurLinux
  import DemonDeclare
  import Executions

  const RESULTAT := "declaration-routage"

  function Optionnel(n: Option<u32>): Value { match n case Some(v) => Nombre(v) case None => Null }

  function Valeur(m: bv32): u32 { m as int }

  /** `projeter_plan`, in its JSON form. */
  function Projeter(p: Plan): Value {
    var (chemin, marque, table, compte) :=
      match p.chemin
      case WireGuard(m, t) => ("wireguard", Some(Valeur(m)), Some(t), None)
      case Coeur(c) => ("coeur", None, None, c);
    Objet(map["chemin" := Texte(chemin), "interface" := Texte(p.interface), "fwmark" := Optionnel(marque), "table" := Optionnel(table),
              "coeur_uid" := Optionnel(compte)])
  }

  const ECRITURE: DemonDeclare.Ecriture<Plan> := DemonDeclare.Ecriture(RESULTAT, Projeter)

  /** The plans the proof compares: a valid interface, no zero mark, no reserved table,
      no root account. */
  predicate DansPerimetre(p: Plan) {
    && InterfaceAdmise(p.interface)
    && match p.chemin
       case WireGuard(m, t) => m != 0 && t !in TABLES_RESERVEES
       case Coeur(c) => c != Some(0)
  }

  lemma MarqueRelue(m: bv32)
    ensures Marque(Valeur(m)) == m && (Valeur(m) == 0 <==> m == 0)
  {
  }

  lemma OptionnelLu(n: Option<u32>)
    ensures Entier32(Optionnel(n)) == Ok(n)
  {
  }

  /** The deserialiser names every text by itself. */
  ghost predicate NommeLesTextes(variante: Variante) { forall t: string :: variante(Texte(t)) == Some(t) }

  /** What the reader types of a projected plan. */
  function Typee(p: Plan): PlanRoutage {
    match p.chemin
    case WireGuard(m, t) => PlanRoutage(ParWireguard, p.interface, Some(Valeur(m)), Some(t), None)
    case Coeur(c) => PlanRoutage(ParCoeur, p.interface, None, None, c)
  }

  lemma PlanLu(p: Plan, variante: Variante)
    requires NommeLesTextes(variante)
    ensures LirePlan(Projeter(p), variante) == Ok(Typee(p))
  {
    hide Entier32, Optionnel, Valeur;
    assert Projeter(p).m.Keys == PLAN_CLES;
    match p.chemin {
      case WireGuard(m, t) =>
        OptionnelLu(Some(Valeur(m)));
        OptionnelLu(Some(t));
        OptionnelLu(None);
        assert variante(Texte("wireguard")) == Some("wireguard");
      case Coeur(c) =>
        OptionnelLu(None);
        OptionnelLu(c);
        assert variante(Texte("coeur")) == Some("coeur");
        assert "coeur" != "wireguard" by { assert |"coeur"| != |"wireguard"|; }
    }
  }

  lemma PlanRejuge(p: Plan, n: u64)
    requires PlanDuProduit(p)
    ensures var r := PlanPose(Ok(Typee(p)), n); if DansPerimetre(p) then r == Ok(p) else r.Err?
  {
    hide InterfaceAdmise, Marque, Valeur, EtapesWireGuard, EtapesCoeur;
    match p.chemin {
      case WireGuard(m, t) => MarqueRelue(m);
      case Coeur(c) =>
    }
  }

  /** Reading back what the daemon declares of its routing: a plan exactly when one is
      posed, numbered and within the perimeter, and then that plan. */
  lemma DeclareeRelue(d: DemonDeclare.Demon<Plan>, variante: Variante)
    requires Executions.InstanceValide(d.instance) && NommeLesTextes(variante) && (d.retenue.Pose? ==> PlanDuProduit(d.retenue.plan))
    ensures var r := Declare(DemonDeclare.Publier(d, ECRITURE), variante);
            if d.retenue.Pose? && d.application > 0 && DansPerimetre(d.retenue.plan) then r == Ok(d.retenue.plan) else r.Err?
  {
    hide Executions.InstanceValide, PlanDuProduit, DansPerimetre, Projeter, LirePlan, PlanPose, Declare, DemonDeclare.Publier;
    var v := DemonDeclare.Publier(d, ECRITURE);
    EnTeteLue(d, variante);
    if d.retenue.Pose? && d.application > 0 {
      PlanLu(d.retenue.plan, variante);
      PlanRejuge(d.retenue.plan, d.application);
      DeclarePose(v, variante);
    } else {
      RienDePose(d, variante);
    }
  }

  lemma RienDePose(d: DemonDeclare.Demon<Plan>, variante: Variante)
    requires Executions.InstanceValide(d.instance) && NommeLesTextes(variante) && !(d.retenue.Pose? && d.application > 0)
    ensures Declare(DemonDeclare.Publier(d, ECRITURE), variante).Err?
  {
    hide Executions.InstanceValide, Projeter, LirePlan, DemonDeclare.Publier, LireEnTete, LireEtat, PlanCoherent;
    EnTeteLue(d, variante);
    if d.retenue.Pose? {
      PlanLu(d.retenue.plan, variante);
    }
  }

  lemma EnTeteLue(d: DemonDeclare.Demon<Plan>, variante: Variante)
    requires Executions.InstanceValide(d.instance) && NommeLesTextes(variante)
    ensures var v := DemonDeclare.Publier(d, ECRITURE);
            && LireEnTete(v, RESULTAT, variante).Ok?
            && LireEnTete(v, RESULTAT, variante).value.application == d.application
            && LireEtat(LireEnTete(v, RESULTAT, variante).value.issue)
               == (match d.retenue case NonApplicable => Some(NonApplicable) case Aucun => Some(Aucun) case EnEchec => None case Pose(_) => Some(Pose))
            && (d.retenue.Pose? && d.application > 0 ==> Posee(v, RESULTAT, variante))
            && v.Objet? && "plan" in v.m && v.m["plan"] == (if d.retenue.Pose? then Projeter(d.retenue.plan) else Null)
            && (d.retenue.Pose? ==> v.m["plan"].Objet?)
  {
    hide Executions.InstanceValide;
    var v := DemonDeclare.Publier(d, ECRITURE);
    assert v.m.Keys == CLES_ROUTAGE;
  }
}
