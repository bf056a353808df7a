/**
 What the strict readers of the daemon's declarations share
 (crates/bifrost-cli/src/declaration.rs:262-371 and 390-529). A reader starts from
 the JSON value the frame holds. How the deserialiser names an enumeration variant
 from a value is the parameter `variante`.
 */
module Declarations {
  import opened Commun
  import opened Json
  import Executions

  type Variante = Value -> Option<string>

  const HORS_SCHEMA := "declaration du daemon hors schema"
  const CLES_ROUTAGE := {"result", "schema_version", "instance", "application", "issue", "plan"}

  /** `Option<u32>`: null, or an integer that fits. */
  function Entier32(v: Value): Result<Option<u32>> {
    if v.Null? then Ok(None)
    else if v.Nombre? && 0 <= v.n < 0x1_0000_0000 then Ok(Some(v.n))
    else Err("types invalides")
  }

  function Textuel(v: Value): Option<string> { if v.Texte? then Some(v.t) else None }

  /** The product's rule for an interface name. */
  predicate NomAdmis(s: string) {
    && 0 < |s| <= 15
    && forall i :: 0 <= i < |s| ==>
         'a' <= s[i] <= 'z' || 'A' <= s[i] <= 'Z' || '0' <= s[i] <= '9' || s[i] == '-' || s[i] == '_'
  }

  predicate InterfaceAdmise(s: string) { NomAdmis(s) && s != "lo" }

  /** The part of a declaration above its plan. */
  datatype EnTete = EnTete(instance: string, application: u64, issue: string)

  function LireEnTete(v: Value, resultat: string, variante: Variante): Result<EnTete> {
    if !v.Objet? || v.m.Keys != CLES_ROUTAGE then Err(HORS_SCHEMA)
    else if v.m["result"] != Texte(resultat) || v.m["schema_version"] != Nombre(1) then Err(HORS_SCHEMA)
    else if !(v.m["instance"].Texte? && Executions.InstanceValide(v.m["instance"].t)) then Err(HORS_SCHEMA)
    else if !v.m["application"].EstU64() || variante(v.m["issue"]).None? then Err(HORS_SCHEMA)
    else Ok(EnTete(v.m["instance"].t, v.m["application"].n, variante(v.m["issue"]).value))
  }

  /** A numbered declaration that a plan is installed. */
  predicate Posee(v: Value, resultat: string, variante: Variante): (p: bool)
    ensures p ==> v.Objet? && v.m.Keys == CLES_ROUTAGE && LireEnTete(v, resultat, variante).Ok?
  {
    LireEnTete(v, resultat, variante).Ok?
    && LireEnTete(v, resultat, variante).value.issue == "pose" && LireEnTete(v, resultat, variante).value.application > 0
  }

  /** A value and the text the deserialiser names it by. A text names itself. */
  function NomDe(v: Value, variante: Variante): Value {
    if v.Texte? || variante(v).None? then v else Texte(variante(v).value)
  }

  predicate NommeLeTexte(v: Value, variante: Variante) { v.Texte? ==> variante(v) == Some(v.t) }

  /** Two readings of one plan disagree. */
  predicate Desaccord<T(==)>(a: Result<T>, b: Result<T>) { a.Ok? != b.Ok? || (a.Ok? && a.value != b.value) }

  /** A declaration that a plan is installed, its envelope in order. */
  function Poser(resultat: string, instance: string, plan: Value): Value {
    Objet(map["result" := Texte(resultat), "schema_version" := Nombre(1), "instance" := Texte(instance),
              "application" := Nombre(1), "issue" := Texte("pose"), "plan" := plan])
  }

  lemma PoserPose(resultat: string, instance: string, plan: Value, variante: Variante)
    requires Executions.InstanceValide(instance) && variante(Texte("pose")) == Some("pose")
    ensures var d := Poser(resultat, instance, plan); Posee(d, resultat, variante) && d.m["plan"] == plan
  {
    assert Poser(resultat, instance, plan).m.Keys == CLES_ROUTAGE;
  }
}
