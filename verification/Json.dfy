/** A JSON value as the strict readers see it: integers only, no key twice. */
module Json {
  import opened Commun

  /** What serde_json's integers hold: an i64 or a u64. */
  type entier = n: int | -0x8000_0000_0000_0000 <= n < 0x1_0000_0000_0000_0000

  datatype Value = Null | Bool(b: bool) | Nombre(n: entier) | Texte(t: string) | Liste(l: seq<Value>) | Objet(m: map<string, Value>) {
    predicate EstU64() { Nombre? && n >= 0 }
    predicate EstI64() { Nombre? && n < 0x8000_0000_0000_0000 }
  }

  /** `Value::get`: a field of an object, nothing of anything else. */
  function Champ(v: Value, cle: string): Option<Value> {
    if v.Objet? && cle in v.m then Some(v.m[cle]) else None
  }
}
