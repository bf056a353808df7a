/**
 nft captures: their normal form and their comparison
 (crates/bifrost-cli/src/preuve_nft.rs:167-310 and 362-401,
 preuve_nft/nommes.rs:137-144 and 301-361), for tables, chains and rules.
 */
module Nft {
  import opened Commun
  import opened Json

  type Champs = map<string, Value>
  type CleTable = (string, string)
  type CleChaine = (string, string, string)

  datatype Genre = Table | Chaine | Regle

  /** One object of the global order: its kind and its normalised content. */
  datatype ObjetNft = ObjetNft(genre: Genre, v: Champs)

  const FAMILLES := {"inet", "ip", "ip6", "arp", "bridge", "netdev"}

  // ---------------------------------------------------------------------
  // One object: identity checked, handle and state values removed.
  // ---------------------------------------------------------------------

  /** `texte`: a non-empty string field. */
  function Lu(m: Champs, cle: string): Option<string> {
    if cle in m && m[cle].Texte? && m[cle].t != "" then Some(m[cle].t) else None
  }

  function U64(m: Champs, cle: string): bool { cle in m && m[cle].EstU64() }

  predicate Reference(v: Value) { v.Texte? && v.t != "" }

  /** An anonymous counter: exactly its two numbers, set to zero. */
  function Compteur(v: Value): Result<Value> {
    if v.Objet? && |v.m| == 2 && U64(v.m, "packets") && U64(v.m, "bytes")
    then Ok(Objet(v.m["packets" := Nombre(0)]["bytes" := Nombre(0)]))
    else Err("compteur non pris en charge")
  }

  /** An anonymous quota: the limit stays, the consumption goes, whole or not at all. */
  function Quota(v: Value): Result<Value> {
    if v.Objet? && (("used" !in v.m && "used_unit" !in v.m) || (U64(v.m, "used") && Lu(v.m, "used_unit").Some?))
    then Ok(Objet(v.m - {"used", "used_unit"}))
    else Err("quota non pris en charge")
  }

  function Dernier(v: Value): Result<Value> {
    if v.Null? || (v.Objet? && |v.m| == 1 && U64(v.m, "used")) then Ok(Null) else Err("dernier passage non pris en charge")
  }

  /** `nommes::instruction`: only the state values of an instruction are neutralised. */
  function Instruction(v: Value): Result<Value> {
    if !(v.Objet? && |v.m| == 1) then Err("instruction nft invalide")
    else if "counter" in v.m && !Reference(v.m["counter"]) then
      (match Compteur(v.m["counter"]) case Ok(c) => Ok(Objet(v.m["counter" := c])) case Err(e) => Err(e))
    else if "quota" in v.m && !Reference(v.m["quota"]) then
      (match Quota(v.m["quota"]) case Ok(q) => Ok(Objet(v.m["quota" := q])) case Err(e) => Err(e))
    else if "last" in v.m then
      (match Dernier(v.m["last"]) case Ok(d) => Ok(Objet(v.m["last" := d])) case Err(e) => Err(e))
    else Ok(v)
  }

  function Instructions(l: seq<Value>): (r: Result<seq<Value>>)
    ensures r.Ok? ==> |r.value| == |l| && forall i :: 0 <= i < |l| ==> Instruction(l[i]) == Ok(r.value[i])
    ensures r.Err? ==> exists i :: 0 <= i < |l| && Instruction(l[i]).Err?
  {
    if l == [] then Ok([])
    else
      match Instructions(l[..|l| - 1])
      case Err(e) => Err(e)
      case Ok(s) => match Instruction(l[|l| - 1]) case Err(e) => Err(e) case Ok(x) => Ok(s + [x])
  }

  predicate ChaineDeBase(m: Champs) { "hook" in m }

  predicate ChaineComplete(m: Champs) {
    ChaineDeBase(m) ==>
      && Lu(m, "type").Some? && Lu(m, "hook").Some?
      && "prio" in m && m["prio"].EstI64()
      && Lu(m, "policy") in {Some("accept"), Some("drop")}
  }

  /** One object of a capture, its kind known. */
  function LireObjet(genre: Genre, contenu: Value): Result<ObjetNft> {
    if !contenu.Objet? || Lu(contenu.m, "family").None? then Err("identite d'objet incomplete")
    else if Lu(contenu.m, "family").value !in FAMILLES then Err("famille nft inconnue")
    else if "handle" in contenu.m && !contenu.m["handle"].EstU64() then Err("handle nft invalide")
    else
      var m := contenu.m - {"handle"};
      match genre
      case Table => if Lu(m, "name").None? then Err("identite d'objet incomplete") else Ok(ObjetNft(Table, m))
      case Chaine =>
        if Lu(m, "table").None? || Lu(m, "name").None? then Err("identite d'objet incomplete")
        else if !ChaineComplete(m) then Err("chaine de base incomplete")
        else Ok(ObjetNft(Chaine, m))
      case Regle =>
        if Lu(m, "table").None? || Lu(m, "chain").None? then Err("identite d'objet incomplete")
        else if !("expr" in m && m["expr"].Liste? && m["expr"].l != []) then Err("expressions de regle absentes")
        else
          match Instructions(m["expr"].l)
          case Err(e) => Err(e)
          case Ok(l) => Ok(ObjetNft(Regle, m["expr" := Liste(l)]))
  }

  datatype Entree = Metainfo | Lue(o: ObjetNft)

  /** One entry of the `nftables` list, at its rank. */
  function LireEntree(entree: Value, rang: nat): Result<Entree> {
    if !entree.Objet? then Err("objet nft invalide")
    else if entree.m.Keys == {"metainfo"} then
      if rang == 0 && Champ(entree.m["metainfo"], "json_schema_version") == Some(Nombre(1)) then Ok(Metainfo)
      else Err("version de schema nft inconnue ou metainfo deplacee")
    else if rang == 0 then Err("version de schema nft absente")
    else
      var lu :=
        if entree.m.Keys == {"table"} then LireObjet(Table, entree.m["table"])
        else if entree.m.Keys == {"chain"} then LireObjet(Chaine, entree.m["chain"])
        else if entree.m.Keys == {"rule"} then LireObjet(Regle, entree.m["rule"])
        else Err("type d'objet nft non pris en charge");
      match lu case Ok(o) => Ok(Lue(o)) case Err(e) => Err(e)
  }

  // ---------------------------------------------------------------------
  // The capture as a function of its normalised order.
  // ---------------------------------------------------------------------

  function Nom(m: Champs, cle: string): string { if Lu(m, cle).Some? then Lu(m, cle).value else "" }

  function CleDeTable(m: Champs): CleTable { (Nom(m, "family"), Nom(m, "name")) }
  function CleDeChaine(m: Champs): CleChaine { (Nom(m, "family"), Nom(m, "table"), Nom(m, "name")) }
  function CleDeRegle(m: Champs): CleChaine { (Nom(m, "family"), Nom(m, "table"), Nom(m, "chain")) }

  function Tables(s: seq<ObjetNft>): map<CleTable, Champs> {
    if s == [] then map[]
    else
      var d, o := Tables(s[..|s| - 1]), s[|s| - 1];
      if o.genre == Table then d[CleDeTable(o.v) := o.v] else d
  }

  function Chaines(s: seq<ObjetNft>): map<CleChaine, Champs> {
    if s == [] then map[]
    else
      var d, o := Chaines(s[..|s| - 1]), s[|s| - 1];
      if o.genre == Chaine then d[CleDeChaine(o.v) := o.v] else d
  }

  /** The rules of one chain, in order. */
  function ReglesDe(s: seq<ObjetNft>, c: CleChaine): seq<Champs> {
    if s == [] then []
    else
      var o := s[|s| - 1];
      ReglesDe(s[..|s| - 1], c) + if o.genre == Regle && CleDeRegle(o.v) == c then [o.v] else []
  }

  function Regles(s: seq<ObjetNft>): map<CleChaine, seq<Champs>> {
    if s == [] then map[]
    else
      var d, o := Regles(s[..|s| - 1]), s[|s| - 1];
      if o.genre == Regle then
        var c := CleDeRegle(o.v);
        d[c := (if c in d then d[c] else []) + [o.v]]
      else d
  }

  /** The identity an object must not share with another of its kind. */
  predicate MemeIdentite(a: ObjetNft, b: ObjetNft) {
    || (a.genre == b.genre == Table && CleDeTable(a.v) == CleDeTable(b.v))
    || (a.genre == b.genre == Chaine && CleDeChaine(a.v) == CleDeChaine(b.v))
  }

  ghost predicate SansDouble(s: seq<ObjetNft>) {
    forall i, j :: 0 <= i < j < |s| ==> !MemeIdentite(s[i], s[j])
  }

  ghost predicate ParentsPresents(s: seq<ObjetNft>) {
    && (forall c :: c in Chaines(s) ==> (c.0, c.1) in Tables(s))
    && (forall c :: c in Regles(s) ==> c in Chaines(s))
  }

  /** The object found under an identity is in the sequence. */
  lemma {:induction false} TableDOu(s: seq<ObjetNft>, c: CleTable)
    ensures c in Tables(s) <==> exists i :: 0 <= i < |s| && s[i].genre == Table && CleDeTable(s[i].v) == c
    ensures c in Tables(s) ==> ObjetNft(Table, Tables(s)[c]) in s && CleDeTable(Tables(s)[c]) == c
  {
    if s != [] {
      var p, o := s[..|s| - 1], s[|s| - 1];
      TableDOu(p, c);
      assert s == p + [o];
      if o.genre == Table && CleDeTable(o.v) == c {
        assert s[|s| - 1].genre == Table;
      } else if c in Tables(p) {
        var i :| 0 <= i < |p| && p[i].genre == Table && CleDeTable(p[i].v) == c;
        assert s[i] == p[i];
      }
    }
  }

  lemma {:induction false} ChaineDOu(s: seq<ObjetNft>, c: CleChaine)
    ensures c in Chaines(s) <==> exists i :: 0 <= i < |s| && s[i].genre == Chaine && CleDeChaine(s[i].v) == c
    ensures c in Chaines(s) ==> ObjetNft(Chaine, Chaines(s)[c]) in s && CleDeChaine(Chaines(s)[c]) == c
  {
    if s != [] {
      var p, o := s[..|s| - 1], s[|s| - 1];
      ChaineDOu(p, c);
      assert s == p + [o];
      if o.genre == Chaine && CleDeChaine(o.v) == c {
        assert s[|s| - 1].genre == Chaine;
      } else if c in Chaines(p) {
        var i :| 0 <= i < |p| && p[i].genre == Chaine && CleDeChaine(p[i].v) == c;
        assert s[i] == p[i];
      }
    }
  }

  lemma {:induction false} ReglesParChaine(s: seq<ObjetNft>, c: CleChaine)
    ensures c in Regles(s) <==> ReglesDe(s, c) != []
    ensures c in Regles(s) ==> Regles(s)[c] == ReglesDe(s, c)
  {
    if s != [] {
      ReglesParChaine(s[..|s| - 1], c);
    }
  }

  /** How many times an object occurs, read off the three maps. */
  function Occurrences(t: map<CleTable, Champs>, c: map<CleChaine, Champs>, r: map<CleChaine, seq<Champs>>, o: ObjetNft): nat {
    match o.genre
    case Table => if CleDeTable(o.v) in t && t[CleDeTable(o.v)] == o.v then 1 else 0
    case Chaine => if CleDeChaine(o.v) in c && c[CleDeChaine(o.v)] == o.v then 1 else 0
    case Regle => if CleDeRegle(o.v) in r then multiset(r[CleDeRegle(o.v)])[o.v] else 0
  }

  predicate Nouvelle(t: map<CleTable, Champs>, c: map<CleChaine, Champs>, o: ObjetNft) {
    match o.genre
    case Table => CleDeTable(o.v) !in t
    case Chaine => CleDeChaine(o.v) !in c
    case Regle => true
  }

  lemma DerniereNouvelle(p: seq<ObjetNft>, x: ObjetNft)
    ensures Nouvelle(Tables(p), Chaines(p), x) <==> forall i :: 0 <= i < |p| ==> !MemeIdentite(p[i], x)
  {
    match x.genre {
      case Table => TableDOu(p, CleDeTable(x.v));
      case Chaine => ChaineDOu(p, CleDeChaine(x.v));
      case Regle =>
    }
  }

  lemma AjoutCompte(t: map<CleTable, Champs>, c: map<CleChaine, Champs>, r: map<CleChaine, seq<Champs>>, x: ObjetNft, o: ObjetNft)
    requires Nouvelle(t, c, x)
    ensures var k := CleDeRegle(x.v);
            var t' := if x.genre == Table then t[CleDeTable(x.v) := x.v] else t;
            var c' := if x.genre == Chaine then c[CleDeChaine(x.v) := x.v] else c;
            var r' := if x.genre == Regle then r[k := (if k in r then r[k] else []) + [x.v]] else r;
            Occurrences(t', c', r', o) == Occurrences(t, c, r, o) + if o == x then 1 else 0
  {
  }

  /** A capture's objects, whatever their interleaving, are in its three maps. */
  lemma {:induction false} OccurrencesLues(s: seq<ObjetNft>, o: ObjetNft)
    requires SansDouble(s)
    ensures multiset(s)[o] == Occurrences(Tables(s), Chaines(s), Regles(s), o)
  {
    if s != [] {
      var p, x := s[..|s| - 1], s[|s| - 1];
      assert s == p + [x];
      OccurrencesLues(p, o);
      hide Occurrences, MemeIdentite, CleDeTable, CleDeChaine, CleDeRegle, Nouvelle;
      DerniereNouvelle(p, x);
      AjoutCompte(Tables(p), Chaines(p), Regles(p), x, o);
    } else {
      assert Tables(s) == map[] && Chaines(s) == map[] && Regles(s) == map[];
    }
  }

  /** What the comparison of the maps says of the global orders. */
  ghost predicate MemesObjets(a: seq<ObjetNft>, b: seq<ObjetNft>) {
    multiset(a) == multiset(b) && forall c :: ReglesDe(a, c) == ReglesDe(b, c)
  }

  lemma MemesCartes(a: seq<ObjetNft>, b: seq<ObjetNft>)
    requires SansDouble(a) && SansDouble(b)
    requires Tables(a) == Tables(b) && Chaines(a) == Chaines(b) && Regles(a) == Regles(b)
    ensures MemesObjets(a, b)
  {
    forall o ensures multiset(a)[o] == multiset(b)[o] {
      OccurrencesLues(a, o);
      OccurrencesLues(b, o);
    }
    forall c ensures ReglesDe(a, c) == ReglesDe(b, c) {
      ReglesParChaine(a, c);
      ReglesParChaine(b, c);
    }
  }

  lemma TablesIncluses(a: seq<ObjetNft>, b: seq<ObjetNft>, c: CleTable)
    requires SansDouble(b) && multiset(a) == multiset(b) && c in Tables(a)
    ensures c in Tables(b) && Tables(b)[c] == Tables(a)[c]
  {
    TableDOu(a, c);
    var o := ObjetNft(Table, Tables(a)[c]);
    assert o in multiset(a);
    OccurrencesLues(b, o);
  }

  lemma ChainesIncluses(a: seq<ObjetNft>, b: seq<ObjetNft>, c: CleChaine)
    requires SansDouble(b) && multiset(a) == multiset(b) && c in Chaines(a)
    ensures c in Chaines(b) && Chaines(b)[c] == Chaines(a)[c]
  {
    ChaineDOu(a, c);
    var o := ObjetNft(Chaine, Chaines(a)[c]);
    assert o in multiset(a);
    OccurrencesLues(b, o);
  }

  /** Equal maps: the same objects, each chain's rules in the same order, under
      some interleaving. */
  lemma CartesOuObjets(a: seq<ObjetNft>, b: seq<ObjetNft>)
    requires SansDouble(a) && SansDouble(b)
    ensures Tables(a) == Tables(b) && Chaines(a) == Chaines(b) && Regles(a) == Regles(b) <==> MemesObjets(a, b)
  {
    if Tables(a) == Tables(b) && Chaines(a) == Chaines(b) && Regles(a) == Regles(b) {
      MemesCartes(a, b);
    }
    if MemesObjets(a, b) {
      forall c ensures (c in Tables(a) <==> c in Tables(b)) && (c in Tables(a) ==> Tables(b)[c] == Tables(a)[c]) {
        if c in Tables(a) { TablesIncluses(a, b, c); }
        if c in Tables(b) { TablesIncluses(b, a, c); }
      }
      assert Tables(a) == Tables(b);
      forall c ensures (c in Chaines(a) <==> c in Chaines(b)) && (c in Chaines(a) ==> Chaines(b)[c] == Chaines(a)[c]) {
        if c in Chaines(a) { ChainesIncluses(a, b, c); }
        if c in Chaines(b) { ChainesIncluses(b, a, c); }
      }
      assert Chaines(a) == Chaines(b);
      forall c ensures (c in Regles(a) <==> c in Regles(b)) && (c in Regles(a) ==> Regles(b)[c] == Regles(a)[c]) {
        ReglesParChaine(a, c);
        ReglesParChaine(b, c);
      }
      assert Regles(a) == Regles(b);
    }
  }
}
