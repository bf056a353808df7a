/**
 Reading a capture, comparing two
 (crates/bifrost-cli/src/preuve_nft.rs:167-310 and 362-401).
 */
module ComparaisonNft {
  import opened Commun
  import opened Json
  import opened Nft

  /** The objects of the first `n` entries, in order. */
  function Objets(l: seq<Value>, n: nat): Result<seq<ObjetNft>>
    requires n <= |l|
  {
    if n == 0 then Ok([])
    else
      match Objets(l, n - 1)
      case Err(e) => Err(e)
      case Ok(s) =>
        match LireEntree(l[n - 1], n - 1)
        case Err(e) => Err(e)
        case Ok(Metainfo) => Ok(s)
        case Ok(Lue(o)) => Ok(s + [o])
  }

  predicate Enveloppe(racine: Value) { racine.Objet? && racine.m.Keys == {"nftables"} && racine.m["nftables"].Liste? }

  /** The captures the reader accepts. */
  ghost predicate Acceptee(racine: Value) {
    && Enveloppe(racine)
    && var l := racine.m["nftables"].l;
       l != [] && Objets(l, |l|).Ok? && SansDouble(Objets(l, |l|).value) && ParentsPresents(Objets(l, |l|).value)
  }

  /** The normal form of an accepted capture. */
  ghost function Normale(racine: Value): seq<ObjetNft>
    requires Acceptee(racine)
  {
    Objets(racine.m["nftables"].l, |racine.m["nftables"].l|).value
  }

  lemma {:induction false} ObjetsRefuses(l: seq<Value>, n: nat, k: nat)
    requires n <= k <= |l| && Objets(l, n).Err?
    ensures Objets(l, k).Err?
    decreases k
  {
    if n < k {
      ObjetsRefuses(l, n, k - 1);
    }
  }

  lemma {:induction false} ObjetsPrefixe(l: seq<Value>, n: nat, k: nat)
    requires n <= k <= |l| && Objets(l, k).Ok?
    ensures Objets(l, n).Ok? && Objets(l, n).value <= Objets(l, k).value
    decreases k
  {
    if n < k {
      ObjetsPrefixe(l, n, k - 1);
    }
  }

  class Capture {
    var ordre: seq<ObjetNft>
    var tables: map<CleTable, Champs>
    var chaines: map<CleChaine, Champs>
    var regles: map<CleChaine, seq<Champs>>

    constructor ()
      ensures Valid() && ordre == []
    {
      ordre, tables, chaines, regles := [], map[], map[], map[];
    }

    ghost predicate Valid()
      reads this
    {
      && tables == Tables(ordre) && chaines == Chaines(ordre) && regles == Regles(ordre)
      && SansDouble(ordre)
    }

    /** One object more, unless its identity is taken. */
    method Ajouter(o: ObjetNft) returns (ok: bool)
      requires Valid()
      modifies this
      ensures ok <==> SansDouble(old(ordre) + [o])
      ensures ok ==> Valid() && ordre == old(ordre) + [o]
    {
      hide Tables, Chaines, Regles, CleDeTable, CleDeChaine, CleDeRegle, MemeIdentite;
      DerniereNouvelle(ordre, o);
      SansDoubleSuite(ordre, o);
      CartesSuite(ordre, o);
      ok := true;
      match o.genre {
        case Table =>
          ok := CleDeTable(o.v) !in tables;
          tables := tables[CleDeTable(o.v) := o.v];
        case Chaine =>
          ok := CleDeChaine(o.v) !in chaines;
          chaines := chaines[CleDeChaine(o.v) := o.v];
        case Regle =>
          var c := CleDeRegle(o.v);
          regles := regles[c := (if c in regles then regles[c] else []) + [o.v]];
      }
      ordre := ordre + [o];
    }

    /** The parents an object needs: a table for a chain, a chain for a rule. */
    method Complete() returns (ok: bool)
      requires Valid()
      ensures ok <==> ParentsPresents(ordre)
    {
      hide Tables, Chaines, Regles;
      ok := (forall c :: c in chaines ==> (c.0, c.1) in tables) && (forall c :: c in regles ==> c in chaines);
    }
  }

  lemma SansDoubleSuite(s: seq<ObjetNft>, o: ObjetNft)
    requires SansDouble(s)
    ensures SansDouble(s + [o]) <==> forall i :: 0 <= i < |s| ==> !MemeIdentite(s[i], o)
  {
    var t := s + [o];
    if SansDouble(t) {
      forall i | 0 <= i < |s| ensures !MemeIdentite(s[i], o) {
        assert !MemeIdentite(t[i], t[|s|]);
      }
    }
  }

  lemma CartesSuite(s: seq<ObjetNft>, o: ObjetNft)
    ensures Tables(s + [o]) == if o.genre == Table then Tables(s)[CleDeTable(o.v) := o.v] else Tables(s)
    ensures Chaines(s + [o]) == if o.genre == Chaine then Chaines(s)[CleDeChaine(o.v) := o.v] else Chaines(s)
    ensures var c := CleDeRegle(o.v);
            Regles(s + [o]) == if o.genre == Regle then Regles(s)[c := (if c in Regles(s) then Regles(s)[c] else []) + [o.v]] else Regles(s)
  {
  }

  lemma DoubleTot(l: seq<Value>, n: nat)
    requires n <= |l| && Objets(l, n).Ok? && !SansDouble(Objets(l, n).value)
    ensures Objets(l, |l|).Ok? ==> !SansDouble(Objets(l, |l|).value)
  {
    if Objets(l, |l|).Ok? {
      ObjetsPrefixe(l, n, |l|);
    }
  }

  /** `analyser`: the maps and the order are filled together; accepted exactly when
      every entry is readable, no identity is taken twice and every parent is there. */
  method Analyser(racine: Value) returns (r: Result<Capture>)
    ensures r.Ok? <==> Acceptee(racine)
    ensures r.Ok? ==> fresh(r.value) && r.value.Valid() && r.value.ordre == Normale(racine)
  {
    hide SansDouble, ParentsPresents, LireEntree, Tables, Chaines, Regles;
    if !Enveloppe(racine) {
      return Err("enveloppe nftables absente ou inconnue");
    }
    var l := racine.m["nftables"].l;
    var capture := new Capture();
    for n := 0 to |l|
      invariant fresh(capture) && capture.Valid()
      invariant Objets(l, n) == Ok(capture.ordre)
    {
      var e := LireEntree(l[n], n);
      if e.Err? {
        ObjetsRefuses(l, n + 1, |l|);
        return Err(e.raison);
      }
      if e.value.Lue? {
        ghost var avant := capture.ordre;
        var ok := capture.Ajouter(e.value.o);
        if !ok {
          assert Objets(l, n + 1) == Ok(avant + [e.value.o]);
          DoubleTot(l, n + 1);
          return Err("objet duplique");
        }
      }
    }
    if l == [] {
      return Err("version de schema nft absente");
    }
    var complete := capture.Complete();
    if !complete {
      return Err("table ou chaine parente absente");
    }
    r := Ok(capture);
  }

  // ---------------------------------------------------------------------
  // The verdict.
  // ---------------------------------------------------------------------

  datatype Ecart = EcartTables | EcartChaines | EcartRegles | EcartOrdre

  datatype Verdict = NonMesure | Correspond | Differe

  /** The differences of two captures, from their normal forms. */
  function Differences(a: seq<ObjetNft>, b: seq<ObjetNft>): seq<Ecart> {
    var d := Si(Tables(a) != Tables(b), EcartTables) + Si(Chaines(a) != Chaines(b), EcartChaines) + Si(Regles(a) != Regles(b), EcartRegles);
    d + Si(d == [] && a != b, EcartOrdre)
  }

  ghost predicate AvecChaineDeBase(s: seq<ObjetNft>) { exists o :: o in s && o.genre == Chaine && ChaineDeBase(o.v) }

  class Rapport {
    var verdict: Verdict
    var differences: seq<Ecart>
    var failedInput: Option<string>

    /** `commencer`. */
    constructor ()
      ensures verdict == NonMesure && differences == [] && failedInput == Some("expected")
    {
      verdict, differences, failedInput := NonMesure, [], Some("expected");
    }

    /** `reference`: a capture with a base chain. */
    method Reference(racine: Value) returns (r: Result<Capture>)
      modifies this
      ensures r.Ok? <==> Acceptee(racine) && AvecChaineDeBase(Normale(racine))
      ensures r.Ok? ==> fresh(r.value) && r.value.Valid() && r.value.ordre == Normale(racine) && failedInput == Some("observed")
      ensures r.Err? ==> failedInput == old(failedInput)
      ensures verdict == old(verdict) && differences == old(differences)
    {
      var a := Analyser(racine);
      if a.Err? {
        return a;
      }
      ChaineDeBaseLue(a.value.ordre);
      assert a.value.chaines == Chaines(a.value.ordre);
      hide Tables, Chaines, Regles, Acceptee, Normale, AvecChaineDeBase, ChaineDeBase, SansDouble;
      if !(exists c :: c in a.value.chaines && ChaineDeBase(a.value.chaines[c])) {
        return Err("reference sans chaine de base");
      }
      failedInput := Some("observed");
      r := a;
    }

    /** `confronter`: the differences of the two captures and nothing else. */
    method Confronter(a: Capture, racine: Value) returns (r: Result<()>)
      requires a.Valid() && differences == []
      modifies this
      ensures r.Ok? <==> Acceptee(racine)
      ensures r.Ok? ==> failedInput == None && differences == Differences(old(a.ordre), Normale(racine))
      ensures r.Ok? ==> verdict == if differences == [] then Correspond else Differe
      ensures r.Err? ==> differences == [] && verdict == old(verdict) && failedInput == old(failedInput)
    {
      hide Tables, Chaines, Regles, SansDouble, Acceptee, Normale;
      var lue := Analyser(racine);
      if lue.Err? {
        return Err(lue.raison);
      }
      var b := lue.value;
      failedInput := None;
      if a.tables != b.tables {
        differences := differences + [EcartTables];
      }
      if a.chaines != b.chaines {
        differences := differences + [EcartChaines];
      }
      if a.regles != b.regles {
        differences := differences + [EcartRegles];
      }
      if differences == [] && a.ordre != b.ordre {
        differences := differences + [EcartOrdre];
      }
      verdict := if differences == [] then Correspond else Differe;
      r := Ok(());
    }

    /** `verifier_avec`: the reference, then the capture, each a read that may fail. */
    method Verifier(attendu: Result<Value>, observe: Result<Value>)
      requires verdict == NonMesure && differences == [] && failedInput == Some("expected")
      modifies this
      ensures failedInput == if attendu.Err? || !Acceptee(attendu.value) || !AvecChaineDeBase(Normale(attendu.value)) then Some("expected")
                             else if observe.Err? || !Acceptee(observe.value) then Some("observed") else None
      ensures failedInput != None ==> verdict == NonMesure && differences == []
      ensures failedInput == None ==>
                && verdict == (if Normale(attendu.value) == Normale(observe.value) then Correspond else Differe)
                && differences == Differences(Normale(attendu.value), Normale(observe.value))
    {
      hide Acceptee, Normale, AvecChaineDeBase, Differences;
      if attendu.Err? {
        return;
      }
      var a := Reference(attendu.value);
      if a.Err? || observe.Err? {
        return;
      }
      var r := Confronter(a.value, observe.value);
      if r.Ok? {
        CorrespondEgalite(Normale(attendu.value), Normale(observe.value));
      }
    }
  }

  lemma ChaineDeBaseLue(s: seq<ObjetNft>)
    requires SansDouble(s)
    ensures AvecChaineDeBase(s) <==> exists c :: c in Chaines(s) && ChaineDeBase(Chaines(s)[c])
  {
    if AvecChaineDeBase(s) {
      var o :| o in s && o.genre == Chaine && ChaineDeBase(o.v);
      assert o in multiset(s);
      OccurrencesLues(s, o);
      assert CleDeChaine(o.v) in Chaines(s);
    }
    if c :| c in Chaines(s) && ChaineDeBase(Chaines(s)[c]) {
      ChaineDOu(s, c);
    }
  }

  // ---------------------------------------------------------------------
  // What the verdict means.
  // ---------------------------------------------------------------------

  /** MATCH exactly when the normal forms are equal, as sequences. */
  lemma CorrespondEgalite(a: seq<ObjetNft>, b: seq<ObjetNft>)
    ensures Differences(a, b) == [] <==> a == b
  {
  }

  /** "object-order" alone exactly when the captures hold the same objects, each
      chain's rules in the same order, interleaved differently. */
  lemma OrdreSeul(a: seq<ObjetNft>, b: seq<ObjetNft>)
    requires SansDouble(a) && SansDouble(b)
    ensures Differences(a, b) == [EcartOrdre] <==> a != b && MemesObjets(a, b)
  {
    CartesOuObjets(a, b);
    hide Tables, Chaines, Regles, MemesObjets;
    var d := Si(Tables(a) != Tables(b), EcartTables) + Si(Chaines(a) != Chaines(b), EcartChaines) + Si(Regles(a) != Regles(b), EcartRegles);
    assert d == [] <==> Tables(a) == Tables(b) && Chaines(a) == Chaines(b) && Regles(a) == Regles(b);
    assert d != [] ==> d[0] != EcartOrdre;
    assert d + [] == d && [] + [EcartOrdre] == [EcartOrdre];
  }

  lemma Symetrique(a: seq<ObjetNft>, b: seq<ObjetNft>)
    ensures Differences(a, b) == Differences(b, a)
  {
  }

  /** An entry without the handle of its object. */
  function SansHandle(e: Value): Value {
    if e.Objet? then Objet(map k | k in e.m :: if e.m[k].Objet? then Objet(e.m[k].m - {"handle"}) else e.m[k]) else e
  }

  function SansHandles(l: seq<Value>): seq<Value> { seq(|l|, i requires 0 <= i < |l| => SansHandle(l[i])) }

  lemma ObjetSansHandle(g: Genre, c: Value)
    requires LireObjet(g, c).Ok?
    ensures LireObjet(g, Objet(c.m - {"handle"})) == LireObjet(g, c)
  {
    var m := c.m - {"handle"};
    assert m - {"handle"} == m;
    assert Lu(m, "family") == Lu(c.m, "family");
  }

  lemma EntreeSansHandle(e: Value, k: nat)
    requires LireEntree(e, k).Ok?
    ensures LireEntree(SansHandle(e), k) == LireEntree(e, k)
  {
    var f := SansHandle(e);
    assert f.m.Keys == e.m.Keys;
    if e.m.Keys == {"table"} {
      assert "table" in e.m;
      ObjetSansHandle(Table, e.m["table"]);
    } else if e.m.Keys == {"chain"} {
      assert "chain" in e.m;
      ObjetSansHandle(Chaine, e.m["chain"]);
    } else if e.m.Keys == {"rule"} {
      assert "rule" in e.m;
      ObjetSansHandle(Regle, e.m["rule"]);
    } else {
      assert "metainfo" in e.m;
    }
  }

  /** Handles never change what a readable capture says. */
  lemma {:induction false} AveugleAuxHandles(l: seq<Value>, n: nat)
    requires n <= |l| && Objets(l, n).Ok?
    ensures Objets(SansHandles(l), n) == Objets(l, n)
  {
    hide LireEntree, SansHandle;
    if n > 0 {
      AveugleAuxHandles(l, n - 1);
      EntreeSansHandle(l[n - 1], n - 1);
      assert SansHandles(l)[n - 1] == SansHandle(l[n - 1]);
    }
  }

  /** Two accepted captures that differ by their handles alone match. */
  lemma HandlesSeuls(a: Value, b: Value)
    requires Acceptee(a) && Acceptee(b)
    requires SansHandles(a.m["nftables"].l) == SansHandles(b.m["nftables"].l)
    ensures Differences(Normale(a), Normale(b)) == []
  {
    var l, m := a.m["nftables"].l, b.m["nftables"].l;
    assert |l| == |SansHandles(l)| == |m|;
    AveugleAuxHandles(l, |l|);
    AveugleAuxHandles(m, |m|);
    CorrespondEgalite(Normale(a), Normale(b));
  }

  // ---------------------------------------------------------------------
  // State values, and nothing else, are neutralised.
  // ---------------------------------------------------------------------

  /** Two instructions alike but for their state: counter values, quota
      consumption, last passage. */
  predicate MemesHorsEtat(x: Value, y: Value)
    requires x.Objet? && y.Objet?
  {
    && x.m.Keys == y.m.Keys
    && forall k :: k in x.m ==>
         if k == "counter" && !Reference(x.m[k]) then !Reference(y.m[k])
         else if k == "quota" && !Reference(x.m[k]) then
           y.m[k].Objet? && x.m[k].Objet? && x.m[k].m - {"used", "used_unit"} == y.m[k].m - {"used", "used_unit"}
         else if k == "last" then true
         else x.m[k] == y.m[k]
  }

  lemma CompteurNul(v: Value)
    requires Compteur(v).Ok?
    ensures Compteur(v).value == Objet(map["packets" := Nombre(0), "bytes" := Nombre(0)])
  {
    var s := v.m.Keys;
    assert "packets" != "bytes" by { assert |"packets"| != |"bytes"|; }
    assert {"packets", "bytes"} <= s && |s| == |v.m| == 2;
    assert |{"packets", "bytes"}| == 2;
    if k :| k in s && k !in {"packets", "bytes"} {
      assert {"packets", "bytes"} <= s - {k};
      assert |s - {k}| == 1;
      MoinsQue({"packets", "bytes"}, s - {k});
    }
    assert v.m.Keys == {"packets", "bytes"};
  }

  lemma MoinsQue<T>(a: set<T>, b: set<T>)
    requires a <= b
    ensures |a| <= |b|
  {
    if a != {} {
      var x :| x in a;
      MoinsQue(a - {x}, b - {x});
    }
  }

  /** The normal form of an instruction forgets its state and keeps the rest. */
  lemma EtatSeulIgnore(x: Value, y: Value)
    requires Instruction(x).Ok? && Instruction(y).Ok?
    ensures Instruction(x) == Instruction(y) <==> MemesHorsEtat(x, y)
  {
    var k := CleSeule(x.m);
    var j := CleSeule(y.m);
    var u, v := Instruction(x).value, Instruction(y).value;
    assert u.m.Keys == {k} && v.m.Keys == {j};
    if k != j {
      assert k in u.m && k !in v.m && k !in y.m;
    } else {
      NormaleDe(x, k);
      NormaleDe(y, k);
      assert u.m == v.m <==> u.m[k] == v.m[k];
      if k == "counter" && !Reference(x.m[k]) && !Reference(y.m[k]) {
        CompteurNul(x.m[k]);
        CompteurNul(y.m[k]);
      }
      MemesHorsEtatDe(x, y, k);
    }
  }

  lemma MemesHorsEtatDe(x: Value, y: Value, k: string)
    requires x.Objet? && y.Objet? && x.m.Keys == {k} && y.m.Keys == {k}
    ensures MemesHorsEtat(x, y) <==>
      if k == "counter" && !Reference(x.m[k]) then !Reference(y.m[k])
      else if k == "quota" && !Reference(x.m[k]) then
        y.m[k].Objet? && x.m[k].Objet? && x.m[k].m - {"used", "used_unit"} == y.m[k].m - {"used", "used_unit"}
      else if k == "last" then true
      else x.m[k] == y.m[k]
  {
  }

  lemma CleSeule(m: Champs) returns (k: string)
    requires |m| == 1
    ensures m.Keys == {k}
  {
    k :| k in m;
    if j :| j in m && j != k {
      MoinsQue({j, k}, m.Keys);
    }
  }

  lemma NormaleDe(x: Value, k: string)
    requires Instruction(x).Ok? && x.m.Keys == {k}
    ensures Instruction(x).value.Objet? && Instruction(x).value.m.Keys == {k}
    ensures Instruction(x).value.m[k] ==
      if k == "counter" && !Reference(x.m[k]) then Compteur(x.m[k]).value
      else if k == "quota" && !Reference(x.m[k]) then Quota(x.m[k]).value
      else if k == "last" then Null
      else x.m[k]
  {
  }

  /** Two objects alike but for their handle and the state of their instructions. */
  predicate MemeObjet(g: Genre, m: Champs, n: Champs)
    requires g == Regle ==> ExpressionsLisibles(m) && ExpressionsLisibles(n)
  {
    if g != Regle then m == n
    else
      && m - {"expr"} == n - {"expr"}
      && var a, b := m["expr"].l, n["expr"].l;
         |a| == |b| && forall i :: 0 <= i < |a| ==> MemesHorsEtat(a[i], b[i])
  }

  predicate ExpressionsLisibles(m: Champs) {
    "expr" in m && m["expr"].Liste? && forall i :: 0 <= i < |m["expr"].l| ==> Instruction(m["expr"].l[i]).Ok?
  }

  /** What the normal form of one object ignores, exactly. */
  lemma NormalesEgales(g: Genre, c: Value, d: Value)
    requires LireObjet(g, c).Ok? && LireObjet(g, d).Ok?
    ensures g == Regle ==> ExpressionsLisibles(c.m - {"handle"}) && ExpressionsLisibles(d.m - {"handle"})
    ensures LireObjet(g, c) == LireObjet(g, d) <==> MemeObjet(g, c.m - {"handle"}, d.m - {"handle"})
  {
    hide Instruction, MemesHorsEtat, Lu;
    var m, n := c.m - {"handle"}, d.m - {"handle"};
    if g == Regle {
      var a, b := m["expr"].l, n["expr"].l;
      var u, v := Instructions(a).value, Instructions(b).value;
      ListesEgales(a, b);
      assert m["expr" := Liste(u)] - {"expr"} == m - {"expr"};
      assert n["expr" := Liste(v)] - {"expr"} == n - {"expr"};
      assert m["expr" := Liste(u)] == (m - {"expr"})["expr" := Liste(u)];
      assert n["expr" := Liste(v)] == (n - {"expr"})["expr" := Liste(v)];
      assert m["expr" := Liste(u)]["expr"] == Liste(u) && n["expr" := Liste(v)]["expr"] == Liste(v);
    }
  }

  lemma ListeObjets(a: seq<Value>)
    requires Instructions(a).Ok?
    ensures forall i :: 0 <= i < |a| ==> a[i].Objet?
  {
  }

  lemma ElementsEgaux(a: seq<Value>, b: seq<Value>, i: nat)
    requires Instructions(a).Ok? && Instructions(b).Ok? && i < |a| && i < |b| && a[i].Objet? && b[i].Objet?
    ensures Instructions(a).value[i] == Instructions(b).value[i] <==> MemesHorsEtat(a[i], b[i])
  {
    hide Instruction, MemesHorsEtat, Instructions;
    assert Instruction(a[i]) == Ok(Instructions(a).value[i]);
    assert Instruction(b[i]) == Ok(Instructions(b).value[i]);
    EtatSeulIgnore(a[i], b[i]);
  }

  lemma ListesEgales(a: seq<Value>, b: seq<Value>)
    requires Instructions(a).Ok? && Instructions(b).Ok?
    ensures (forall i :: 0 <= i < |a| ==> a[i].Objet?) && (forall i :: 0 <= i < |b| ==> b[i].Objet?)
    ensures Instructions(a) == Instructions(b) <==> |a| == |b| && forall i :: 0 <= i < |a| ==> MemesHorsEtat(a[i], b[i])
  {
    hide MemesHorsEtat, Instructions, Instruction;
    ListeObjets(a);
    ListeObjets(b);
    var u, v := Instructions(a).value, Instructions(b).value;
    if |a| == |b| {
      forall i | 0 <= i < |a| ensures u[i] == v[i] <==> MemesHorsEtat(a[i], b[i]) {
        ElementsEgaux(a, b, i);
      }
      if forall i :: 0 <= i < |a| ==> MemesHorsEtat(a[i], b[i]) {
        assert u == v;
      }
      assert u == v ==> forall i :: 0 <= i < |a| ==> u[i] == v[i];
    }
    assert Instructions(a) == Ok(u) && Instructions(b) == Ok(v);
  }
}
