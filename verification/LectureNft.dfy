/**
 Which captures the nft reader accepts, entry by entry and field by field
 (crates/bifrost-cli/src/preuve_nft.rs:167-310, preuve_nft/nommes.rs:301-361), and what
 each difference says of the objects of two captures (preuve_nft.rs:374-401). The
 product's own rendering (crates/bifrost-firewall/src/politique_nft.rs:130-148) is one
 of them.
 */
module LectureNft {
  import opened Commun
  import opened Json
  import opened Nft
  import opened ComparaisonNft

  // ---------------------------------------------------------------------
  // One object.
  // ---------------------------------------------------------------------

  /** A text that is there and not empty. */
  predicate Ecrit(m: Champs, cle: string) { cle in m && m[cle].Texte? && m[cle].t != "" }

  predicate EcritAinsi(m: Champs, cle: string, t: string) { cle in m && m[cle] == Texte(t) }

  /** Not negative, up to 2^64 - 1. */
  predicate Naturel(m: Champs, cle: string) { cle in m && m[cle].Nombre? && m[cle].n >= 0 }

  /** A known family, and a handle that is a natural number if there is one. */
  predicate Identifie(m: Champs) {
    && (EcritAinsi(m, "family", "inet") || EcritAinsi(m, "family", "ip") || EcritAinsi(m, "family", "ip6")
        || EcritAinsi(m, "family", "arp") || EcritAinsi(m, "family", "bridge") || EcritAinsi(m, "family", "netdev"))
    && ("handle" in m ==> Naturel(m, "handle"))
  }

  predicate TableLisible(m: Champs) { Identifie(m) && Ecrit(m, "name") }

  /** A base chain, one with a hook, also has a type, a priority and a policy: accept
      or drop. */
  predicate ChaineLisible(m: Champs) {
    && Identifie(m) && Ecrit(m, "table") && Ecrit(m, "name")
    && ("hook" in m ==>
          && Ecrit(m, "type") && Ecrit(m, "hook")
          && "prio" in m && m["prio"].Nombre? && m["prio"].n < 9223372036854775808
          && (EcritAinsi(m, "policy", "accept") || EcritAinsi(m, "policy", "drop")))
  }

  predicate RegleLisible(m: Champs) {
    && Identifie(m) && Ecrit(m, "table") && Ecrit(m, "chain")
    && "expr" in m && m["expr"].Liste? && |m["expr"].l| > 0 && forall i :: 0 <= i < |m["expr"].l| ==> InstructionLisible(m["expr"].l[i])
  }

  /** One key. A counter, a quota or a last passage names an object, or is whole: two
      naturals; the consumption with its unit or without either; nothing or a natural. */
  predicate InstructionLisible(v: Value) {
    && v.Objet? && |v.m| == 1
    && ("counter" in v.m ==> Ecrit(v.m, "counter") || CompteurEntier(v.m["counter"]))
    && ("quota" in v.m ==> Ecrit(v.m, "quota") || QuotaEntier(v.m["quota"]))
    && ("last" in v.m ==> v.m["last"] == Null || (v.m["last"].Objet? && |v.m["last"].m| == 1 && Naturel(v.m["last"].m, "used")))
  }

  predicate CompteurEntier(v: Value) { v.Objet? && |v.m| == 2 && Naturel(v.m, "packets") && Naturel(v.m, "bytes") }

  predicate QuotaEntier(v: Value) {
    v.Objet? && (("used" !in v.m && "used_unit" !in v.m) || (Naturel(v.m, "used") && Ecrit(v.m, "used_unit")))
  }

  predicate Lisible(g: Genre, m: Champs) {
    match g case Table => TableLisible(m) case Chaine => ChaineLisible(m) case Regle => RegleLisible(m)
  }

  lemma InstructionEst(v: Value)
    ensures Instruction(v).Ok? <==> InstructionLisible(v)
  {
    if v.Objet? && |v.m| == 1 {
      var k := CleSeule(v.m);
      assert "counter" != "quota" by { assert |"counter"| != |"quota"|; }
      assert "counter" != "last" by { assert |"counter"| != |"last"|; }
      assert "quota" != "last" by { assert |"quota"| != |"last"|; }
    }
  }

  /** The reader takes an object exactly when its fields are these, and keeps them all
      but the handle and the state of its instructions. */
  lemma ObjetEst(g: Genre, v: Value)
    ensures LireObjet(g, v).Ok? <==> v.Objet? && Lisible(g, v.m)
    ensures LireObjet(g, v).Ok? && g != Regle ==> LireObjet(g, v).value == ObjetNft(g, v.m - {"handle"})
    ensures LireObjet(g, v).Ok? && g == Regle ==>
              LireObjet(g, v).value.genre == Regle && LireObjet(g, v).value.v - {"expr"} == v.m - {"handle", "expr"}
              && "expr" in LireObjet(g, v).value.v
              && Instructions(v.m["expr"].l) == Ok(LireObjet(g, v).value.v["expr"].l) && LireObjet(g, v).value.v["expr"].Liste?
  {
    hide Instruction, InstructionLisible;
    if v.Objet? {
      SansPoignee(v.m);
      if "expr" in v.m && v.m["expr"].Liste? {
        var l := v.m["expr"].l;
        forall i | 0 <= i < |l| ensures Instruction(l[i]).Ok? <==> InstructionLisible(l[i]) {
          InstructionEst(l[i]);
        }
        var r := Instructions(l);
      }
    }
  }

  lemma SansPoignee(m: Champs)
    ensures forall k :: k != "handle" ==> ((k in m - {"handle"} <==> k in m) && (k in m ==> (m - {"handle"})[k] == m[k]))
    ensures "handle" != "family" && "handle" != "expr"
  {
    assert |"handle"| == |"family"| && "handle"[0] != "family"[0];
    assert |"handle"| != |"expr"|;
  }

  // ---------------------------------------------------------------------
  // A whole capture.
  // ---------------------------------------------------------------------

  function Cle(g: Genre): string { match g case Table => "table" case Chaine => "chain" case Regle => "rule" }

  /** An entry with this key alone, over these fields. */
  predicate Porte(e: Value, cle: string, m: Champs) { e.Objet? && e.m.Keys == {cle} && e.m[cle] == Objet(m) }

  ghost predicate EstUn(e: Value, g: Genre, m: Champs) { Porte(e, Cle(g), m) && Lisible(g, m) }

  ghost predicate Reconnue(e: Value) { exists g, m :: EstUn(e, g, m) }

  /** The first entry: schema 1. */
  predicate EstMetainfo(e: Value) {
    e.Objet? && e.m.Keys == {"metainfo"} && e.m["metainfo"].Objet? && "json_schema_version" in e.m["metainfo"].m
    && e.m["metainfo"].m["json_schema_version"] == Nombre(1)
  }

  predicate Pareils(m: Champs, c: string, n: Champs, d: string) { c in m && d in n && m[c] == n[d] }

  /** Two tables of one family and name, or two chains of one table and name. */
  ghost predicate Doubles(l: seq<Value>, i: nat, j: nat)
    requires i < |l| && j < |l|
  {
    || (exists m, n :: EstUn(l[i], Table, m) && EstUn(l[j], Table, n) && Pareils(m, "family", n, "family") && Pareils(m, "name", n, "name"))
    || (exists m, n :: EstUn(l[i], Chaine, m) && EstUn(l[j], Chaine, n) && Pareils(m, "family", n, "family") && Pareils(m, "table", n, "table")
          && Pareils(m, "name", n, "name"))
  }

  /** A chain's table and a rule's chain are in the capture, before or after. */
  ghost predicate Rattachee(l: seq<Value>, i: nat)
    requires i < |l|
  {
    && (forall m :: EstUn(l[i], Chaine, m) ==>
          exists j, n :: 0 <= j < |l| && EstUn(l[j], Table, n) && Pareils(m, "family", n, "family") && Pareils(m, "table", n, "name"))
    && (forall m :: EstUn(l[i], Regle, m) ==>
          exists j, n :: 0 <= j < |l| && EstUn(l[j], Chaine, n) && Pareils(m, "family", n, "family") && Pareils(m, "table", n, "table")
            && Pareils(m, "chain", n, "name"))
  }

  lemma ClesDistinctes()
    ensures "table" != "chain" && "table" != "rule" && "chain" != "rule" && "metainfo" != "table" && "metainfo" != "chain" && "metainfo" != "rule"
  {
    assert |"table"| == |"chain"| && "table"[0] != "chain"[0];
    assert |"table"| != |"rule"| && |"chain"| != |"rule"| && |"metainfo"| != |"table"| && |"metainfo"| != |"rule"|;
  }

  /** One entry, by its rank. */
  lemma EntreeEst(e: Value, rang: nat)
    ensures rang == 0 ==> (LireEntree(e, rang).Ok? <==> EstMetainfo(e)) && (EstMetainfo(e) ==> LireEntree(e, rang) == Ok(Metainfo))
    ensures rang > 0 ==> (LireEntree(e, rang).Ok? <==> Reconnue(e))
    ensures rang > 0 && LireEntree(e, rang).Ok? ==> LireEntree(e, rang).value.Lue?
    ensures forall g, m :: rang > 0 && EstUn(e, g, m) ==> LireEntree(e, rang) == Ok(Lue(LireObjet(g, Objet(m)).value))
                                                          && LireObjet(g, Objet(m)).Ok? && LireObjet(g, Objet(m)).value.genre == g
  {
    ClesDistinctes();
    hide LireObjet, Lisible;
    forall g: Genre, v ensures LireObjet(g, v).Ok? <==> v.Objet? && Lisible(g, v.m) ensures LireObjet(g, v).Ok? ==> LireObjet(g, v).value.genre == g {
      ObjetEst(g, v);
    }
    if rang > 0 {
      if e.Objet? && e.m.Keys == {"table"} && LireObjet(Table, e.m["table"]).Ok? {
        assert EstUn(e, Table, e.m["table"].m);
      }
      if e.Objet? && e.m.Keys == {"chain"} && LireObjet(Chaine, e.m["chain"]).Ok? {
        assert EstUn(e, Chaine, e.m["chain"].m);
      }
      if e.Objet? && e.m.Keys == {"rule"} && LireObjet(Regle, e.m["rule"]).Ok? {
        assert EstUn(e, Regle, e.m["rule"].m);
      }
      forall g, m | EstUn(e, g, m) ensures LireEntree(e, rang) == Ok(Lue(LireObjet(g, Objet(m)).value)) {
        assert Cle(g) in e.m.Keys;
      }
    }
  }

  lemma EntreeDeRang(e: Value, rang: nat)
    ensures rang == 0 ==> (LireEntree(e, rang).Ok? <==> EstMetainfo(e)) && (EstMetainfo(e) ==> LireEntree(e, rang) == Ok(Metainfo))
    ensures rang > 0 && LireEntree(e, rang).Ok? ==> LireEntree(e, rang).value.Lue?
  {
    EntreeEst(e, rang);
  }

  lemma {:induction false} ObjetsSont(l: seq<Value>, n: nat)
    requires 0 < n <= |l|
    ensures Objets(l, n).Ok? <==> EstMetainfo(l[0]) && forall i :: 1 <= i < n ==> LireEntree(l[i], i).Ok?
    ensures Objets(l, n).Ok? ==> |Objets(l, n).value| == n - 1
    ensures Objets(l, n).Ok? ==> forall i :: 1 <= i < n ==> LireEntree(l[i], i) == Ok(Lue(Objets(l, n).value[i - 1]))
  {
    hide LireEntree, EstMetainfo;
    EntreeDeRang(l[n - 1], n - 1);
    if n > 1 {
      ObjetsSont(l, n - 1);
    } else {
      assert Objets(l, 0) == Ok([]);
    }
  }

  /** The identity an object is filed under is that of its fields. */
  lemma IdentiteDe(g: Genre, m: Champs)
    requires Lisible(g, m)
    ensures LireObjet(g, Objet(m)).Ok?
    ensures var o := LireObjet(g, Objet(m)).value;
            && o.genre == g && EcritAinsi(m, "family", Nom(o.v, "family"))
            && (g == Table ==> EcritAinsi(m, "name", Nom(o.v, "name")))
            && (g == Chaine ==> EcritAinsi(m, "table", Nom(o.v, "table")) && EcritAinsi(m, "name", Nom(o.v, "name")))
            && (g == Regle ==> EcritAinsi(m, "table", Nom(o.v, "table")) && EcritAinsi(m, "chain", Nom(o.v, "chain")))
  {
    ObjetEst(g, Objet(m));
    SansPoignee(m);
    NomsAutres();
    hide LireObjet, InstructionLisible;
    var v := LireObjet(g, Objet(m)).value.v;
    if g == Regle {
      assert forall k :: k != "handle" && k != "expr" ==> ((k in v <==> k in m) && (k in m ==> v[k] == m[k])) by {
        forall k | k != "handle" && k != "expr" ensures (k in v <==> k in m) && (k in m ==> v[k] == m[k]) {
          assert k in v <==> k in v - {"expr"};
          assert k in m <==> k in m - {"handle", "expr"};
          assert k in m ==> (v - {"expr"})[k] == (m - {"handle", "expr"})[k];
        }
      }
    }
  }

  lemma NomsAutres()
    ensures "handle" !in {"family", "table", "name", "chain", "expr"} && "expr" !in {"family", "table", "name", "chain"}
  {
    assert |"handle"| == 6 && |"family"| == 6 && "handle"[0] != "family"[0];
    assert |"table"| == 5 && |"chain"| == 5 && |"name"| == 4 && |"expr"| == 4 && "name"[0] != "expr"[0];
  }

  lemma MemesIdentites(l: seq<Value>, i: nat, j: nat, g: Genre, m: Champs, h: Genre, n: Champs)
    requires i < |l| && j < |l| && EstUn(l[i], g, m) && EstUn(l[j], h, n)
    ensures LireObjet(g, Objet(m)).Ok? && LireObjet(h, Objet(n)).Ok?
    ensures MemeIdentite(LireObjet(g, Objet(m)).value, LireObjet(h, Objet(n)).value) <==> Doubles(l, i, j)
  {
    IdentiteDe(g, m);
    IdentiteDe(h, n);
    SeulContenu(l[i], g, m);
    SeulContenu(l[j], h, n);
    hide LireObjet, EstUn, Nom;
  }

  lemma SeulContenu(e: Value, g: Genre, m: Champs)
    requires EstUn(e, g, m)
    ensures forall h, n :: EstUn(e, h, n) ==> h == g && n == m
  {
    ClesDistinctes();
    hide Lisible;
    forall h, n | EstUn(e, h, n) ensures h == g && n == m {
      assert Cle(h) in e.m.Keys && Cle(g) in e.m.Keys;
    }
  }

  // ---------------------------------------------------------------------
  // Parents, by rank.
  // ---------------------------------------------------------------------

  lemma {:induction false} ReglesDOu(s: seq<ObjetNft>, c: CleChaine)
    ensures c in Regles(s) <==> exists i :: 0 <= i < |s| && s[i].genre == Regle && CleDeRegle(s[i].v) == c
  {
    if s != [] {
      var p, o := s[..|s| - 1], s[|s| - 1];
      ReglesDOu(p, c);
      assert s == p + [o];
      if i :| 0 <= i < |p| && p[i].genre == Regle && CleDeRegle(p[i].v) == c {
        assert s[i] == p[i];
      }
    }
  }

  ghost predicate Parente(s: seq<ObjetNft>, i: nat)
    requires i < |s|
  {
    && (s[i].genre == Chaine ==>
          exists j :: 0 <= j < |s| && s[j].genre == Table && CleDeTable(s[j].v) == (CleDeChaine(s[i].v).0, CleDeChaine(s[i].v).1))
    && (s[i].genre == Regle ==> exists j :: 0 <= j < |s| && s[j].genre == Chaine && CleDeChaine(s[j].v) == CleDeRegle(s[i].v))
  }

  lemma ParentsParRang(s: seq<ObjetNft>)
    ensures ParentsPresents(s) <==> forall i :: 0 <= i < |s| ==> Parente(s, i)
  {
    hide Tables, Chaines, Regles, CleDeTable, CleDeChaine, CleDeRegle;
    if ParentsPresents(s) {
      forall i | 0 <= i < |s| ensures Parente(s, i) {
        if s[i].genre == Chaine {
          ChaineDOu(s, CleDeChaine(s[i].v));
          TableDOu(s, (CleDeChaine(s[i].v).0, CleDeChaine(s[i].v).1));
        } else if s[i].genre == Regle {
          ReglesDOu(s, CleDeRegle(s[i].v));
          ChaineDOu(s, CleDeRegle(s[i].v));
        }
      }
    }
    if forall i :: 0 <= i < |s| ==> Parente(s, i) {
      forall c | c in Chaines(s) ensures (c.0, c.1) in Tables(s) {
        ChaineDOu(s, c);
        TableDOu(s, (c.0, c.1));
        var i :| 0 <= i < |s| && s[i].genre == Chaine && CleDeChaine(s[i].v) == c;
        assert Parente(s, i);
      }
      forall c | c in Regles(s) ensures c in Chaines(s) {
        ReglesDOu(s, c);
        ChaineDOu(s, c);
        var i :| 0 <= i < |s| && s[i].genre == Regle && CleDeRegle(s[i].v) == c;
        assert Parente(s, i);
      }
    }
  }

  /** The objects of readable entries, in their order. */
  ghost predicate Lus(l: seq<Value>, s: seq<ObjetNft>) {
    && |l| == |s| + 1
    && forall i :: 1 <= i < |l| ==> exists g, m :: EstUn(l[i], g, m) && LireObjet(g, Objet(m)) == Ok(s[i - 1])
  }

  /** The entry an object was read from, and the object an entry gave. */
  lemma LuDe(l: seq<Value>, s: seq<ObjetNft>, i: nat) returns (g: Genre, m: Champs)
    requires Lus(l, s) && 1 <= i < |l|
    ensures EstUn(l[i], g, m) && LireObjet(g, Objet(m)) == Ok(s[i - 1]) && Lisible(g, m)
    ensures forall h, n :: EstUn(l[i], h, n) ==> h == g && n == m
  {
    g, m :| EstUn(l[i], g, m) && LireObjet(g, Objet(m)) == Ok(s[i - 1]);
    SeulContenu(l[i], g, m);
  }

  lemma ParenteEst(l: seq<Value>, s: seq<ObjetNft>, i: nat)
    requires Lus(l, s) && 1 <= i < |l| && EstMetainfo(l[0])
    ensures Parente(s, i - 1) <==> Rattachee(l, i)
  {
    hide LireObjet, EstUn, Nom, EstMetainfo, Lisible, Lus;
    SansContenu(l[0]);
    var g, m := LuDe(l, s, i);
    IdentiteDe(g, m);
    if g == Chaine {
      ParenteDeChaine(l, s, i, m);
    } else if g == Regle {
      ParenteDeRegle(l, s, i, m);
    }
  }

  lemma ChaineEtTable(m: Champs, n: Champs)
    requires Lisible(Chaine, m) && Lisible(Table, n)
    ensures LireObjet(Chaine, Objet(m)).Ok? && LireObjet(Table, Objet(n)).Ok?
    ensures var c := CleDeChaine(LireObjet(Chaine, Objet(m)).value.v);
            CleDeTable(LireObjet(Table, Objet(n)).value.v) == (c.0, c.1) <==> Pareils(m, "family", n, "family") && Pareils(m, "table", n, "name")
  {
    IdentiteDe(Chaine, m);
    IdentiteDe(Table, n);
    hide LireObjet, Nom, Lisible;
  }

  lemma RegleEtChaine(m: Champs, n: Champs)
    requires Lisible(Regle, m) && Lisible(Chaine, n)
    ensures LireObjet(Regle, Objet(m)).Ok? && LireObjet(Chaine, Objet(n)).Ok?
    ensures CleDeChaine(LireObjet(Chaine, Objet(n)).value.v) == CleDeRegle(LireObjet(Regle, Objet(m)).value.v) <==>
              Pareils(m, "family", n, "family") && Pareils(m, "table", n, "table") && Pareils(m, "chain", n, "name")
  {
    IdentiteDe(Regle, m);
    IdentiteDe(Chaine, n);
    hide LireObjet, Nom, Lisible;
  }

  lemma EstLisible(e: Value, g: Genre, m: Champs)
    requires EstUn(e, g, m)
    ensures Lisible(g, m)
  {
  }

  lemma ParenteDeChaine(l: seq<Value>, s: seq<ObjetNft>, i: nat, m: Champs)
    requires Lus(l, s) && 1 <= i < |l| && EstMetainfo(l[0]) && EstUn(l[i], Chaine, m) && LireObjet(Chaine, Objet(m)) == Ok(s[i - 1])
    ensures (exists j :: 0 <= j < |s| && s[j].genre == Table && CleDeTable(s[j].v) == (CleDeChaine(s[i - 1].v).0, CleDeChaine(s[i - 1].v).1))
       <==> exists j, n :: 0 <= j < |l| && EstUn(l[j], Table, n) && Pareils(m, "family", n, "family") && Pareils(m, "table", n, "name")
  {
    hide LireObjet, EstUn, EstMetainfo, Lisible, Lus, CleDeTable, CleDeChaine, Pareils;
    SansContenu(l[0]);
    LongueurLue(l, s);
    EstLisible(l[i], Chaine, m);
    if j :| 0 <= j < |s| && s[j].genre == Table && CleDeTable(s[j].v) == (CleDeChaine(s[i - 1].v).0, CleDeChaine(s[i - 1].v).1) {
      var n := ObjetDe(l, s, j + 1, Table);
      ChaineEtTable(m, n);
      assert EstUn(l[j + 1], Table, n);
    }
    if j, n :| 0 <= j < |l| && EstUn(l[j], Table, n) && Pareils(m, "family", n, "family") && Pareils(m, "table", n, "name") {
      var h, o := LuDe(l, s, j);
      ChaineEtTable(m, n);
      GenreLu(Table, n);
    }
  }

  lemma GenreLu(g: Genre, m: Champs)
    ensures LireObjet(g, Objet(m)).Ok? ==> LireObjet(g, Objet(m)).value.genre == g
  {
    ObjetEst(g, Objet(m));
  }

  lemma ObjetDe(l: seq<Value>, s: seq<ObjetNft>, i: nat, g: Genre) returns (n: Champs)
    requires Lus(l, s) && 1 <= i < |l| && i - 1 < |s| && s[i - 1].genre == g
    ensures EstUn(l[i], g, n) && LireObjet(g, Objet(n)) == Ok(s[i - 1]) && Lisible(g, n)
  {
    var h;
    h, n := LuDe(l, s, i);
    GenreLu(h, n);
  }

  lemma LongueurLue(l: seq<Value>, s: seq<ObjetNft>)
    requires Lus(l, s)
    ensures |l| == |s| + 1
  {
  }

  lemma ParenteDeRegle(l: seq<Value>, s: seq<ObjetNft>, i: nat, m: Champs)
    requires Lus(l, s) && 1 <= i < |l| && EstMetainfo(l[0]) && EstUn(l[i], Regle, m) && LireObjet(Regle, Objet(m)) == Ok(s[i - 1])
    ensures (exists j :: 0 <= j < |s| && s[j].genre == Chaine && CleDeChaine(s[j].v) == CleDeRegle(s[i - 1].v))
       <==> exists j, n :: 0 <= j < |l| && EstUn(l[j], Chaine, n) && Pareils(m, "family", n, "family") && Pareils(m, "table", n, "table")
              && Pareils(m, "chain", n, "name")
  {
    hide LireObjet, EstUn, EstMetainfo, Lisible, Lus, CleDeRegle, CleDeChaine, Pareils;
    SansContenu(l[0]);
    LongueurLue(l, s);
    EstLisible(l[i], Regle, m);
    if j :| 0 <= j < |s| && s[j].genre == Chaine && CleDeChaine(s[j].v) == CleDeRegle(s[i - 1].v) {
      var n := ChaineDeLaRegle(l, s, m, s[i - 1], j);
      assert EstUn(l[j + 1], Chaine, n);
    }
    if j, n :| 0 <= j < |l| && EstUn(l[j], Chaine, n) && Pareils(m, "family", n, "family") && Pareils(m, "table", n, "table")
                && Pareils(m, "chain", n, "name") {
      var h, o := LuDe(l, s, j);
      RegleEtChaine(m, n);
      GenreLu(Chaine, n);
    }
  }

  lemma ChaineDeLaRegle(l: seq<Value>, s: seq<ObjetNft>, m: Champs, o: ObjetNft, j: nat) returns (n: Champs)
    requires Lus(l, s) && j < |s| && Lisible(Regle, m) && LireObjet(Regle, Objet(m)) == Ok(o)
    requires s[j].genre == Chaine && CleDeChaine(s[j].v) == CleDeRegle(o.v)
    ensures j + 1 < |l| && EstUn(l[j + 1], Chaine, n)
    ensures Pareils(m, "family", n, "family") && Pareils(m, "table", n, "table") && Pareils(m, "chain", n, "name")
  {
    LongueurLue(l, s);
    hide LireObjet, EstUn, Lisible, Lus, CleDeRegle, CleDeChaine, Pareils;
    n := ObjetDe(l, s, j + 1, Chaine);
    RegleEtChaine(m, n);
  }

  lemma SansContenu(e: Value)
    requires EstMetainfo(e)
    ensures forall g, m :: !EstUn(e, g, m)
  {
    ClesDistinctes();
    hide Lisible;
    forall g, m ensures !EstUn(e, g, m) {
      assert Cle(g) != "metainfo" && "metainfo" in e.m.Keys;
    }
  }

  lemma DoublesEst(l: seq<Value>, s: seq<ObjetNft>)
    requires Lus(l, s)
    ensures SansDouble(s) <==> forall i, j :: 1 <= i < j < |l| ==> !Doubles(l, i, j)
  {
    hide LireObjet, EstUn, MemeIdentite, Doubles;
    forall i, j | 1 <= i < j < |l| ensures MemeIdentite(s[i - 1], s[j - 1]) <==> Doubles(l, i, j) {
      var g, m :| EstUn(l[i], g, m) && LireObjet(g, Objet(m)) == Ok(s[i - 1]);
      var h, n :| EstUn(l[j], h, n) && LireObjet(h, Objet(n)) == Ok(s[j - 1]);
      MemesIdentites(l, i, j, g, m, h, n);
    }
    if forall i, j :: 1 <= i < j < |l| ==> !Doubles(l, i, j) {
      forall i, j | 0 <= i < j < |s| ensures !MemeIdentite(s[i], s[j]) {
        assert MemeIdentite(s[i + 1 - 1], s[j + 1 - 1]) <==> Doubles(l, i + 1, j + 1);
      }
    }
  }

  /** The captures the reader accepts: schema 1 first, then tables, chains and rules
      whose fields read, no identity twice, every parent there. */
  ghost predicate CaptureLisible(racine: Value) {
    && racine.Objet? && racine.m.Keys == {"nftables"} && racine.m["nftables"].Liste?
    && var l := racine.m["nftables"].l;
       && |l| > 0 && EstMetainfo(l[0])
       && (forall i :: 1 <= i < |l| ==> Reconnue(l[i]))
       && (forall i, j :: 1 <= i < j < |l| ==> !Doubles(l, i, j))
       && forall i :: 1 <= i < |l| ==> Rattachee(l, i)
  }

  lemma LusDe(l: seq<Value>)
    requires |l| > 0 && Objets(l, |l|).Ok?
    ensures Lus(l, Objets(l, |l|).value) && EstMetainfo(l[0])
  {
    ObjetsSont(l, |l|);
    var s := Objets(l, |l|).value;
    hide Objets, LireEntree, LireObjet, EstUn, EstMetainfo;
    forall i | 1 <= i < |l| ensures exists g, m :: EstUn(l[i], g, m) && LireObjet(g, Objet(m)) == Ok(s[i - 1]) {
      EntreeEst(l[i], i);
      var g, m :| EstUn(l[i], g, m);
      assert LireEntree(l[i], i) == Ok(Lue(s[i - 1]));
    }
  }

  lemma ConditionsEst(l: seq<Value>, s: seq<ObjetNft>)
    requires Lus(l, s) && EstMetainfo(l[0])
    ensures SansDouble(s) <==> forall i, j :: 1 <= i < j < |l| ==> !Doubles(l, i, j)
    ensures ParentsPresents(s) <==> forall i :: 1 <= i < |l| ==> Rattachee(l, i)
  {
    LongueurLue(l, s);
    DoublesEst(l, s);
    ParentsParRang(s);
    hide EstUn, EstMetainfo, SansDouble, ParentsPresents, Doubles, Rattachee, Parente, Lus;
    forall i | 1 <= i < |l| ensures Parente(s, i - 1) <==> Rattachee(l, i) {
      ParenteEst(l, s, i);
    }
    if forall i :: 1 <= i < |l| ==> Rattachee(l, i) {
      forall i | 0 <= i < |s| ensures Parente(s, i) {
        assert Parente(s, i + 1 - 1) <==> Rattachee(l, i + 1);
      }
    }
  }

  /** Entry by entry and field by field. */
  lemma AccepteeExacte(racine: Value)
    ensures Acceptee(racine) <==> CaptureLisible(racine)
  {
    hide LireEntree, LireObjet, EstUn, Reconnue, EstMetainfo, Objets, SansDouble, ParentsPresents, Doubles, Rattachee, Parente, Lus;
    if Enveloppe(racine) && racine.m["nftables"].l != [] {
      var l := racine.m["nftables"].l;
      ObjetsSont(l, |l|);
      forall i | 1 <= i < |l| ensures LireEntree(l[i], i).Ok? <==> Reconnue(l[i]) {
        EntreeEst(l[i], i);
      }
      if Objets(l, |l|).Ok? {
        LusDe(l);
        ConditionsEst(l, Objets(l, |l|).value);
      }
    }
  }

  /** The base chains of a capture are its chains with a hook. */
  lemma ReferenceExacte(racine: Value)
    requires Acceptee(racine)
    ensures CaptureLisible(racine)
    ensures var l := racine.m["nftables"].l;
            AvecChaineDeBase(Normale(racine)) <==> exists i, m :: 1 <= i < |l| && EstUn(l[i], Chaine, m) && "hook" in m
  {
    AccepteeExacte(racine);
    var l, s := racine.m["nftables"].l, Normale(racine);
    LusDe(l);
    hide EstUn, Lus, LireObjet, CaptureLisible, Acceptee, Normale, Lisible;
    LongueurLue(l, s);
    if AvecChaineDeBase(s) {
      var o :| o in s && o.genre == Chaine && ChaineDeBase(o.v);
      var k :| 0 <= k < |s| && s[k] == o;
      var m := ObjetDe(l, s, k + 1, Chaine);
      CrochetGarde(m);
    }
    if i, m :| 1 <= i < |l| && EstUn(l[i], Chaine, m) && "hook" in m {
      var g, n := LuDe(l, s, i);
      GenreLu(g, n);
      CrochetGarde(n);
      assert s[i - 1] in s;
    }
  }

  lemma CrochetGarde(m: Champs)
    ensures LireObjet(Chaine, Objet(m)).Ok? ==> ("hook" in LireObjet(Chaine, Objet(m)).value.v <==> "hook" in m)
  {
    hide LireObjet, Lisible;
    ObjetEst(Chaine, Objet(m));
    SansPoignee(m);
    assert "hook" != "handle" by { assert |"hook"| != |"handle"|; }
  }

  // ---------------------------------------------------------------------
  // The product's own rendering.
  // ---------------------------------------------------------------------

  function Entree(cle: string, m: Champs): Value { Objet(map[cle := Objet(m)]) }

  const SCHEMA: Value := Entree("metainfo", map["json_schema_version" := Nombre(1)])
  const CHAINES := ["output", "input", "forward"]

  function TableRendue(): Champs { map["family" := Texte("inet"), "name" := Texte("bifrost")] }

  /** A base chain of policy drop. */
  function ChaineRendue(nom: string): Champs {
    map["family" := Texte("inet"), "table" := Texte("bifrost"), "name" := Texte(nom), "type" := Texte("filter"), "hook" := Texte(nom),
        "prio" := Nombre(0), "policy" := Texte("drop")]
  }

  function RegleRendue(chaine: string, expr: seq<Value>): Champs {
    map["family" := Texte("inet"), "table" := Texte("bifrost"), "chain" := Texte(chaine), "expr" := Liste(expr)]
  }

  datatype RegleDeLaPolitique = RegleDeLaPolitique(chaine: string, expr: seq<Value>)

  /** Schema, table, the three chains, then the rules: what the product expects. */
  function Rendu(regles: seq<RegleDeLaPolitique>): Value {
    Objet(map["nftables" := Liste(
      [SCHEMA, Entree("table", TableRendue()), Entree("chain", ChaineRendue("output")), Entree("chain", ChaineRendue("input")),
       Entree("chain", ChaineRendue("forward"))]
      + seq(|regles|, i requires 0 <= i < |regles| => Entree("rule", RegleRendue(regles[i].chaine, regles[i].expr))))])
  }

  lemma ChampsDistincts()
    ensures "family" != "table" && "family" != "name" && "family" != "type" && "family" != "hook" && "family" != "prio" && "family" != "policy"
    ensures "family" != "chain" && "family" != "expr" && "family" != "handle" && "family" != "counter"
    ensures "table" != "name" && "table" != "type" && "table" != "hook" && "table" != "prio" && "table" != "policy" && "table" != "chain"
    ensures "table" != "expr" && "table" != "handle"
    ensures "name" != "type" && "name" != "hook" && "name" != "prio" && "name" != "policy" && "name" != "handle"
    ensures "type" != "hook" && "type" != "prio" && "type" != "policy" && "type" != "handle"
    ensures "hook" != "prio" && "hook" != "policy" && "hook" != "handle" && "prio" != "policy" && "prio" != "handle" && "policy" != "handle"
    ensures "chain" != "expr" && "chain" != "handle" && "expr" != "handle" && "hook" != "chain" && "hook" != "expr"
  {
    assert |"family"| == |"policy"| == |"handle"| == 6 && "family"[0] == 'f' && "policy"[0] == 'p' && "handle"[0] == 'h';
    assert |"table"| == |"chain"| == 5 && "table"[0] == 't' && "chain"[0] == 'c' && |"counter"| == 7;
    assert |"name"| == |"type"| == |"hook"| == |"prio"| == |"expr"| == 4;
    assert "name"[0] == 'n' && "type"[0] == 't' && "hook"[0] == 'h' && "prio"[0] == 'p' && "expr"[0] == 'e';
  }

  lemma RenduLisible(nom: string, expr: seq<Value>)
    requires nom != "" && expr != [] && forall i :: 0 <= i < |expr| ==> InstructionLisible(expr[i])
    ensures TableLisible(TableRendue()) && ChaineLisible(ChaineRendue(nom)) && RegleLisible(RegleRendue(nom, expr))
    ensures "hook" in ChaineRendue(nom)
  {
    ChampsDistincts();
  }

  function Entrees(regles: seq<RegleDeLaPolitique>): seq<Value> { Rendu(regles).m["nftables"].l }

  /** The kind and the fields of each entry of the rendering. */
  function GenreRendu(i: nat): Genre { if i == 1 then Table else if i < 5 then Chaine else Nft.Regle }

  function ChampsRendus(regles: seq<RegleDeLaPolitique>, i: nat): Champs
    requires 1 <= i < 5 + |regles|
  {
    if i == 1 then TableRendue() else if i < 5 then ChaineRendue(CHAINES[i - 2]) else RegleRendue(regles[i - 5].chaine, regles[i - 5].expr)
  }

  /** A rule of one of the three chains, whose instructions read. */
  ghost predicate Rendable(r: RegleDeLaPolitique) {
    r.chaine in CHAINES && r.expr != [] && forall i :: 0 <= i < |r.expr| ==> InstructionLisible(r.expr[i])
  }

  lemma NomsDesChaines()
    ensures "output" != "input" && "output" != "forward" && "input" != "forward" && "output" != "" && "input" != "" && "forward" != ""
  {
    assert |"output"| == 6 && |"input"| == 5 && |"forward"| == 7;
  }

  lemma EntreesSont(regles: seq<RegleDeLaPolitique>, i: nat)
    requires 1 <= i < 5 + |regles|
    ensures |Entrees(regles)| == 5 + |regles| && Entrees(regles)[0] == SCHEMA
    ensures Entrees(regles)[i] == Entree(Cle(GenreRendu(i)), ChampsRendus(regles, i))
  {
    hide Entree, TableRendue, ChaineRendue, RegleRendue;
  }

  lemma ChampsLisibles(regles: seq<RegleDeLaPolitique>, i: nat)
    requires (forall r :: r in regles ==> Rendable(r)) && 1 <= i < 5 + |regles|
    ensures Lisible(GenreRendu(i), ChampsRendus(regles, i))
  {
    hide InstructionLisible, TableRendue, ChaineRendue, RegleRendue, TableLisible, ChaineLisible, RegleLisible;
    NomsDesChaines();
    if i < 5 {
      InstructionAcceptee();
      RenduLisible(if i == 1 then "output" else CHAINES[i - 2], [Objet(map["accept" := Null])]);
    } else {
      assert regles[i - 5] in regles;
      RenduLisible(regles[i - 5].chaine, regles[i - 5].expr);
    }
  }

  lemma EntreeRendue(regles: seq<RegleDeLaPolitique>, i: nat)
    requires (forall r :: r in regles ==> Rendable(r)) && 1 <= i < 5 + |regles|
    ensures |Entrees(regles)| == 5 + |regles| && EstUn(Entrees(regles)[i], GenreRendu(i), ChampsRendus(regles, i))
  {
    hide Rendable, Entrees, ChampsRendus, Lisible;
    EntreesSont(regles, i);
    ChampsLisibles(regles, i);
  }

  lemma InstructionAcceptee()
    ensures InstructionLisible(Objet(map["accept" := Null]))
  {
    assert |"accept"| == 6 && |"counter"| == 7 && |"quota"| == 5 && |"last"| == 4;
  }

  /** Entry `i` is this object, and no other. */
  ghost predicate Decrite(regles: seq<RegleDeLaPolitique>, i: nat)
    requires 1 <= i < 5 + |regles|
  {
    && |Entrees(regles)| == 5 + |regles| && EstUn(Entrees(regles)[i], GenreRendu(i), ChampsRendus(regles, i))
    && forall g, m :: EstUn(Entrees(regles)[i], g, m) ==> g == GenreRendu(i) && m == ChampsRendus(regles, i)
  }

  lemma ToutDecrit(regles: seq<RegleDeLaPolitique>)
    requires forall r :: r in regles ==> Rendable(r)
    ensures forall i :: 1 <= i < 5 + |regles| ==> Decrite(regles, i)
  {
    forall i | 1 <= i < 5 + |regles| ensures Decrite(regles, i) {
      EntreeRendue(regles, i);
      SeulContenu(Entrees(regles)[i], GenreRendu(i), ChampsRendus(regles, i));
    }
  }

  lemma NomDeChaine(i: nat, j: nat)
    requires 2 <= i < 5 && 2 <= j < 5
    ensures Pareils(ChaineRendue(CHAINES[i - 2]), "name", ChaineRendue(CHAINES[j - 2]), "name") <==> i == j
    ensures Pareils(ChaineRendue(CHAINES[i - 2]), "family", TableRendue(), "family") && Pareils(ChaineRendue(CHAINES[i - 2]), "table", TableRendue(), "name")
  {
    NomsDesChaines();
    ChampsDistincts();
  }

  lemma RenduSansDouble(regles: seq<RegleDeLaPolitique>, i: nat, j: nat)
    requires 1 <= i < j < 5 + |regles| && Decrite(regles, i) && Decrite(regles, j)
    ensures !Doubles(Entrees(regles), i, j)
  {
    hide EstUn, Entrees, ChaineRendue, TableRendue, RegleRendue, Pareils;
    if 2 <= i < j < 5 {
      NomDeChaine(i, j);
    }
  }

  lemma ChaineDeRegle(chaine: string, expr: seq<Value>)
    ensures Pareils(RegleRendue(chaine, expr), "family", ChaineRendue(chaine), "family")
    ensures Pareils(RegleRendue(chaine, expr), "table", ChaineRendue(chaine), "table")
    ensures Pareils(RegleRendue(chaine, expr), "chain", ChaineRendue(chaine), "name")
  {
    ChampsDistincts();
  }

  lemma ChaineRattachee(regles: seq<RegleDeLaPolitique>, i: nat)
    requires 2 <= i < 5 && Decrite(regles, i) && Decrite(regles, 1)
    ensures |Entrees(regles)| == 5 + |regles| && Rattachee(Entrees(regles), i)
  {
    hide EstUn, Entrees, ChaineRendue, TableRendue, RegleRendue, Pareils;
    NomDeChaine(i, i);
    assert EstUn(Entrees(regles)[1], Table, TableRendue());
  }

  lemma RegleRattachee(regles: seq<RegleDeLaPolitique>, i: nat, k: nat)
    requires 5 <= i < 5 + |regles| && 2 <= k < 5 && CHAINES[k - 2] == regles[i - 5].chaine && Decrite(regles, i) && Decrite(regles, k)
    ensures |Entrees(regles)| == 5 + |regles| && Rattachee(Entrees(regles), i)
  {
    hide EstUn, Entrees, ChaineRendue, TableRendue, RegleRendue, Pareils;
    ChaineDeRegle(regles[i - 5].chaine, regles[i - 5].expr);
    assert EstUn(Entrees(regles)[k], Chaine, ChaineRendue(CHAINES[k - 2]));
  }

  lemma RenduRattache(regles: seq<RegleDeLaPolitique>, i: nat)
    requires (forall r :: r in regles ==> Rendable(r)) && (forall k :: 1 <= k < 5 + |regles| ==> Decrite(regles, k)) && 1 <= i < 5 + |regles|
    ensures |Entrees(regles)| == 5 + |regles| && Rattachee(Entrees(regles), i)
  {
    hide Decrite, Entrees, InstructionLisible;
    if i == 1 {
      TableRattachee(regles);
    } else if i < 5 {
      ChaineRattachee(regles, i);
    } else {
      assert regles[i - 5] in regles;
      var k :| 0 <= k < 3 && CHAINES[k] == regles[i - 5].chaine;
      RegleRattachee(regles, i, k + 2);
    }
  }

  lemma TableRattachee(regles: seq<RegleDeLaPolitique>)
    requires Decrite(regles, 1)
    ensures |Entrees(regles)| == 5 + |regles| && Rattachee(Entrees(regles), 1)
  {
    hide EstUn, Entrees;
  }

  lemma SchemaRendu()
    ensures EstMetainfo(SCHEMA)
  {
  }

  lemma ChaineDeBaseRendue(regles: seq<RegleDeLaPolitique>)
    requires Acceptee(Rendu(regles)) && Decrite(regles, 2)
    ensures AvecChaineDeBase(Normale(Rendu(regles)))
  {
    var l, s := Entrees(regles), Normale(Rendu(regles));
    LusDe(l);
    LongueurLue(l, s);
    var g, m := LuDe(l, s, 2);
    ObjetEst(g, Objet(m));
    SansPoignee(m);
    assert g == Chaine && m == ChaineRendue("output");
    assert s[1].v == m - {"handle"} && "hook" in m;
    assert "hook" != "handle" by { ChampsDistincts(); }
    assert s[1] in s;
  }

  /** The product's rendering is accepted, and has its base chains. */
  lemma RenduAccepte(regles: seq<RegleDeLaPolitique>)
    requires forall r :: r in regles ==> Rendable(r)
    ensures Acceptee(Rendu(regles)) && AvecChaineDeBase(Normale(Rendu(regles)))
  {
    var l := Entrees(regles);
    ToutDecrit(regles);
    SchemaRendu();
    AccepteeExacte(Rendu(regles));
    assert |l| == 5 + |regles| && l[0] == SCHEMA;
    hide EstUn, Doubles, Rattachee, Rendable, EstMetainfo, Acceptee;
    forall i | 1 <= i < |l| ensures Reconnue(l[i]) && Rattachee(l, i) {
      assert Decrite(regles, i);
      RenduRattache(regles, i);
    }
    forall i, j | 1 <= i < j < |l| ensures !Doubles(l, i, j) {
      RenduSansDouble(regles, i, j);
    }
    assert Rendu(regles).m["nftables"] == Liste(l);
    ChaineDeBaseRendue(regles);
  }

  // ---------------------------------------------------------------------
  // What each difference says of two captures.
  // ---------------------------------------------------------------------

  lemma TableDedans(s: seq<ObjetNft>, o: ObjetNft)
    requires SansDouble(s) && o.genre == Table
    ensures o in s <==> CleDeTable(o.v) in Tables(s) && Tables(s)[CleDeTable(o.v)] == o.v
  {
    TableDOu(s, CleDeTable(o.v));
    OccurrencesLues(s, o);
    assert o in s <==> o in multiset(s);
    hide Tables, CleDeTable, SansDouble;
  }

  lemma ChaineDedans(s: seq<ObjetNft>, o: ObjetNft)
    requires SansDouble(s) && o.genre == Chaine
    ensures o in s <==> CleDeChaine(o.v) in Chaines(s) && Chaines(s)[CleDeChaine(o.v)] == o.v
  {
    ChaineDOu(s, CleDeChaine(o.v));
    OccurrencesLues(s, o);
    assert o in s <==> o in multiset(s);
    hide Chaines, CleDeChaine, SansDouble;
  }

  lemma TablesEgales(a: seq<ObjetNft>, b: seq<ObjetNft>)
    requires SansDouble(a) && SansDouble(b)
    ensures Tables(a) == Tables(b) <==> forall o: ObjetNft :: o.genre == Table ==> (o in a <==> o in b)
  {
    hide Tables, SansDouble, CleDeTable;
    forall o: ObjetNft | o.genre == Table
      ensures o in a <==> CleDeTable(o.v) in Tables(a) && Tables(a)[CleDeTable(o.v)] == o.v
      ensures o in b <==> CleDeTable(o.v) in Tables(b) && Tables(b)[CleDeTable(o.v)] == o.v
    {
      TableDedans(a, o);
      TableDedans(b, o);
    }
    if forall o: ObjetNft :: o.genre == Table ==> (o in a <==> o in b) {
      forall c ensures (c in Tables(a) <==> c in Tables(b)) && (c in Tables(a) ==> Tables(a)[c] == Tables(b)[c]) {
        TableDOu(a, c);
        TableDOu(b, c);
      }
    }
  }

  lemma ChainesEgales(a: seq<ObjetNft>, b: seq<ObjetNft>)
    requires SansDouble(a) && SansDouble(b)
    ensures Chaines(a) == Chaines(b) <==> forall o: ObjetNft :: o.genre == Chaine ==> (o in a <==> o in b)
  {
    hide Chaines, SansDouble, CleDeChaine;
    forall o: ObjetNft | o.genre == Chaine
      ensures o in a <==> CleDeChaine(o.v) in Chaines(a) && Chaines(a)[CleDeChaine(o.v)] == o.v
      ensures o in b <==> CleDeChaine(o.v) in Chaines(b) && Chaines(b)[CleDeChaine(o.v)] == o.v
    {
      ChaineDedans(a, o);
      ChaineDedans(b, o);
    }
    if forall o: ObjetNft :: o.genre == Chaine ==> (o in a <==> o in b) {
      forall c ensures (c in Chaines(a) <==> c in Chaines(b)) && (c in Chaines(a) ==> Chaines(a)[c] == Chaines(b)[c]) {
        ChaineDOu(a, c);
        ChaineDOu(b, c);
      }
    }
  }

  /** Each chain has the same rules in the same order. */
  ghost predicate MemesRegles(a: seq<ObjetNft>, b: seq<ObjetNft>) { forall c :: ReglesDe(a, c) == ReglesDe(b, c) }

  lemma ReglesEgales(a: seq<ObjetNft>, b: seq<ObjetNft>)
    ensures Regles(a) == Regles(b) <==> MemesRegles(a, b)
  {
    hide Regles;
    if Regles(a) == Regles(b) {
      forall c ensures ReglesDe(a, c) == ReglesDe(b, c) {
        ReglesParChaine(a, c);
        ReglesParChaine(b, c);
      }
      assert MemesRegles(a, b);
    }
    if MemesRegles(a, b) {
      forall c ensures (c in Regles(a) <==> c in Regles(b)) && (c in Regles(a) ==> Regles(a)[c] == Regles(b)[c]) {
        ReglesParChaine(a, c);
        ReglesParChaine(b, c);
        assert ReglesDe(a, c) == ReglesDe(b, c);
      }
      assert Regles(a) == Regles(b);
    }
  }

  /** Tables, chains and rules are each reported exactly when they differ; the order,
      only when nothing else does. */
  lemma EcartsExacts(a: seq<ObjetNft>, b: seq<ObjetNft>)
    requires SansDouble(a) && SansDouble(b)
    ensures var d := Differences(a, b);
            && (EcartTables in d <==> exists o: ObjetNft :: o.genre == Table && (o in a <==> o !in b))
            && (EcartChaines in d <==> exists o: ObjetNft :: o.genre == Chaine && (o in a <==> o !in b))
            && (EcartRegles in d <==> !MemesRegles(a, b))
            && (EcartOrdre in d <==> d == [EcartOrdre])
            && (EcartOrdre in d <==> a != b && multiset(a) == multiset(b) && MemesRegles(a, b))
  {
    TablesEgales(a, b);
    ChainesEgales(a, b);
    ReglesEgales(a, b);
    OrdreSeul(a, b);
    DifferencesSont(a, b);
    hide Tables, Chaines, Regles, SansDouble, Differences;
  }

  lemma DifferencesSont(a: seq<ObjetNft>, b: seq<ObjetNft>)
    ensures var d := Differences(a, b);
            && (EcartTables in d <==> Tables(a) != Tables(b)) && (EcartChaines in d <==> Chaines(a) != Chaines(b))
            && (EcartRegles in d <==> Regles(a) != Regles(b)) && (EcartOrdre in d <==> d == [EcartOrdre])
  {
    hide Tables, Chaines, Regles;
    var t, c, r := Tables(a) != Tables(b), Chaines(a) != Chaines(b), Regles(a) != Regles(b);
    QuatreEcarts(t, c, r, a != b);
    hide Si;
  }

  lemma QuatreEcarts(t: bool, c: bool, r: bool, ordre: bool)
    ensures var d := Si(t, EcartTables) + Si(c, EcartChaines) + Si(r, EcartRegles);
            && (d == [] <==> !t && !c && !r)
            && var e := d + Si(!t && !c && !r && ordre, EcartOrdre);
               && (EcartTables in e <==> t) && (EcartChaines in e <==> c) && (EcartRegles in e <==> r)
               && (EcartOrdre in e <==> e == [EcartOrdre]) && (EcartOrdre in e <==> !t && !c && !r && ordre)
  {
  }
}
