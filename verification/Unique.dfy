/**
 The strict JSON reader (crates/bifrost-cli/src/preuve_nft.rs:114-165): a key given
 twice is refused, at any depth, and so is a number that is not an integer. A text
 is a tree of entries here, in the order they were written.
 */
module Unique {
  import opened Commun
  import opened Json

  datatype Brut = BNull | BBool(b: bool) | BEntier(n: entier) | BReel | BTexte(t: string) | BListe(l: seq<Brut>) | BObjet(entrees: seq<Entree>)
  datatype Entree = Entree(cle: string, valeur: Brut)

  predicate ClesUniques(e: seq<Entree>) { forall i, j :: 0 <= i < j < |e| ==> e[i].cle != e[j].cle }

  /** No key twice and no real number, at any depth. */
  predicate Propre(b: Brut) {
    match b
    case BListe(l) => forall i :: 0 <= i < |l| ==> Propre(l[i])
    case BObjet(e) => ClesUniques(e) && forall i :: 0 <= i < |e| ==> Propre(e[i].valeur)
    case BReel => false
    case _ => true
  }

  /** `v` is the value `b` writes: every entry is there, and nothing else. */
  predicate Ecrit(b: Brut, v: Value) {
    match b
    case BNull => v == Null
    case BBool(x) => v == Bool(x)
    case BEntier(n) => v == Nombre(n)
    case BReel => false
    case BTexte(t) => v == Texte(t)
    case BListe(l) => v.Liste? && |v.l| == |l| && forall i :: 0 <= i < |l| ==> Ecrit(l[i], v.l[i])
    case BObjet(e) =>
      && v.Objet?
      && (forall i :: 0 <= i < |e| ==> e[i].cle in v.m && Ecrit(e[i].valeur, v.m[e[i].cle]))
      && (forall k :: k in v.m ==> exists i :: 0 <= i < |e| && e[i].cle == k)
  }

  /** The visitor: accepted exactly when the text is clean, and then the value is
      the one written. */
  method Lire(b: Brut) returns (r: Result<Value>)
    ensures r.Ok? <==> Propre(b)
    ensures r.Ok? ==> Ecrit(b, r.value)
    decreases b
  {
    match b {
      case BNull => r := Ok(Null);
      case BBool(x) => r := Ok(Bool(x));
      case BEntier(n) => r := Ok(Nombre(n));
      case BReel => r := Err("nombre non entier hors perimetre");
      case BTexte(t) => r := Ok(Texte(t));
      case BListe(l) => r := LireListe(l);
      case BObjet(e) => r := LireObjet(e);
    }
  }

  method LireListe(l: seq<Brut>) returns (r: Result<Value>)
    ensures r.Ok? <==> Propre(BListe(l))
    ensures r.Ok? ==> Ecrit(BListe(l), r.value)
    decreases l
  {
    var v: seq<Value> := [];
    while |v| < |l|
      invariant |v| <= |l|
      invariant forall i :: 0 <= i < |v| ==> Propre(l[i]) && Ecrit(l[i], v[i])
    {
      var e := Lire(l[|v|]);
      if e.Err? {
        return e;
      }
      v := v + [e.value];
    }
    r := Ok(Liste(v));
  }

  /** The map holds the first `k` entries, all clean and of distinct keys. */
  ghost predicate EntreesLues(e: seq<Entree>, k: nat, m: map<string, Value>) {
    && k <= |e|
    && (forall i, j :: 0 <= i < j < k ==> e[i].cle != e[j].cle)
    && (forall i :: 0 <= i < k ==> Propre(e[i].valeur) && e[i].cle in m && Ecrit(e[i].valeur, m[e[i].cle]))
    && (forall c :: c in m ==> exists i :: 0 <= i < k && e[i].cle == c)
  }

  lemma UneEntreeDePlus(e: seq<Entree>, k: nat, m: map<string, Value>, v: Value)
    requires EntreesLues(e, k, m) && k < |e| && Propre(e[k].valeur) && Ecrit(e[k].valeur, v) && e[k].cle !in m
    ensures EntreesLues(e, k + 1, m[e[k].cle := v])
  {
  }

  method LireObjet(e: seq<Entree>) returns (r: Result<Value>)
    ensures r.Ok? <==> Propre(BObjet(e))
    ensures r.Ok? ==> Ecrit(BObjet(e), r.value)
    decreases e
  {
    hide Propre, Ecrit, EntreesLues;
    var m: map<string, Value> := map[];
    RienLu(e);
    var k := 0;
    while k < |e|
      invariant 0 <= k <= |e| && EntreesLues(e, k, m)
    {
      assert e[k] in e && e[k].valeur < e[k];
      var v := Lire(e[k].valeur);
      if v.Err? {
        Sale(e, k);
        return v;
      }
      if e[k].cle in m {
        CleRepetee(e, k, m);
        return Err("cle dupliquee");
      }
      UneEntreeDePlus(e, k, m, v.value);
      m := m[e[k].cle := v.value];
      k := k + 1;
    }
    ToutLu(e, m);
    r := Ok(Objet(m));
  }

  lemma RienLu(e: seq<Entree>)
    ensures EntreesLues(e, 0, map[])
  {
  }

  lemma Sale(e: seq<Entree>, k: nat)
    requires k < |e| && !Propre(e[k].valeur)
    ensures !Propre(BObjet(e))
  {
  }

  lemma CleRepetee(e: seq<Entree>, k: nat, m: map<string, Value>)
    requires EntreesLues(e, k, m) && k < |e| && e[k].cle in m
    ensures !Propre(BObjet(e))
  {
  }

  lemma ToutLu(e: seq<Entree>, m: map<string, Value>)
    requires EntreesLues(e, |e|, m)
    ensures Propre(BObjet(e)) && Ecrit(BObjet(e), Objet(m))
  {
  }

  /** The order of the keys does not change the value. */
  lemma {:induction false} ValeurUnique(b: Brut, v: Value, w: Value)
    requires Ecrit(b, v) && Ecrit(b, w)
    ensures v == w
    decreases b
  {
    match b {
      case BListe(l) =>
        forall i | 0 <= i < |l| ensures v.l[i] == w.l[i] {
          ValeurUnique(l[i], v.l[i], w.l[i]);
        }
        assert v.l == w.l;
      case BObjet(e) =>
        forall k ensures (k in v.m <==> k in w.m) && (k in v.m ==> v.m[k] == w.m[k]) {
          if k in v.m || k in w.m {
            var i :| 0 <= i < |e| && e[i].cle == k;
            assert e[i] in e && e[i].valeur < e[i];
            ValeurUnique(e[i].valeur, v.m[k], w.m[k]);
          }
        }
        assert v.m == w.m;
      case _ =>
    }
  }

  /** Two texts of one object, its entries written in two orders. */
  lemma OrdreIndifferent(e: seq<Entree>, f: seq<Entree>, v: Value)
    requires Ecrit(BObjet(e), v) && forall x :: x in e <==> x in f
    ensures Ecrit(BObjet(f), v)
  {
    forall i | 0 <= i < |f| ensures f[i].cle in v.m && Ecrit(f[i].valeur, v.m[f[i].cle]) {
      assert f[i] in e;
    }
    forall k | k in v.m ensures exists i :: 0 <= i < |f| && f[i].cle == k {
      var j :| 0 <= j < |e| && e[j].cle == k;
      assert e[j] in f;
    }
  }

  // ---------------------------------------------------------------------
  // What is refused, and what is written.
  // ---------------------------------------------------------------------

  /** `x` is `b`, or a part of it at any depth. */
  ghost predicate Dedans(x: Brut, b: Brut) {
    || x == b
    || match b
       case BListe(l) => exists i :: 0 <= i < |l| && Dedans(x, l[i])
       case BObjet(e) => exists i :: 0 <= i < |e| && Dedans(x, e[i].valeur)
       case _ => false
  }

  /** A real number, or an object that gives one key twice. */
  ghost predicate Fautif(x: Brut) {
    x == BReel || (x.BObjet? && exists i, j :: 0 <= i < j < |x.entrees| && x.entrees[i].cle == x.entrees[j].cle)
  }

  /** What is read is any text without a fault inside, however deep. */
  lemma {:induction false} PropreExact(b: Brut)
    ensures Propre(b) <==> forall x :: Dedans(x, b) ==> !Fautif(x)
    decreases b
  {
    assert Dedans(b, b);
    match b {
      case BListe(l) =>
        forall i | 0 <= i < |l| ensures Propre(l[i]) <==> forall x :: Dedans(x, l[i]) ==> !Fautif(x) {
          PropreExact(l[i]);
        }
        forall i, x | 0 <= i < |l| && Dedans(x, l[i]) ensures Dedans(x, b) {
        }
      case BObjet(e) =>
        forall i | 0 <= i < |e| ensures Propre(e[i].valeur) <==> forall x :: Dedans(x, e[i].valeur) ==> !Fautif(x) {
          assert e[i] in e;
          PropreExact(e[i].valeur);
        }
        forall i, x | 0 <= i < |e| && Dedans(x, e[i].valeur) ensures Dedans(x, b) {
        }
      case _ =>
    }
  }

  lemma FeuillesEcrites(x: bool, n: entier, t: string)
    ensures Ecrit(BNull, Null) && Ecrit(BBool(x), Bool(x)) && Ecrit(BEntier(n), Nombre(n)) && Ecrit(BTexte(t), Texte(t))
    ensures Ecrit(BListe([]), Liste([])) && Ecrit(BObjet([]), Objet(map[]))
  {
  }

  /** One element and one entry at a time, from the leaves: with `ValeurUnique`, the
      value a text writes. */
  lemma EcritUnParUn(l: seq<Brut>, s: seq<Value>, e: seq<Entree>, m: map<string, Value>, cle: string, b: Brut, v: Value)
    ensures Ecrit(BListe(l), Liste(s)) && Ecrit(b, v) ==> Ecrit(BListe(l + [b]), Liste(s + [v]))
    ensures Ecrit(BObjet(e), Objet(m)) && cle !in m && Ecrit(b, v) ==> Ecrit(BObjet(e + [Entree(cle, b)]), Objet(m[cle := v]))
  {
    if Ecrit(BListe(l), Liste(s)) && Ecrit(b, v) {
      forall i | 0 <= i < |l + [b]| ensures Ecrit((l + [b])[i], (s + [v])[i]) {
        assert i < |l| ==> (l + [b])[i] == l[i] && (s + [v])[i] == s[i];
      }
    }
    if Ecrit(BObjet(e), Objet(m)) && cle !in m && Ecrit(b, v) {
      var f, n := e + [Entree(cle, b)], m[cle := v];
      forall i | 0 <= i < |f| ensures f[i].cle in n && Ecrit(f[i].valeur, n[f[i].cle]) {
        assert i < |e| ==> f[i] == e[i];
      }
      forall k | k in n ensures exists i :: 0 <= i < |f| && f[i].cle == k {
        if k == cle {
          assert f[|e|].cle == k;
        } else {
          var j :| 0 <= j < |e| && e[j].cle == k;
          assert f[j].cle == k;
        }
      }
    }
  }
}
