/**
 Rust's `sort_by_key`: a stable sort. Its meaning is fixed by two facts, both
 proved here: the result is sorted, and for every key the elements of that key
 come out as the subsequence they were. Those two facts determine the result.
 */
module TriStable {

  /** `x` placed before the first element of `s` whose key is not smaller. */
  function Inserer<T>(x: T, s: seq<T>, cle: T -> int): (r: seq<T>)
    ensures |r| == |s| + 1
  {
    if s == [] then [x]
    else if cle(x) <= cle(s[0]) then [x] + s
    else [s[0]] + Inserer(x, s[1..], cle)
  }

  function Trier<T>(s: seq<T>, cle: T -> int): (r: seq<T>)
    ensures |r| == |s|
  {
    if s == [] then [] else Inserer(s[0], Trier(s[1..], cle), cle)
  }

  /** The elements of key `k`, in their order. */
  function DeCle<T>(s: seq<T>, cle: T -> int, k: int): seq<T> {
    if s == [] then []
    else (if cle(s[0]) == k then [s[0]] else []) + DeCle(s[1..], cle, k)
  }

  ghost predicate Trie<T>(s: seq<T>, cle: T -> int) {
    forall i, j :: 0 <= i < j < |s| ==> cle(s[i]) <= cle(s[j])
  }

  lemma {:induction false} InsererMembre<T>(x: T, s: seq<T>, cle: T -> int, y: T)
    ensures y in Inserer(x, s, cle) <==> y == x || y in s
  {
    if s != [] && cle(x) > cle(s[0]) {
      InsererMembre(x, s[1..], cle, y);
      assert s == [s[0]] + s[1..];
    }
  }

  lemma {:induction false} InsererTrie<T>(x: T, s: seq<T>, cle: T -> int)
    requires Trie(s, cle)
    ensures Trie(Inserer(x, s, cle), cle)
  {
    if s != [] && cle(x) > cle(s[0]) {
      InsererTrie(x, s[1..], cle);
      var r := Inserer(x, s[1..], cle);
      forall j | 0 <= j < |r| ensures cle(s[0]) <= cle(r[j]) {
        InsererMembre(x, s[1..], cle, r[j]);
        if r[j] != x {
          var m :| 0 <= m < |s[1..]| && s[1..][m] == r[j];
          assert s[m + 1] == r[j];
        }
      }
    }
  }

  lemma {:induction false} TrierMembre<T>(s: seq<T>, cle: T -> int, y: T)
    ensures y in Trier(s, cle) <==> y in s
  {
    if s != [] {
      TrierMembre(s[1..], cle, y);
      InsererMembre(s[0], Trier(s[1..], cle), cle, y);
      assert s == [s[0]] + s[1..];
    }
  }

  lemma {:induction false} TrierTrie<T>(s: seq<T>, cle: T -> int)
    ensures Trie(Trier(s, cle), cle)
  {
    if s != [] {
      TrierTrie(s[1..], cle);
      InsererTrie(s[0], Trier(s[1..], cle), cle);
    }
  }

  lemma DeCleTete<T>(x: T, s: seq<T>, cle: T -> int, k: int)
    ensures DeCle([x] + s, cle, k) == (if cle(x) == k then [x] else []) + DeCle(s, cle, k)
  {
  }

  lemma {:induction false} InsererStable<T>(x: T, s: seq<T>, cle: T -> int, k: int)
    requires Trie(s, cle)
    ensures DeCle(Inserer(x, s, cle), cle, k) == DeCle([x] + s, cle, k)
  {
    hide DeCle;
    if s != [] && cle(x) > cle(s[0]) {
      var y, t := s[0], s[1..];
      var r := Inserer(x, t, cle);
      assert Inserer(x, s, cle) == [y] + r && s == [y] + t;
      InsererStable(x, t, cle, k);
      DeCleTete(y, t, cle, k);
      DeCleTete(y, r, cle, k);
      DeCleTete(x, t, cle, k);
      DeCleTete(x, s, cle, k);
      Echange(if cle(x) == k then [x] else [], if cle(y) == k then [y] else [], DeCle(t, cle, k));
    } else {
      assert Inserer(x, s, cle) == [x] + s;
    }
  }

  lemma Echange<T>(x: seq<T>, y: seq<T>, s: seq<T>)
    requires x == [] || y == []
    ensures x + (y + s) == y + (x + s)
  {
  }

  /** Stability: sorting keeps every per-key subsequence. */
  lemma {:induction false} TrierStable<T>(s: seq<T>, cle: T -> int, k: int)
    ensures DeCle(Trier(s, cle), cle, k) == DeCle(s, cle, k)
  {
    if s != [] {
      TrierStable(s[1..], cle, k);
      TrierTrie(s[1..], cle);
      InsererStable(s[0], Trier(s[1..], cle), cle, k);
      assert ([s[0]] + Trier(s[1..], cle))[1..] == Trier(s[1..], cle);
    }
  }

  lemma {:induction false} DeCleMembre<T>(s: seq<T>, cle: T -> int, k: int, x: T)
    ensures x in DeCle(s, cle, k) <==> x in s && cle(x) == k
  {
    if s != [] {
      DeCleMembre(s[1..], cle, k, x);
      assert s == [s[0]] + s[1..];
    }
  }

  lemma {:induction false} DeCleVide<T>(s: seq<T>, cle: T -> int, k: int)
    requires forall x :: x in s ==> cle(x) != k
    ensures DeCle(s, cle, k) == []
  {
    if s != [] {
      DeCleVide(s[1..], cle, k);
    }
  }

  lemma {:induction false} DeCleUniforme<T>(s: seq<T>, cle: T -> int, k: int)
    requires forall x :: x in s ==> cle(x) == k
    ensures DeCle(s, cle, k) == s
  {
    if s != [] {
      DeCleUniforme(s[1..], cle, k);
    }
  }

  lemma {:induction false} DeCleConcat<T>(a: seq<T>, b: seq<T>, cle: T -> int, k: int)
    ensures DeCle(a + b, cle, k) == DeCle(a, cle, k) + DeCle(b, cle, k)
  {
    if a == [] {
      assert a + b == b;
    } else {
      var t := if cle(a[0]) == k then [a[0]] else [];
      assert (a + b)[0] == a[0] && (a + b)[1..] == a[1..] + b;
      DeCleConcat(a[1..], b, cle, k);
      assert DeCle(a, cle, k) == t + DeCle(a[1..], cle, k);
      assert DeCle(a + b, cle, k) == t + DeCle(a[1..] + b, cle, k);
    }
  }

  ghost predicate MemesParCle<T>(a: seq<T>, b: seq<T>, cle: T -> int) {
    forall k :: DeCle(a, cle, k) == DeCle(b, cle, k)
  }

  lemma {:induction false} TeteCommune<T>(a: seq<T>, b: seq<T>, cle: T -> int)
    requires Trie(a, cle) && Trie(b, cle)
    requires MemesParCle(a, b, cle)
    requires a != []
    ensures b != [] && a[0] == b[0]
  {
    var k := cle(a[0]);
    DeCleMembre(a, cle, k, a[0]);
    DeCleMembre(b, cle, k, a[0]);
    assert a[0] in b;
    var m := cle(b[0]);
    DeCleMembre(a, cle, m, b[0]);
    DeCleMembre(b, cle, m, b[0]);
    assert b[0] in a;
    assert k == m;
    assert DeCle(a, cle, k)[0] == a[0];
    assert DeCle(b, cle, k)[0] == b[0];
  }

  /** A sorted sequence is determined by its per-key subsequences. */
  lemma {:induction false} TrieDetermine<T>(a: seq<T>, b: seq<T>, cle: T -> int)
    requires Trie(a, cle) && Trie(b, cle)
    requires MemesParCle(a, b, cle)
    ensures a == b
  {
    if a == [] {
      if b != [] { TeteCommune(b, a, cle); }
    } else {
      TeteCommune(a, b, cle);
      forall k ensures DeCle(a[1..], cle, k) == DeCle(b[1..], cle, k) {
        assert DeCle(a, cle, k) == DeCle(b, cle, k);
        var t := if cle(a[0]) == k then [a[0]] else [];
        assert DeCle(a, cle, k) == t + DeCle(a[1..], cle, k);
        assert DeCle(b, cle, k) == t + DeCle(b[1..], cle, k);
        assert DeCle(a[1..], cle, k) == DeCle(a, cle, k)[|t|..];
        assert DeCle(b[1..], cle, k) == DeCle(b, cle, k)[|t|..];
      }
      TrieDetermine(a[1..], b[1..], cle);
      assert a == [a[0]] + a[1..];
      assert b == [b[0]] + b[1..];
    }
  }

  /** Two sequences sort to the same one exactly when every key carries the
      same subsequence in both. */
  lemma EgauxApresTri<T>(a: seq<T>, b: seq<T>, cle: T -> int)
    ensures Trier(a, cle) == Trier(b, cle) <==> MemesParCle(a, b, cle)
  {
    TrierTrie(a, cle);
    TrierTrie(b, cle);
    if Trier(a, cle) == Trier(b, cle) {
      forall k ensures DeCle(a, cle, k) == DeCle(b, cle, k) {
        TrierStable(a, cle, k);
        TrierStable(b, cle, k);
      }
    }
    if MemesParCle(a, b, cle) {
      forall k ensures DeCle(Trier(a, cle), cle, k) == DeCle(Trier(b, cle), cle, k) {
        TrierStable(a, cle, k);
        TrierStable(b, cle, k);
        assert DeCle(a, cle, k) == DeCle(b, cle, k);
      }
      TrieDetermine(Trier(a, cle), Trier(b, cle), cle);
    }
  }

  ghost predicate Distincts<T>(s: seq<T>, cle: T -> int) {
    forall i, j :: 0 <= i < j < |s| ==> cle(s[i]) != cle(s[j])
  }

  ghost predicate StrictementTrie<T>(s: seq<T>, cle: T -> int) {
    forall i, j :: 0 <= i < j < |s| ==> cle(s[i]) < cle(s[j])
  }

  lemma DistinctsConcat<T>(a: seq<T>, b: seq<T>, cle: T -> int)
    requires Distincts(a, cle) && Distincts(b, cle)
    requires forall x, y :: x in a && y in b ==> cle(x) != cle(y)
    ensures Distincts(a + b, cle)
  {
  }

  lemma {:induction false} InsererStrict<T>(x: T, s: seq<T>, cle: T -> int)
    requires StrictementTrie(s, cle) && forall i :: 0 <= i < |s| ==> cle(s[i]) != cle(x)
    ensures StrictementTrie(Inserer(x, s, cle), cle)
  {
    if s != [] && cle(x) > cle(s[0]) {
      InsererStrict(x, s[1..], cle);
      var r := Inserer(x, s[1..], cle);
      forall j | 0 <= j < |r| ensures cle(s[0]) < cle(r[j]) {
        InsererMembre(x, s[1..], cle, r[j]);
        if r[j] != x {
          var m :| 0 <= m < |s[1..]| && s[1..][m] == r[j];
          assert s[m + 1] == r[j];
        }
      }
    }
  }

  /** Sorting elements of distinct keys leaves none out of order and none equal. */
  lemma {:induction false} TrierStrict<T>(s: seq<T>, cle: T -> int)
    requires Distincts(s, cle)
    ensures StrictementTrie(Trier(s, cle), cle)
  {
    if s != [] {
      TrierStrict(s[1..], cle);
      var t := Trier(s[1..], cle);
      forall i | 0 <= i < |t| ensures cle(t[i]) != cle(s[0]) {
        TrierMembre(s[1..], cle, t[i]);
        var m :| 0 <= m < |s[1..]| && s[1..][m] == t[i];
        assert s[m + 1] == t[i];
      }
      InsererStrict(s[0], t, cle);
    }
  }
}
