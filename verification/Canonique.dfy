/**
 The canonical form two readings of systemd-resolved are compared under
 (crates/bifrost-cli/src/preuve_dns.rs:405-415).
 */
module Canonique {
  import opened Commun
  import opened Resolved
  import opened TriStable

  /** `EtatResolved::normaliser`. */
  function Normaliser(e: EtatResolved): EtatResolved {
    e.(serveurs := Trier(e.serveurs, IndexServeur), domaines := Trier(e.domaines, IndexDomaine), liens := Trier(e.liens, IndexLien))
  }

  /** What two readings of one resolver have in common: the order between scopes
      follows a hash table, the order within a scope has a meaning. */
  ghost predicate MemeResolveur(a: EtatResolved, b: EtatResolved) {
    && a.proprietaire == b.proprietaire && a.uid == b.uid && a.mode == b.mode && a.delegues == b.delegues
    && MemesParCle(a.serveurs, b.serveurs, IndexServeur)
    && MemesParCle(a.domaines, b.domaines, IndexDomaine)
    && (forall l :: l in a.liens <==> l in b.liens)
  }

  lemma {:induction false} LienSeul(liens: seq<Lien>, k: int)
    requires IndexDistincts(liens)
    ensures |DeCle(liens, IndexLien, k)| <= 1
  {
    if liens != [] {
      if liens[0].index == k {
        DeCleVide(liens[1..], IndexLien, k);
      } else {
        LienSeul(liens[1..], k);
      }
    }
  }

  lemma LiensDUneCle(a: seq<Lien>, b: seq<Lien>, k: int)
    requires IndexDistincts(a) && IndexDistincts(b) && forall l :: l in a <==> l in b
    ensures DeCle(a, IndexLien, k) == DeCle(b, IndexLien, k)
  {
    hide DeCle, IndexDistincts;
    LienSeul(a, k);
    LienSeul(b, k);
    var u, v := DeCle(a, IndexLien, k), DeCle(b, IndexLien, k);
    if u != [] {
      DeCleMembre(a, IndexLien, k, u[0]);
      DeCleMembre(b, IndexLien, k, u[0]);
      assert u[0] in u;
    }
    if v != [] {
      DeCleMembre(a, IndexLien, k, v[0]);
      DeCleMembre(b, IndexLien, k, v[0]);
      assert v[0] in v;
    }
  }

  /** Links of distinct index sort to the same sequence exactly when they are the
      same links. */
  lemma MemesLiens(a: seq<Lien>, b: seq<Lien>)
    requires IndexDistincts(a) && IndexDistincts(b)
    ensures Trier(a, IndexLien) == Trier(b, IndexLien) <==> (forall l :: l in a <==> l in b)
  {
    if forall l :: l in a <==> l in b {
      forall k ensures DeCle(a, IndexLien, k) == DeCle(b, IndexLien, k) {
        LiensDUneCle(a, b, k);
      }
      EgauxApresTri(a, b, IndexLien);
    }
    if Trier(a, IndexLien) == Trier(b, IndexLien) {
      forall l ensures l in a <==> l in b {
        TrierMembre(a, IndexLien, l);
        TrierMembre(b, IndexLien, l);
      }
    }
  }

  /** Two readings normalise equal exactly when they describe one resolver. */
  lemma FormeCanonique(a: EtatResolved, b: EtatResolved)
    requires IndexDistincts(a.liens) && IndexDistincts(b.liens)
    ensures Normaliser(a) == Normaliser(b) <==> MemeResolveur(a, b)
  {
    EgauxApresTri(a.serveurs, b.serveurs, IndexServeur);
    EgauxApresTri(a.domaines, b.domaines, IndexDomaine);
    MemesLiens(a.liens, b.liens);
  }

  /** Distinct indices are needed: two links of one index, swapped, are the same
      links and another canonical form. */
  lemma IndexRepete(l: Lien, m: Lien)
    requires l.index == m.index && l != m
    ensures (forall x :: x in [l, m] <==> x in [m, l]) && Trier([l, m], IndexLien) != Trier([m, l], IndexLien)
  {
    assert [l, m][1..] == [m] && [m, l][1..] == [l];
    assert Trier([m], IndexLien) == [m] && Trier([l], IndexLien) == [l];
    assert Trier([l, m], IndexLien)[0] == l;
    assert Trier([m, l], IndexLien)[0] == m;
  }

  lemma {:induction false} TrierMultiset<T>(s: seq<T>, cle: T -> int)
    ensures multiset(Trier(s, cle)) == multiset(s)
  {
    if s != [] {
      TrierMultiset(s[1..], cle);
      InsererMultiset(s[0], Trier(s[1..], cle), cle);
      assert s == [s[0]] + s[1..];
    }
  }

  lemma {:induction false} InsererMultiset<T>(x: T, s: seq<T>, cle: T -> int)
    ensures multiset(Inserer(x, s, cle)) == multiset(s) + multiset{x}
  {
    if s != [] && cle(x) > cle(s[0]) {
      InsererMultiset(x, s[1..], cle);
      assert s == [s[0]] + s[1..];
    } else {
      assert [x] + s == Inserer(x, s, cle);
    }
  }

  /** Normalising does not change what the attribution finds. */
  lemma NormaliserGardeLesPortees(e: EtatResolved)
    ensures var n := Normaliser(e);
            && (Concordants(e.serveurs, e.liens) <==> Concordants(n.serveurs, n.liens))
            && (Concordants(e.serveurs, e.liens) ==>
                  multiset(Attribues(e.serveurs, e.liens)) == multiset(Attribues(n.serveurs, n.liens)))
  {
    TrierMultiset(e.serveurs, IndexServeur);
    TrierMultiset(e.liens, IndexLien);
    var n := Normaliser(e);
    AttributionSansOrdre(e.serveurs, e.liens, n.serveurs, n.liens);
  }
}
