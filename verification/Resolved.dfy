/**
 What systemd-resolved says on the bus (crates/bifrost-cli/src/preuve_dns.rs:355-401,
 preuve_dns/dbus.rs), and the attribution of each server to its scope
 (preuve_dns.rs:417-474).
 */
module Resolved {
  import opened Commun
  import TriStable

  type i32 = n: int | -0x8000_0000 <= n < 0x8000_0000
  const I32_MAX: i32 := 0x7fff_ffff

  datatype Serveur = Serveur(index: i32, famille: i32, adresse: seq<u8>, port: u16, nom: string)
  datatype Domaine = Domaine(index: i32, nom: string, routeSeule: bool)
  datatype Lien = Lien(index: u32, nom: string, routeParDefaut: bool, portees: u64, serveurs: seq<Serveur>)
  datatype EtatResolved = EtatResolved(
    proprietaire: string, uid: u32, mode: string, serveurs: seq<Serveur>, domaines: seq<Domaine>, delegues: bool, liens: seq<Lien>)

  function IndexServeur(s: Serveur): int { s.index }

  function IndexDomaine(d: Domaine): int { d.index }

  function IndexLien(l: Lien): int { l.index }

  const DISCORDANTS := "systemd-resolved: les serveurs du Manager et ceux des liens ne concordent pas"
  const BOUCLAGE_V6: seq<u8> := [0, 0, 0, 0, 0, 0, 0, 0, 0, 0, 0, 0, 0, 0, 0, 1]

  /** `in_addr_is_localhost`: 127.0.0.0/8 and ::1. */
  predicate Bouclage(s: Serveur) {
    if s.famille == 2 then |s.adresse| > 0 && s.adresse[0] == 127
    else s.famille == 10 && s.adresse == BOUCLAGE_V6
  }

  /** The Manager's entry for a link's server: listed under the interface it is
      queried through. */
  function Demande(s: Serveur, index: i32): Serveur { s.(index := if Bouclage(s) then 1 else index) }

  function Siens(l: Lien, f: (Serveur, i32) -> Serveur): seq<Serveur>
    requires l.index <= I32_MAX
  { seq(|l.serveurs|, i requires 0 <= i < |l.serveurs| => f(l.serveurs[i], l.index)) }

  /** `f` over the servers of every link, link after link. */
  function DesServeurs(liens: seq<Lien>, f: (Serveur, i32) -> Serveur): (r: seq<Serveur>)
    requires Indexables(liens)
  {
    if liens == [] then []
    else DesServeurs(liens[..|liens| - 1], f) + Siens(liens[|liens| - 1], f)
  }

  predicate Indexables(liens: seq<Lien>) { forall l :: l in liens ==> l.index <= I32_MAX }

  function Demandes(liens: seq<Lien>): seq<Serveur>
    requires Indexables(liens)
  { DesServeurs(liens, Demande) }

  function Rattache(s: Serveur, index: i32): Serveur { s.(index := index) }

  /** Every link's servers under the link's own index. */
  function DesLiens(liens: seq<Lien>): seq<Serveur>
    requires Indexables(liens)
  { DesServeurs(liens, Rattache) }

  function Globaux(s: seq<Serveur>): seq<Serveur> { seq(|s|, i requires 0 <= i < |s| => s[i].(index := 0)) }

  // ---------------------------------------------------------------------
  // One-by-one removal, on values.
  // ---------------------------------------------------------------------

  function SansPremier<T(==)>(s: seq<T>, x: T): seq<T> {
    if s == [] then [] else if s[0] == x then s[1..] else [s[0]] + SansPremier(s[1..], x)
  }

  function Soustraire<T(==)>(s: seq<T>, d: seq<T>): seq<T> {
    if d == [] then s else SansPremier(Soustraire(s, d[..|d| - 1]), d[|d| - 1])
  }

  lemma {:induction false} SansPremierMultiset<T>(s: seq<T>, x: T)
    ensures multiset(SansPremier(s, x)) == multiset(s) - multiset{x}
  {
    if s != [] {
      assert s == [s[0]] + s[1..];
      if s[0] != x {
        SansPremierMultiset(s[1..], x);
      }
    }
  }

  /** Removal one by one is multiset subtraction. */
  lemma {:induction false} SoustraireMultiset<T>(s: seq<T>, d: seq<T>)
    ensures multiset(Soustraire(s, d)) == multiset(s) - multiset(d)
  {
    if d != [] {
      var avant, x := d[..|d| - 1], d[|d| - 1];
      assert d == avant + [x];
      SoustraireMultiset(s, avant);
      SansPremierMultiset(Soustraire(s, avant), x);
    }
  }

  /** The slots still full, in order. */
  function Restants<T>(r: seq<Option<T>>): (s: seq<T>)
    ensures |s| <= |r|
  {
    if r == [] then [] else (if r[0].Some? then [r[0].value] else []) + Restants(r[1..])
  }

  lemma {:induction false} RestantsMembre<T>(r: seq<Option<T>>, x: T)
    ensures x in Restants(r) <==> Some(x) in r
  {
    if r != [] {
      RestantsMembre(r[1..], x);
      assert r == [r[0]] + r[1..];
    }
  }

  lemma {:induction false} RestantsPleins<T>(s: seq<T>, r: seq<Option<T>>)
    requires |r| == |s| && forall i :: 0 <= i < |s| ==> r[i] == Some(s[i])
    ensures Restants(r) == s
  {
    if s != [] {
      RestantsPleins(s[1..], r[1..]);
    }
  }

  /** Emptying the first slot that holds `x` removes its first occurrence. */
  lemma {:induction false} ViderPremier<T>(r: seq<Option<T>>, k: nat, x: T)
    requires k < |r| && r[k] == Some(x) && forall i :: 0 <= i < k ==> r[i] != Some(x)
    ensures Restants(r[k := None]) == SansPremier(Restants(r), x)
  {
    if k == 0 {
      assert r[0 := None][1..] == r[1..];
    } else {
      assert r[k := None][1..] == r[1..][k - 1 := None];
      ViderPremier(r[1..], k - 1, x);
      assert r[k := None][0] == r[0];
      if r[0].Some? {
        assert Restants(r)[1..] == Restants(r[1..]);
      } else {
        assert Restants(r) == Restants(r[1..]);
        assert Restants(r[k := None]) == Restants(r[1..][k - 1 := None]);
      }
    }
  }

  // ---------------------------------------------------------------------
  // The attribution.
  // ---------------------------------------------------------------------

  /** The links' servers, as the Manager must list them, are among its own. */
  ghost predicate Concordants(serveurs: seq<Serveur>, liens: seq<Lien>) {
    Indexables(liens) && multiset(Demandes(liens)) <= multiset(serveurs)
  }

  function Attribues(serveurs: seq<Serveur>, liens: seq<Lien>): seq<Serveur>
    requires Indexables(liens)
  {
    Globaux(Soustraire(serveurs, Demandes(liens))) + DesLiens(liens)
  }

  /** The search of `attribuer`: the first slot holding the wanted server is emptied. */
  method Retirer(reste: array<Option<Serveur>>, x: Serveur) returns (vu: bool)
    modifies reste
    ensures vu <==> x in old(Restants(reste[..]))
    ensures Restants(reste[..]) == if vu then SansPremier(old(Restants(reste[..])), x) else old(Restants(reste[..]))
  {
    RestantsMembre(reste[..], x);
    var k := 0;
    while k < reste.Length
      invariant 0 <= k <= reste.Length
      invariant reste[..] == old(reste[..])
      invariant forall i :: 0 <= i < k ==> reste[i] != Some(x)
    {
      if reste[k] == Some(x) {
        ViderPremier(reste[..], k, x);
        assert reste[..][k] in reste[..];
        ghost var avant := reste[..];
        reste[k] := None;
        assert reste[..] == avant[k := None];
        return true;
      }
      k := k + 1;
    }
    return false;
  }

  lemma DemandeEnTrop(serveurs: seq<Serveur>, faites: seq<Serveur>, x: Serveur, toutes: seq<Serveur>)
    requires x !in Soustraire(serveurs, faites)
    requires faites + [x] <= toutes
    ensures !(multiset(toutes) <= multiset(serveurs))
  {
    SoustraireMultiset(serveurs, faites);
    assert multiset(Soustraire(serveurs, faites))[x] == 0;
    assert toutes == (faites + [x]) + toutes[|faites| + 1..];
    assert multiset(faites + [x])[x] == multiset(faites)[x] + 1;
  }

  lemma DemandePermise(serveurs: seq<Serveur>, faites: seq<Serveur>, x: Serveur)
    requires multiset(faites) <= multiset(serveurs)
    requires x in Soustraire(serveurs, faites)
    ensures multiset(faites + [x]) <= multiset(serveurs)
    ensures Soustraire(serveurs, faites + [x]) == SansPremier(Soustraire(serveurs, faites), x)
  {
    SoustraireMultiset(serveurs, faites);
    assert (faites + [x])[..|faites|] == faites;
  }

  lemma {:induction false} DesServeursPrefixe(liens: seq<Lien>, n: nat, f: (Serveur, i32) -> Serveur)
    requires Indexables(liens) && n <= |liens|
    ensures DesServeurs(liens[..n], f) <= DesServeurs(liens, f)
    decreases |liens|
  {
    if n < |liens| {
      var d := liens[..|liens| - 1];
      DesServeursPrefixe(d, n, f);
      assert d[..n] == liens[..n];
    } else {
      assert liens[..n] == liens;
    }
  }

  lemma DesServeursVide()
    ensures Demandes([]) == [] && DesLiens([]) == []
    ensures forall s: seq<Serveur> :: Soustraire(s, []) == s
  {
  }

  /** A disagreement on the first links is one on all of them. */
  lemma DiscordantsTot(serveurs: seq<Serveur>, liens: seq<Lien>, n: nat)
    requires n <= |liens| && !Concordants(serveurs, liens[..n])
    ensures !Concordants(serveurs, liens)
  {
    if Indexables(liens) {
      DesServeursPrefixe(liens, n, Demande);
      var p, d := Demandes(liens[..n]), Demandes(liens);
      assert d == p + d[|p|..];
      assert multiset(p) <= multiset(d);
    }
  }

  lemma DesServeursSuite(avant: seq<Lien>, l: Lien, f: (Serveur, i32) -> Serveur)
    requires Indexables(avant + [l]) && Indexables(avant) && l.index <= I32_MAX
    ensures DesServeurs(avant + [l], f) == DesServeurs(avant, f) + Siens(l, f)
  {
  }

  /** The servers of one link, each removed from the Manager's list. */
  method AttribuerLien(reste: array<Option<Serveur>>, l: Lien, ghost serveurs: seq<Serveur>, ghost avant: seq<Lien>)
    returns (ok: bool, rattaches: seq<Serveur>)
    requires Indexables(avant + [l]) && l.index <= I32_MAX
    requires Concordants(serveurs, avant) && Restants(reste[..]) == Soustraire(serveurs, Demandes(avant))
    modifies reste
    ensures ok <==> Concordants(serveurs, avant + [l])
    ensures ok ==> Restants(reste[..]) == Soustraire(serveurs, Demandes(avant + [l]))
    ensures ok ==> rattaches == Siens(l, Rattache)
  {
    hide Restants, SansPremier, Soustraire, DesServeurs, Bouclage;
    var index: i32 := l.index;
    rattaches := [];
    ghost var faites := Demandes(avant);
    ghost var voulues := Siens(l, Demande);
    DesServeursSuite(avant, l, Demande);
    assert Demandes(avant + [l]) == faites + voulues;
    ghost var toutes := Demandes(avant + [l]);
    assert Indexables(avant);
    var k := 0;
    while k < |l.serveurs|
      invariant 0 <= k <= |l.serveurs|
      invariant faites + voulues[k..] == toutes
      invariant rattaches == Siens(l, Rattache)[..k]
      invariant multiset(faites) <= multiset(serveurs)
      invariant Restants(reste[..]) == Soustraire(serveurs, faites)
    {
      var s := l.serveurs[k];
      assert voulues[k] == Demande(s, index) && voulues[k..] == [voulues[k]] + voulues[k + 1..];
      assert faites + [Demande(s, index)] + voulues[k + 1..] == toutes;
      var vu := Retirer(reste, Demande(s, index));
      if !vu {
        DemandeEnTrop(serveurs, faites, Demande(s, index), toutes);
        return false, rattaches;
      }
      DemandePermise(serveurs, faites, Demande(s, index));
      rattaches := rattaches + [Rattache(s, index)];
      faites := faites + [Demande(s, index)];
      k := k + 1;
    }
    ok := true;
    assert faites == toutes;
  }

  /** `attribuer`: every server given back to its scope, the index of its link or
      0 for the global one. It succeeds exactly when the links' servers are a
      sub-multiset of the Manager's. */
  method Attribuer(r: EtatResolved) returns (res: Result<seq<Serveur>>)
    ensures res.Ok? <==> Concordants(r.serveurs, r.liens)
    ensures res.Ok? ==> res.value == Attribues(r.serveurs, r.liens)
    ensures res.Err? ==> res.raison == DISCORDANTS
  {
    hide Restants, SansPremier, Soustraire, Bouclage, DesServeurs;
    DesServeursVide();
    var reste := new Option<Serveur>[|r.serveurs|](i requires 0 <= i < |r.serveurs| => Some(r.serveurs[i]));
    RestantsPleins(r.serveurs, reste[..]);
    var desLiens: seq<Serveur> := [];
    assert r.liens[..0] == [];
    var n := 0;
    while n < |r.liens|
      invariant 0 <= n <= |r.liens| && fresh(reste)
      invariant Concordants(r.serveurs, r.liens[..n])
      invariant Restants(reste[..]) == Soustraire(r.serveurs, Demandes(r.liens[..n]))
      invariant desLiens == DesLiens(r.liens[..n])
    {
      var l := r.liens[n];
      if l.index > I32_MAX {
        assert l in r.liens;
        return Err(DISCORDANTS);
      }
      assert r.liens[..n + 1] == r.liens[..n] + [l];
      var ok, rattaches := AttribuerLien(reste, l, r.serveurs, r.liens[..n]);
      if !ok {
        DiscordantsTot(r.serveurs, r.liens, n + 1);
        return Err(DISCORDANTS);
      }
      DesServeursSuite(r.liens[..n], l, Rattache);
      desLiens := desLiens + rattaches;
      n := n + 1;
    }
    assert r.liens[..n] == r.liens;
    res := Ok(Globaux(Restants(reste[..])) + desLiens);
  }

  // ---------------------------------------------------------------------
  // What the attribution means.
  // ---------------------------------------------------------------------

  lemma {:induction false} MemeTaille(liens: seq<Lien>, f: (Serveur, i32) -> Serveur, g: (Serveur, i32) -> Serveur)
    requires Indexables(liens)
    ensures |DesServeurs(liens, f)| == |DesServeurs(liens, g)|
  {
    if liens != [] {
      MemeTaille(liens[..|liens| - 1], f, g);
    }
  }

  /** No server is lost or invented. */
  lemma AttributionGardeLeCompte(serveurs: seq<Serveur>, liens: seq<Lien>)
    requires Concordants(serveurs, liens)
    ensures |Attribues(serveurs, liens)| == |serveurs|
  {
    var d := Demandes(liens);
    SoustraireMultiset(serveurs, d);
    MemeTaille(liens, Demande, Rattache);
    assert |multiset(Soustraire(serveurs, d))| == |serveurs| - |d|;
  }

  /** The servers listed under an index, in their order. */
  function DIndex(s: seq<Serveur>, index: i32): seq<Serveur> { TriStable.DeCle(s, IndexServeur, index) }

  lemma DIndexUniforme(s: seq<Serveur>, porte: i32, index: i32)
    requires forall i :: 0 <= i < |s| ==> s[i].index == porte
    ensures DIndex(s, index) == if porte == index then s else []
  {
    if porte == index {
      TriStable.DeCleUniforme(s, IndexServeur, index);
    } else {
      TriStable.DeCleVide(s, IndexServeur, index);
    }
  }

  ghost predicate IndexDistincts(liens: seq<Lien>) {
    forall i, j :: 0 <= i < j < |liens| ==> liens[i].index != liens[j].index
  }

  lemma {:induction false} ServeursDUnLien(liens: seq<Lien>, n: nat)
    requires Indexables(liens) && IndexDistincts(liens) && n < |liens|
    ensures |DIndex(DesLiens(liens), liens[n].index)| == |liens[n].serveurs|
    ensures forall i :: 0 <= i < |liens[n].serveurs| ==>
              DIndex(DesLiens(liens), liens[n].index)[i] == Rattache(liens[n].serveurs[i], liens[n].index)
    decreases |liens|
  {
    var d, l := liens[..|liens| - 1], liens[|liens| - 1];
    var siens := Siens(l, Rattache);
    assert DesLiens(liens) == DesLiens(d) + siens;
    TriStable.DeCleConcat(DesLiens(d), siens, IndexServeur, liens[n].index);
    assert forall i :: 0 <= i < |siens| ==> siens[i] == Rattache(l.serveurs[i], l.index);
    DIndexUniforme(siens, l.index, liens[n].index);
    if n == |liens| - 1 {
      AucunServeur(d, l.index);
    } else {
      ServeursDUnLien(d, n);
    }
  }

  lemma {:induction false} AucunServeur(liens: seq<Lien>, index: i32)
    requires Indexables(liens) && forall l :: l in liens ==> l.index != index
    ensures DIndex(DesLiens(liens), index) == []
  {
    if liens != [] {
      var d, l := liens[..|liens| - 1], liens[|liens| - 1];
      var siens := Siens(l, Rattache);
      assert DesLiens(liens) == DesLiens(d) + siens;
      AucunServeur(d, index);
      TriStable.DeCleConcat(DesLiens(d), siens, IndexServeur, index);
      assert forall i :: 0 <= i < |siens| ==> siens[i] == Rattache(l.serveurs[i], l.index);
      DIndexUniforme(siens, l.index, index);
    }
  }

  /** Each link gets its own servers, all of them, in its own order. */
  lemma AttributionParLien(serveurs: seq<Serveur>, liens: seq<Lien>, n: nat)
    requires Concordants(serveurs, liens) && IndexDistincts(liens) && n < |liens| && liens[n].index > 0
    ensures var s := DIndex(Attribues(serveurs, liens), liens[n].index);
            |s| == |liens[n].serveurs| && forall i :: 0 <= i < |s| ==> s[i] == Rattache(liens[n].serveurs[i], liens[n].index)
  {
    var g := Globaux(Soustraire(serveurs, Demandes(liens)));
    TriStable.DeCleConcat(g, DesLiens(liens), IndexServeur, liens[n].index);
    DIndexUniforme(g, 0, liens[n].index);
    ServeursDUnLien(liens, n);
  }

  lemma {:induction false} DesServeursMilieu(a: seq<Lien>, l: Lien, b: seq<Lien>, f: (Serveur, i32) -> Serveur)
    requires Indexables(a + [l] + b) && Indexables(a + b) && l.index <= I32_MAX
    ensures multiset(DesServeurs(a + [l] + b, f)) == multiset(Siens(l, f)) + multiset(DesServeurs(a + b, f))
    decreases |b|
  {
    hide DesServeurs, Siens;
    if b == [] {
      assert a + [l] + b == a + [l] && a + b == a;
      DesServeursSuite(a, l, f);
    } else {
      var m := |b| - 1;
      assert a + [l] + b == (a + [l] + b[..m]) + [b[m]];
      assert a + b == (a + b[..m]) + [b[m]];
      DesServeursSuite(a + [l] + b[..m], b[m], f);
      DesServeursSuite(a + b[..m], b[m], f);
      DesServeursMilieu(a, l, b[..m], f);
    }
  }

  /** The first element of a sequence, found in a permutation of it. */
  lemma Retrouver<T>(a: seq<T>, b: seq<T>) returns (k: nat)
    requires multiset(a) == multiset(b) && a != []
    ensures k < |b| && b[k] == a[0] && b == b[..k] + [a[0]] + b[k + 1..]
    ensures multiset(a[1..]) == multiset(b[..k] + b[k + 1..])
  {
    assert a == [a[0]] + a[1..];
    assert a[0] in multiset(b);
    k :| 0 <= k < |b| && b[k] == a[0];
    assert b == b[..k] + [a[0]] + b[k + 1..];
    assert multiset(b) == multiset(b[..k] + b[k + 1..]) + multiset{a[0]};
    assert multiset(a) == multiset(a[1..]) + multiset{a[0]};
    assert multiset(a) - multiset{a[0]} == multiset(a[1..]);
    assert multiset(b) - multiset{a[0]} == multiset(b[..k] + b[k + 1..]);
  }

  lemma {:induction false} DesServeursPermutes(a: seq<Lien>, b: seq<Lien>, f: (Serveur, i32) -> Serveur)
    requires multiset(a) == multiset(b) && Indexables(a) && Indexables(b)
    ensures multiset(DesServeurs(a, f)) == multiset(DesServeurs(b, f))
  {
    if a == [] {
      assert |multiset(b)| == 0;
    } else {
      var k := Retrouver(a, b);
      assert a == [] + [a[0]] + a[1..] && [] + a[1..] == a[1..];
      DesServeursMilieu([], a[0], a[1..], f);
      DesServeursMilieu(b[..k], a[0], b[k + 1..], f);
      DesServeursPermutes(a[1..], b[..k] + b[k + 1..], f);
    }
  }

  lemma {:induction false} GlobauxPermutes(a: seq<Serveur>, b: seq<Serveur>)
    requires multiset(a) == multiset(b)
    ensures multiset(Globaux(a)) == multiset(Globaux(b))
  {
    if a == [] {
      assert |multiset(b)| == 0;
    } else {
      var k := Retrouver(a, b);
      var c := b[..k] + b[k + 1..];
      GlobauxPermutes(a[1..], c);
      assert Globaux(a) == [a[0].(index := 0)] + Globaux(a[1..]);
      assert Globaux(b) == Globaux(b[..k]) + [a[0].(index := 0)] + Globaux(b[k + 1..]);
      assert Globaux(c) == Globaux(b[..k]) + Globaux(b[k + 1..]);
    }
  }

  /** The hash-table order resolved lists its scopes in does not matter: neither
      whether the attribution succeeds nor what it attributes. */
  lemma AttributionSansOrdre(s: seq<Serveur>, l: seq<Lien>, s': seq<Serveur>, l': seq<Lien>)
    requires multiset(s) == multiset(s') && multiset(l) == multiset(l')
    ensures Concordants(s, l) <==> Concordants(s', l')
    ensures Concordants(s, l) ==> multiset(Attribues(s, l)) == multiset(Attribues(s', l'))
  {
    assert forall x :: x in l <==> x in multiset(l);
    assert forall x :: x in l' <==> x in multiset(l');
    if Indexables(l) {
      DesServeursPermutes(l, l', Demande);
      DesServeursPermutes(l, l', Rattache);
      SoustraireMultiset(s, Demandes(l));
      SoustraireMultiset(s', Demandes(l'));
      GlobauxPermutes(Soustraire(s, Demandes(l)), Soustraire(s', Demandes(l')));
    }
  }

  /** The attribution inverts what resolved does: when the Manager lists the
      global servers and every link's, in any order, each comes back to the scope
      it was configured on. */
  lemma AttributionInverse(globaux: seq<Serveur>, liens: seq<Lien>, serveurs: seq<Serveur>)
    requires Indexables(liens) && multiset(serveurs) == multiset(globaux) + multiset(Demandes(liens))
    ensures Concordants(serveurs, liens)
    ensures multiset(Attribues(serveurs, liens)) == multiset(Globaux(globaux)) + multiset(DesLiens(liens))
  {
    SoustraireMultiset(serveurs, Demandes(liens));
    GlobauxPermutes(Soustraire(serveurs, Demandes(liens)), globaux);
  }

  /** 127.0.0.0/8, or ::1. */
  predicate DeLaBoucle(s: Serveur) {
    || (s.famille == 2 && |s.adresse| > 0 && s.adresse[0] == 127)
    || (s.famille == 10 && |s.adresse| == 16 && s.adresse[15] == 1 && forall i :: 0 <= i < 15 ==> s.adresse[i] == 0)
  }

  lemma BouclageEst(s: Serveur)
    ensures Bouclage(s) <==> DeLaBoucle(s)
  {
  }

  lemma UnLien(l: Lien)
    requires |l.serveurs| == 1 && l.index <= I32_MAX
    ensures Indexables([l]) && Demandes([l]) == [Demande(l.serveurs[0], l.index)] && DesLiens([l]) == [Rattache(l.serveurs[0], l.index)]
  {
    assert [] + [l] == [l];
    DesServeursVide();
    DesServeursSuite([], l, Demande);
    DesServeursSuite([], l, Rattache);
  }

  lemma UnSeul<T>(x: T, y: T)
    ensures multiset([x]) <= multiset([y]) <==> x == y
    ensures Soustraire([x], [x]) == []
  {
    assert multiset([x])[x] == 1;
    assert [x][..0] == [];
  }

  /** One link, one server of its own, one entry of the Manager: they agree exactly when
      the entry is that server under interface 1 if it is a loopback address, under the
      link otherwise; the server then comes back to the link. */
  lemma EmissionExacte(l: Lien, x: Serveur)
    requires |l.serveurs| == 1
    ensures var s := l.serveurs[0];
            Concordants([x], [l]) <==>
              l.index <= 0x7fff_ffff && x == Serveur(if DeLaBoucle(s) then 1 else l.index, s.famille, s.adresse, s.port, s.nom)
    ensures Concordants([x], [l]) ==> Attribues([x], [l]) == [l.serveurs[0].(index := l.index)]
  {
    var s := l.serveurs[0];
    BouclageEst(s);
    hide Bouclage, DeLaBoucle, Soustraire, DesServeurs;
    if l.index <= I32_MAX {
      UnLien(l);
      UnSeul(Demande(s, l.index), x);
    } else {
      assert l in [l];
    }
  }
}
