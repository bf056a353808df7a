/**
 The routing plan the product installs under Linux (crates/bifrost-core/src/routage.rs):
 for each family a default route in the tunnel's table and the policy rules
 that lead to it, in installation order, and the order in which the kernel
 evaluates them.
 */
module PlanLinux {
  import opened Commun
  import TriStable

  const TABLE_MAIN: u32 := 254
  const TABLE_LOCAL: u32 := 255
  const TABLE_COEUR: u32 := 0xb1f
  const TABLES_RESERVEES: set<u32> := {0, 253, TABLE_MAIN, TABLE_LOCAL}
  const PROTOCOLE_PRODUIT: u8 := 0xb1
  const PREF_COEUR: u32 := 9100
  const PREF_LAN: u32 := 9110
  const PREF_TUNNEL: u32 := 9120

  datatype Selecteur = Tout | HorsMarque(marque: bv32) | Compte(uid: u32)

  datatype Consultation = Table(numero: u32) | Main | MainSansDefaut {
    function TableConsultee(): u32 {
      match this
      case Table(t) => t
      case Main => TABLE_MAIN
      case MainSansDefaut => TABLE_MAIN
    }

    function Suppression(): Option<u32> {
      match this
      case MainSansDefaut => Some(0)
      case _ => None
    }
  }

  datatype Regle = Regle(famille: Famille, priorite: Option<u32>, selecteur: Selecteur, consultation: Consultation)

  datatype RouteParDefaut = RouteParDefaut(famille: Famille, table: u32, interface: string)

  datatype Etape = EtapeRoute(route: RouteParDefaut) | EtapeRegle(regle: Regle)

  datatype Chemin = WireGuard(marque: bv32, table: u32) | Coeur(compte: Option<u32>)

  datatype Plan = Plan(chemin: Chemin, interface: string, etapes: seq<Etape>)

  function EtapesWireGuard(f: Famille, interface: string, marque: bv32, table: u32): seq<Etape> {
    [EtapeRoute(RouteParDefaut(f, table, interface)),
     EtapeRegle(Regle(f, None, HorsMarque(marque), Table(table))),
     EtapeRegle(Regle(f, None, Tout, MainSansDefaut))]
  }

  function PlanWireGuard(interface: string, marque: bv32, table: u32): Plan {
    Plan(WireGuard(marque, table), interface,
         EtapesWireGuard(Ipv4, interface, marque, table) + EtapesWireGuard(Ipv6, interface, marque, table))
  }

  function EtapesCoeur(f: Famille, interface: string, compte: Option<u32>): seq<Etape> {
    [EtapeRoute(RouteParDefaut(f, TABLE_COEUR, interface))]
    + (match compte
       case Some(uid) => [EtapeRegle(Regle(f, Some(PREF_COEUR), Compte(uid), Main))]
       case None => [])
    + [EtapeRegle(Regle(f, Some(PREF_LAN), Tout, MainSansDefaut)),
       EtapeRegle(Regle(f, Some(PREF_TUNNEL), Tout, Table(TABLE_COEUR)))]
  }

  function PlanCoeur(interface: string, compte: Option<u32>): Plan {
    Plan(Coeur(compte), interface, EtapesCoeur(Ipv4, interface, compte) + EtapesCoeur(Ipv6, interface, compte))
  }

  function TableDuTunnel(p: Plan): u32 {
    match p.chemin
    case WireGuard(_, table) => table
    case Coeur(_) => TABLE_COEUR
  }

  function Regles(etapes: seq<Etape>, f: Famille): seq<Regle> {
    if etapes == [] then []
    else (match etapes[0]
          case EtapeRegle(r) => if r.famille == f then [r] else []
          case EtapeRoute(_) => []) + Regles(etapes[1..], f)
  }

  function Routes(etapes: seq<Etape>, f: Famille): seq<RouteParDefaut> {
    if etapes == [] then []
    else (match etapes[0]
          case EtapeRoute(r) => if r.famille == f then [r] else []
          case EtapeRegle(_) => []) + Routes(etapes[1..], f)
  }

  function Renverser<T>(s: seq<T>): seq<T> {
    if s == [] then [] else Renverser(s[1..]) + [s[0]]
  }

  function ClePriorite(r: Regle): int {
    match r.priorite case Some(p) => p case None => 0
  }

  /** The rules in the order the kernel evaluates them: by priority when the
      plan fixes them all, the reverse of installation when it fixes none. */
  function OrdreDEvaluation(p: Plan, f: Famille): Option<seq<Regle>> {
    var regles := Regles(p.etapes, f);
    if forall r | r in regles :: r.priorite.Some? then Some(TriStable.Trier(regles, ClePriorite))
    else if forall r | r in regles :: r.priorite.None? then Some(Renverser(regles))
    else None
  }

  /** The shape of the product's plan of one family: exactly one rule leads to
      the tunnel's table, none leads to any other table but `main`, and a rule
      that lets a default route of `main` through is the core account's. */
  ghost predicate OrdreBienForme(ordre: seq<Regle>, t: u32) {
    && (exists i :: 0 <= i < |ordre| && ordre[i].consultation == Table(t))
    && (forall i, j :: 0 <= i < |ordre| && 0 <= j < |ordre| && ordre[i].consultation.Table? && ordre[j].consultation.Table? ==> i == j)
    && (forall i :: 0 <= i < |ordre| && ordre[i].consultation.Table? ==> ordre[i].consultation == Table(t))
    && (forall i :: 0 <= i < |ordre| && ordre[i].consultation == Main ==> ordre[i].selecteur.Compte?)
  }

  lemma ReglesConcat(a: seq<Etape>, b: seq<Etape>, f: Famille)
    ensures Regles(a + b, f) == Regles(a, f) + Regles(b, f)
  {
    if a == [] {
      assert a + b == b;
    } else {
      assert (a + b)[1..] == a[1..] + b;
      ReglesConcat(a[1..], b, f);
    }
  }

  lemma RoutesConcat(a: seq<Etape>, b: seq<Etape>, f: Famille)
    ensures Routes(a + b, f) == Routes(a, f) + Routes(b, f)
  {
    if a == [] {
      assert a + b == b;
    } else {
      assert (a + b)[1..] == a[1..] + b;
      RoutesConcat(a[1..], b, f);
    }
  }

  ghost predicate PlanDuProduit(p: Plan) {
    || (exists m, t :: p == PlanWireGuard(p.interface, m, t))
    || (exists c :: p == PlanCoeur(p.interface, c))
  }

  lemma EtapesWireGuardLues(f: Famille, g: Famille, interface: string, m: bv32, t: u32)
    ensures Regles(EtapesWireGuard(f, interface, m, t), g) ==
            if f == g then [Regle(f, None, HorsMarque(m), Table(t)), Regle(f, None, Tout, MainSansDefaut)] else []
    ensures Routes(EtapesWireGuard(f, interface, m, t), g) == if f == g then [RouteParDefaut(f, t, interface)] else []
  {
    var x, y, z := [EtapeRoute(RouteParDefaut(f, t, interface))],
                   [EtapeRegle(Regle(f, None, HorsMarque(m), Table(t)))],
                   [EtapeRegle(Regle(f, None, Tout, MainSansDefaut))];
    assert EtapesWireGuard(f, interface, m, t) == x + y + z;
    ReglesConcat(x + y, z, g);
    ReglesConcat(x, y, g);
    RoutesConcat(x + y, z, g);
    RoutesConcat(x, y, g);
    assert x[1..] == [] && y[1..] == [] && z[1..] == [];
  }

  /** The core path's rules: the core's own account leaves by `main`, the LAN
      keeps its routes, everything else enters the tunnel. */
  function ReglesDuCoeur(f: Famille, c: Option<u32>): seq<Regle> {
    (if c.Some? then [Regle(f, Some(PREF_COEUR), Compte(c.value), Main)] else [])
    + [Regle(f, Some(PREF_LAN), Tout, MainSansDefaut), Regle(f, Some(PREF_TUNNEL), Tout, Table(TABLE_COEUR))]
  }

  lemma EtapesCoeurLues(f: Famille, g: Famille, interface: string, c: Option<u32>)
    ensures Regles(EtapesCoeur(f, interface, c), g) == if f == g then ReglesDuCoeur(f, c) else []
    ensures Routes(EtapesCoeur(f, interface, c), g) == if f == g then [RouteParDefaut(f, TABLE_COEUR, interface)] else []
  {
    var tete := [EtapeRoute(RouteParDefaut(f, TABLE_COEUR, interface))];
    var milieu := match c case Some(uid) => [EtapeRegle(Regle(f, Some(PREF_COEUR), Compte(uid), Main))] case None => [];
    var fin := [EtapeRegle(Regle(f, Some(PREF_LAN), Tout, MainSansDefaut)),
                EtapeRegle(Regle(f, Some(PREF_TUNNEL), Tout, Table(TABLE_COEUR)))];
    ReglesConcat(tete + milieu, fin, g);
    ReglesConcat(tete, milieu, g);
    RoutesConcat(tete + milieu, fin, g);
    RoutesConcat(tete, milieu, g);
    assert tete[1..] == [] && fin[1..][1..] == [];
    assert milieu != [] ==> milieu[1..] == [];
  }

  /** The WireGuard path: the rule that spares `main`'s default route is
      evaluated before the one that leads to the tunnel, though it is installed
      after it. */
  lemma OrdreWireGuard(interface: string, m: bv32, t: u32, f: Famille)
    ensures OrdreDEvaluation(PlanWireGuard(interface, m, t), f) ==
            Some([Regle(f, None, Tout, MainSansDefaut), Regle(f, None, HorsMarque(m), Table(t))])
    ensures Routes(PlanWireGuard(interface, m, t).etapes, f) == [RouteParDefaut(f, t, interface)]
  {
    var a, b := EtapesWireGuard(Ipv4, interface, m, t), EtapesWireGuard(Ipv6, interface, m, t);
    ReglesConcat(a, b, f);
    RoutesConcat(a, b, f);
    EtapesWireGuardLues(Ipv4, f, interface, m, t);
    EtapesWireGuardLues(Ipv6, f, interface, m, t);
    OrdreSansPriorite(PlanWireGuard(interface, m, t), f,
                      [Regle(f, None, HorsMarque(m), Table(t)), Regle(f, None, Tout, MainSansDefaut)]);
  }

  lemma OrdreSansPriorite(p: Plan, f: Famille, r: seq<Regle>)
    requires Regles(p.etapes, f) == r && |r| == 2
    requires r[0].priorite.None? && r[1].priorite.None?
    ensures OrdreDEvaluation(p, f) == Some([r[1], r[0]])
  {
    assert r[0] in r;
    assert forall x :: x in r ==> x == r[0] || x == r[1];
    assert Renverser(r) == [r[1], r[0]] by {
      var d := r[1..];
      assert d[1..] == [];
      assert Renverser(d) == Renverser(d[1..]) + [d[0]];
    }
    assert !(forall x | x in Regles(p.etapes, f) :: x.priorite.Some?);
  }

  lemma OrdreAPriorites(p: Plan, f: Famille, r: seq<Regle>)
    requires Regles(p.etapes, f) == r
    requires forall i :: 0 <= i < |r| ==> r[i].priorite.Some?
    requires TriStable.Trie(r, ClePriorite)
    ensures OrdreDEvaluation(p, f) == Some(r)
  {
    DejaTrie(r);
  }

  lemma PlanCoeurLu(interface: string, c: Option<u32>, f: Famille)
    ensures Regles(PlanCoeur(interface, c).etapes, f) == ReglesDuCoeur(f, c)
    ensures Routes(PlanCoeur(interface, c).etapes, f) == [RouteParDefaut(f, TABLE_COEUR, interface)]
  {
    var a, b := EtapesCoeur(Ipv4, interface, c), EtapesCoeur(Ipv6, interface, c);
    ReglesConcat(a, b, f);
    RoutesConcat(a, b, f);
    EtapesCoeurLues(Ipv4, f, interface, c);
    EtapesCoeurLues(Ipv6, f, interface, c);
  }

  lemma OrdreCoeur(interface: string, c: Option<u32>, f: Famille)
    ensures OrdreDEvaluation(PlanCoeur(interface, c), f) == Some(ReglesDuCoeur(f, c))
  {
    PlanCoeurLu(interface, c, f);
    OrdreAPriorites(PlanCoeur(interface, c), f, ReglesDuCoeur(f, c));
  }

  lemma DejaTrie(r: seq<Regle>)
    requires TriStable.Trie(r, ClePriorite)
    ensures TriStable.Trier(r, ClePriorite) == r
  {
  }

  /** Every plan the product builds has, in each family, exactly one rule to its
      tunnel table and exactly one route there. */
  lemma PlanDuProduitBienForme(p: Plan, f: Famille)
    requires PlanDuProduit(p)
    ensures OrdreDEvaluation(p, f).Some?
    ensures OrdreBienForme(OrdreDEvaluation(p, f).value, TableDuTunnel(p))
    ensures Routes(p.etapes, f) == [RouteParDefaut(f, TableDuTunnel(p), p.interface)]
  {
    if m, t :| p == PlanWireGuard(p.interface, m, t) {
      OrdreWireGuard(p.interface, m, t, f);
      assert OrdreDEvaluation(p, f).value[1].consultation == Table(t);
    } else {
      var c :| p == PlanCoeur(p.interface, c);
      OrdreCoeur(p.interface, c, f);
      PlanCoeurLu(p.interface, c, f);
      var o := OrdreDEvaluation(p, f).value;
      assert o[|o| - 1].consultation == Table(TABLE_COEUR);
    }
  }
}
