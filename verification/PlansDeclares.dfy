/**
 What the readers of a plan accept, field by field, and the plan they give for it:
 the intentions (crates/bifrost-cli/src/preuve_routes.rs:269-316,
 preuve_routes_windows.rs:166-256, preuve_dns.rs:206-274) and the posed declarations
 (crates/bifrost-cli/src/declaration.rs:323-529). `nommer` names an enumeration
 variant by a value: a text by itself in an intention, the deserialiser's way in a
 declaration.
 */
module PlansDeclares {
  import opened Commun
  import opened Json
  import opened Declarations
  import Executions
  import PlanDns
  import PlanLinux
  import PrefixesIp
  import RoutesWindows
  import Dns = ValidateurDns
  import Linux = ValidateurLinux
  import Windows = ValidateurWindows

  // ---------------------------------------------------------------------
  // What they share.
  // ---------------------------------------------------------------------

  /** A letter, a digit, a hyphen or an underscore, by its ASCII code. */
  ghost predicate Permis(c: char) {
    var n := c as int;
    48 <= n <= 57 || 65 <= n <= 90 || 97 <= n <= 122 || n == 45 || n == 95
  }

  ghost predicate Nom(v: Value) { v.Texte? && 1 <= |v.t| <= 15 && forall i :: 0 <= i < |v.t| ==> Permis(v.t[i]) }

  lemma NomEcrit(v: Value)
    ensures Nom(v) <==> v.Texte? && NomAdmis(v.t)
  {
    if v.Texte? && NomAdmis(v.t) {
      forall i | 0 <= i < |v.t| ensures Permis(v.t[i]) {
      }
    }
    if Nom(v) {
      forall i | 0 <= i < |v.t| ensures 'a' <= v.t[i] <= 'z' || 'A' <= v.t[i] <= 'Z' || '0' <= v.t[i] <= '9' || v.t[i] == '-' || v.t[i] == '_' {
        assert Permis(v.t[i]);
      }
    }
  }

  ghost predicate Nombre32(v: Value) { v.Nombre? && 0 <= v.n <= 4294967295 }

  lemma EntierEcrit(v: Value, n: Option<u32>)
    ensures Entier32(v) == Ok(n) <==> if n.None? then v == Null else v == Nombre(n.value)
    ensures Entier32(v).Ok? <==> v == Null || Nombre32(v)
  {
  }

  /** The header of a declaration that a plan is installed: the six keys, version 1, a
      valid instance, a number above zero. */
  ghost predicate EnTetePose(v: Value, resultat: string, variante: Variante) {
    && v.Objet? && v.m.Keys == {"result", "schema_version", "instance", "application", "issue", "plan"}
    && v.m["result"] == Texte(resultat) && v.m["schema_version"] == Nombre(1)
    && v.m["instance"].Texte? && Executions.InstanceValide(v.m["instance"].t)
    && v.m["application"].Nombre? && 0 < v.m["application"].n && variante(v.m["issue"]) == Some("pose")
  }

  lemma PoseeEst(v: Value, resultat: string, variante: Variante)
    ensures Posee(v, resultat, variante) <==> EnTetePose(v, resultat, variante)
  {
    hide Executions.InstanceValide;
  }

  // ---------------------------------------------------------------------
  // Linux.
  // ---------------------------------------------------------------------

  /** The mark is the number written. */
  lemma MarqueEst(n: u32)
    ensures Linux.Marque(n) == n as bv32
  {
  }

  /** A mark that is not zero, a table outside the kernel's four, no account. */
  ghost predicate WireGuardAdmis(interface: string, m: Value, t: Value, c: Value, p: PlanLinux.Plan) {
    && Nombre32(m) && m.n != 0 && Nombre32(t) && t.n !in {0, 253, 254, 255} && c == Null
    && p == PlanLinux.PlanWireGuard(interface, Linux.Marque(m.n), t.n)
  }

  /** No mark, no table, and an account that is not root's, or none. */
  ghost predicate CoeurAdmis(interface: string, m: Value, t: Value, c: Value, p: PlanLinux.Plan) {
    && m == Null && t == Null
    && ((c == Null && p == PlanLinux.PlanCoeur(interface, None)) || (Nombre32(c) && c.n != 0 && p == PlanLinux.PlanCoeur(interface, Some(c.n))))
  }

  ghost predicate LinuxAdmis(chemin: Option<string>, interface: Value, fwmark: Value, table: Value, compte: Value, p: PlanLinux.Plan) {
    && Nom(interface) && interface.t != "lo"
    && ((chemin == Some("wireguard") && WireGuardAdmis(interface.t, fwmark, table, compte, p))
        || (chemin == Some("coeur") && CoeurAdmis(interface.t, fwmark, table, compte, p)))
  }

  lemma ParWireGuardEst(interface: string, m: Value, t: Value, c: Value, p: PlanLinux.Plan)
    ensures WireGuardAdmis(interface, m, t, c, p) <==>
              && Entier32(m).Ok? && Entier32(t).Ok? && Entier32(c).Ok?
              && Linux.ParWireGuard(interface, Entier32(m).value, Entier32(t).value, Entier32(c).value) == Ok(p)
  {
    hide PlanLinux.PlanWireGuard, Linux.Marque;
  }

  lemma ParLeCoeurEst(interface: string, m: Value, t: Value, c: Value, p: PlanLinux.Plan)
    ensures CoeurAdmis(interface, m, t, c, p) <==>
              && Entier32(m).Ok? && Entier32(t).Ok? && Entier32(c).Ok?
              && Linux.ParLeCoeur(interface, Entier32(m).value, Entier32(t).value, Entier32(c).value) == Ok(p)
  {
    hide PlanLinux.PlanCoeur;
  }

  lemma ChampsLinux(chemin: Value, interface: Value, fwmark: Value, table: Value, compte: Value, p: PlanLinux.Plan)
    ensures Linux.PlanDesChamps(chemin, interface, fwmark, table, compte) == Ok(p)
       <==> LinuxAdmis(Textuel(chemin), interface, fwmark, table, compte, p)
  {
    hide NomAdmis, Nom, WireGuardAdmis, CoeurAdmis, Linux.ParWireGuard, Linux.ParLeCoeur, Entier32;
    NomEcrit(interface);
    if interface.Texte? {
      ParWireGuardEst(interface.t, fwmark, table, compte, p);
      ParLeCoeurEst(interface.t, fwmark, table, compte, p);
    }
    Chemins();
  }

  lemma Chemins()
    ensures "wireguard" != "coeur"
  {
    assert |"wireguard"| != |"coeur"|;
  }

  /** An intention gives this plan. */
  lemma IntentionLinux(v: Value, p: PlanLinux.Plan)
    ensures Linux.PlanDeLIntention(v) == Ok(p) <==>
              && v.Objet? && v.m.Keys == {"schema_version", "chemin", "interface", "fwmark", "table", "coeur_uid"}
              && v.m["schema_version"] == Nombre(1)
              && LinuxAdmis(Textuel(v.m["chemin"]), v.m["interface"], v.m["fwmark"], v.m["table"], v.m["coeur_uid"], p)
  {
    hide LinuxAdmis, Linux.PlanDesChamps;
    if v.Objet? && v.m.Keys == Linux.CLES {
      ChampsLinux(v.m["chemin"], v.m["interface"], v.m["fwmark"], v.m["table"], v.m["coeur_uid"], p);
      EntierEcrit(v.m["schema_version"], Some(1));
    }
  }

  /** A posed declaration gives this plan. */
  lemma DeclarationLinux(v: Value, variante: Variante, p: PlanLinux.Plan)
    ensures Linux.Declare(v, variante) == Ok(p) <==>
              && EnTetePose(v, "declaration-routage", variante)
              && v.m["plan"].Objet? && v.m["plan"].m.Keys == {"chemin", "interface", "fwmark", "table", "coeur_uid"}
              && var d := v.m["plan"].m; LinuxAdmis(variante(d["chemin"]), d["interface"], d["fwmark"], d["table"], d["coeur_uid"], p)
  {
    hide LinuxAdmis, EnTetePose, Posee, LireEnTete, Linux.Declare, Linux.PlanPose, Linux.TyperChamps;
    PoseeEst(v, "declaration-routage", variante);
    if Posee(v, "declaration-routage", variante) {
      if v.m["plan"].Objet? {
        Linux.DeclarePose(v, variante);
        var d, n := v.m["plan"].m, LireEnTete(v, "declaration-routage", variante).value.application;
        if d.Keys == Linux.PLAN_CLES {
          TypesLinux(variante(d["chemin"]), d["interface"], d["fwmark"], d["table"], d["coeur_uid"], n, p);
        } else {
          Linux.RienAPoser(n);
        }
      } else {
        PlanNonObjet(v, variante);
      }
    } else {
      NonPosee(v, variante);
    }
  }

  lemma PlanNonObjet(v: Value, variante: Variante)
    requires Posee(v, "declaration-routage", variante) && !v.m["plan"].Objet?
    ensures Linux.Declare(v, variante).Err?
  {
    hide LireEnTete;
    assert Linux.LireEtat("pose") == Some(Linux.Pose);
  }

  lemma NonPosee(v: Value, variante: Variante)
    requires !Posee(v, "declaration-routage", variante)
    ensures Linux.Declare(v, variante).Err?
  {
    hide LireEnTete, Linux.LirePlan, Linux.PlanCoherent;
  }

  lemma TypesLinux(nom: Option<string>, interface: Value, fwmark: Value, table: Value, compte: Value, n: u64, p: PlanLinux.Plan)
    ensures Linux.PlanPose(Linux.TyperChamps(nom, interface, fwmark, table, compte), n) == Ok(p)
       <==> LinuxAdmis(nom, interface, fwmark, table, compte, p)
  {
    hide LinuxAdmis, Linux.PlanPose, Linux.TyperChamps, Linux.PlanDesChamps;
    match nom {
      case Some(s) =>
        Linux.ChampsEgaux(s, interface, fwmark, table, compte, n);
        ChampsLinux(Texte(s), interface, fwmark, table, compte, p);
      case None =>
        Linux.CheminSansNom(Null, interface, fwmark, table, compte, n);
        SansNom(interface, fwmark, table, compte, p);
    }
  }

  lemma SansNom(interface: Value, fwmark: Value, table: Value, compte: Value, p: PlanLinux.Plan)
    ensures !LinuxAdmis(None, interface, fwmark, table, compte, p)
  {
  }

  // ---------------------------------------------------------------------
  // Windows.
  // ---------------------------------------------------------------------

  /** The families: one, or IPv4 then IPv6. */
  ghost predicate FamillesEcrites(v: Value, nommer: Variante, f: seq<Famille>) {
    && v.Liste?
    && ((|v.l| == 1 && nommer(v.l[0]) == Some("ipv4") && f == [Ipv4])
        || (|v.l| == 1 && nommer(v.l[0]) == Some("ipv6") && f == [Ipv6])
        || (|v.l| == 2 && nommer(v.l[0]) == Some("ipv4") && nommer(v.l[1]) == Some("ipv6") && f == [Ipv4, Ipv6]))
  }

  lemma {:induction false} FamillesUneAUne(l: seq<Value>, nommer: Variante, f: seq<Famille>)
    ensures Windows.FamillesLues(l, nommer) == Some(f) <==>
              |f| == |l| && forall k :: 0 <= k < |l| ==> Windows.FamilleNommee(nommer(l[k])) == Some(f[k])
  {
    hide Windows.FamilleNommee;
    if l == [] {
    } else if f == [] {
    } else {
      var p, g := l[..|l| - 1], f[..|f| - 1];
      FamillesUneAUne(p, nommer, g);
      assert f == g + [f[|f| - 1]];
      if |f| == |l| && forall k :: 0 <= k < |l| ==> Windows.FamilleNommee(nommer(l[k])) == Some(f[k]) {
        assert forall k :: 0 <= k < |p| ==> p[k] == l[k] && g[k] == f[k];
      }
      if Windows.FamillesLues(l, nommer) == Some(f) {
        var h := Windows.FamillesLues(p, nommer).value;
        assert f == h + [f[|f| - 1]] && h == g;
        forall k | 0 <= k < |l| ensures Windows.FamilleNommee(nommer(l[k])) == Some(f[k]) {
          if k < |p| {
            assert p[k] == l[k] && g[k] == f[k];
          }
        }
      }
    }
  }

  lemma EnOrdre(f: seq<Famille>, i: nat, j: nat)
    requires Windows.Croissantes(f) && i < j < |f|
    ensures f[i] == Ipv4 && f[j] == Ipv6
  {
  }

  lemma AuPlusDeux(f: seq<Famille>)
    ensures Windows.Croissantes(f) ==> |f| <= 2
  {
    if Windows.Croissantes(f) && |f| > 2 {
      if f[1] == Ipv4 {
        EnOrdre(f, 0, 1);
      } else {
        EnOrdre(f, 1, 2);
      }
    }
  }

  lemma FamillesExactes(v: Value, nommer: Variante, f: seq<Famille>)
    ensures Windows.FamillesDe(v, nommer) == Some(f) && f != [] && Windows.Croissantes(f) <==> FamillesEcrites(v, nommer, f)
  {
    assert |"ipv4"| == 4 && "ipv4"[3] != "ipv6"[3];
    if v.Liste? {
      FamillesUneAUne(v.l, nommer, f);
      AuPlusDeux(f);
    }
  }

  /** A list of the texts of these prefixes, each read back as itself. */
  ghost predicate Ecrites(v: Value, d: seq<PrefixesIp.IpNet>, x: Windows.Textes) {
    && v.Liste? && |d| == |v.l|
    && forall k :: 0 <= k < |d| ==> v.l[k] == Texte(x.ecrire(d[k])) && x.lire(x.ecrire(d[k])) == Some(d[k])
  }

  ghost predicate DestinationsEcrites(v: Value, d: Option<seq<PrefixesIp.IpNet>>, x: Windows.Textes) {
    if d.None? then v == Null else Ecrites(v, d.value, x)
  }

  lemma {:induction false} DestinationsUneAUne(l: seq<Value>, d: seq<PrefixesIp.IpNet>, x: Windows.Textes)
    ensures Windows.DestinationsLues(l, x) == Some(d) <==> Ecrites(Liste(l), d, x)
  {
    if l == [] {
    } else if d == [] {
    } else {
      var p, e := l[..|l| - 1], d[..|d| - 1];
      DestinationsUneAUne(p, e, x);
      assert d == e + [d[|d| - 1]];
      if Windows.DestinationsLues(l, x) == Some(d) {
        var h := Windows.DestinationsLues(p, x).value;
        assert d == h + [d[|d| - 1]] && h == e;
        forall k | 0 <= k < |d| ensures l[k] == Texte(x.ecrire(d[k])) && x.lire(x.ecrire(d[k])) == Some(d[k]) {
          if k < |p| {
            assert p[k] == l[k] && e[k] == d[k];
          }
        }
      }
      if Ecrites(Liste(l), d, x) {
        assert forall k :: 0 <= k < |e| ==> p[k] == l[k] && e[k] == d[k];
      }
    }
  }

  lemma DestinationsExactes(v: Value, d: Option<seq<PrefixesIp.IpNet>>, x: Windows.Textes)
    ensures Windows.DestinationsDIntention(v, x) == Ok(d) <==> DestinationsEcrites(v, d, x)
  {
    if d.Some? {
      hide Ecrites;
      if v.Liste? {
        DestinationsUneAUne(v.l, d.value, x);
      } else {
        PasUneListe(v, d.value, x);
      }
    }
  }

  lemma PasUneListe(v: Value, d: seq<PrefixesIp.IpNet>, x: Windows.Textes)
    requires !v.Liste?
    ensures !Ecrites(v, d, x)
  {
  }

  /** No bit past its length. */
  ghost predicate Masquee(n: PrefixesIp.IpNet) { forall k :: n.longueur <= k < |n.bits| ==> !n.bits[k] }

  lemma MasqueeEst(n: PrefixesIp.IpNet)
    ensures PrefixesIp.Masquer(n) == n <==> Masquee(n)
  {
    if Masquee(n) {
      assert PrefixesIp.Masquer(n).bits == n.bits;
    }
    if PrefixesIp.Masquer(n) == n {
      forall k | n.longueur <= k < |n.bits| ensures !n.bits[k] {
        assert PrefixesIp.Masquer(n).bits[k] == n.bits[k];
      }
    }
  }

  /** WireGuard: destinations, each masked, none twice. The core: none to give. */
  ghost predicate WindowsAdmis(chemin: Option<string>, interface: string, mtu: u32, f: seq<Famille>, d: Option<seq<PrefixesIp.IpNet>>,
                               p: RoutesWindows.PlanWindows)
  {
    || (chemin == Some("wireguard") && d.Some? && |d.value| >= 1 && (forall k :: 0 <= k < |d.value| ==> Masquee(d.value[k]))
        && (forall j, k :: 0 <= j < k < |d.value| ==> d.value[j] != d.value[k]) && p == RoutesWindows.PlanWireGuard(interface, f, d.value, mtu))
    || (chemin == Some("coeur") && d.None? && p == RoutesWindows.PlanCoeur(interface, f, mtu))
  }

  lemma ValeursWindows(nom: Option<string>, interface: string, mtu: u32, f: seq<Famille>, d: Option<seq<PrefixesIp.IpNet>>,
                       p: RoutesWindows.PlanWindows)
    ensures Windows.CheminNomme(nom).Some? && Windows.PlanDesValeurs(Windows.CheminNomme(nom).value, interface, mtu, f, d) == Ok(p)
       <==> && NomAdmis(interface) && 576 <= mtu <= 9000 && f != [] && Windows.Croissantes(f)
            && WindowsAdmis(nom, interface, mtu, f, d, p)
  {
    hide NomAdmis, RoutesWindows.PlanWireGuard, RoutesWindows.PlanCoeur, PrefixesIp.Masquer, Masquee, Windows.Croissantes;
    Chemins();
    if d.Some? {
      forall k | 0 <= k < |d.value| ensures PrefixesIp.Masquer(d.value[k]) == d.value[k] <==> Masquee(d.value[k]) {
        MasqueeEst(d.value[k]);
      }
    }
  }

  /** The fields give this plan. */
  ghost predicate WindowsEcrit(chemin: Option<string>, interface: Value, mtu: Value, familles: Value, destinations: Value, nommer: Variante,
                               x: Windows.Textes, p: RoutesWindows.PlanWindows)
  {
    && Nom(interface) && mtu.Nombre? && 576 <= mtu.n <= 9000
    && exists f, d ::
         FamillesEcrites(familles, nommer, f) && DestinationsEcrites(destinations, d, x) && WindowsAdmis(chemin, interface.t, mtu.n, f, d, p)
  }

  lemma ChampsWindows(chemin: Option<string>, interface: Value, mtu: Value, familles: Value, destinations: Value, nommer: Variante,
                      x: Windows.Textes, p: RoutesWindows.PlanWindows)
    ensures Windows.DesValeurs(Windows.CheminNomme(chemin), interface, mtu, Windows.FamillesDe(familles, nommer), destinations, x) == Ok(p)
       <==> WindowsEcrit(chemin, interface, mtu, familles, destinations, nommer, x, p)
  {
    hide NomAdmis, Nom, FamillesEcrites, DestinationsEcrites, WindowsAdmis, Windows.Croissantes, Windows.FamillesDe,
         Windows.DestinationsDIntention, Windows.CheminNomme, Windows.PlanDesValeurs;
    NomEcrit(interface);
    if interface.Texte? && Windows.Mtu(mtu).Some? {
      var r, s := Windows.FamillesDe(familles, nommer), Windows.DestinationsDIntention(destinations, x);
      if r.Some? && s.Ok? {
        FamillesExactes(familles, nommer, r.value);
        DestinationsExactes(destinations, s.value, x);
        ValeursWindows(chemin, interface.t, mtu.n, r.value, s.value, p);
      }
      if WindowsEcrit(chemin, interface, mtu, familles, destinations, nommer, x, p) {
        var f, d :| FamillesEcrites(familles, nommer, f) && DestinationsEcrites(destinations, d, x)
                    && WindowsAdmis(chemin, interface.t, mtu.n, f, d, p);
        FamillesExactes(familles, nommer, f);
        DestinationsExactes(destinations, d, x);
      }
    }
  }

  /** An intention gives this plan. */
  lemma IntentionWindows(v: Value, x: Windows.Textes, p: RoutesWindows.PlanWindows)
    ensures Windows.PlanDeLIntention(v, x) == Ok(p) <==>
              && v.Objet? && v.m.Keys == {"schema_version", "plateforme", "chemin", "interface", "mtu", "familles", "destinations"}
              && v.m["schema_version"] == Nombre(1) && v.m["plateforme"] == Texte("windows")
              && WindowsEcrit(Textuel(v.m["chemin"]), v.m["interface"], v.m["mtu"], v.m["familles"], v.m["destinations"], Textuel, x, p)
  {
    hide WindowsEcrit, Windows.DesValeurs, Windows.PlanDesValeurs, Windows.FamillesDe, Windows.DestinationsDIntention, Windows.CheminNomme;
    if v.Objet? && v.m.Keys == Windows.CLES && v.m["schema_version"] == Nombre(1) && v.m["plateforme"] == Texte("windows") {
      hide Windows.PlanDeLIntention;
      Windows.IntentionJugee(v, x);
      ChampsWindows(Textuel(v.m["chemin"]), v.m["interface"], v.m["mtu"], v.m["familles"], v.m["destinations"], Textuel, x, p);
    }
  }

  /** A posed declaration gives this plan. */
  lemma DeclarationWindows(v: Value, variante: Variante, x: Windows.Textes, p: RoutesWindows.PlanWindows)
    ensures Windows.Declare(v, variante, x) == Ok(p) <==>
              && EnTetePose(v, "declaration-routage-windows", variante)
              && v.m["plan"].Objet? && v.m["plan"].m.Keys == {"chemin", "interface", "mtu", "familles", "destinations"}
              && var d := v.m["plan"].m;
                 WindowsEcrit(variante(d["chemin"]), d["interface"], d["mtu"], d["familles"], d["destinations"], variante, x, p)
  {
    hide WindowsEcrit, EnTetePose, Windows.DesValeurs, Windows.FamillesDe, Windows.CheminNomme;
    PoseeEst(v, "declaration-routage-windows", variante);
    if Posee(v, "declaration-routage-windows", variante) && v.m["plan"].Objet? && v.m["plan"].m.Keys == Windows.PLAN_CLES {
      hide Windows.Declare, Posee;
      var d := v.m["plan"].m;
      Windows.DeclarationJugee(v, variante, x);
      ChampsWindows(variante(d["chemin"]), d["interface"], d["mtu"], d["familles"], d["destinations"], variante, x, p);
    } else {
      PasDePlanWindows(v, variante, x);
    }
  }

  lemma PasDePlanWindows(v: Value, variante: Variante, x: Windows.Textes)
    requires !(Posee(v, "declaration-routage-windows", variante) && v.m["plan"].Objet? && v.m["plan"].m.Keys == Windows.PLAN_CLES)
    ensures Windows.Declare(v, variante, x).Err?
  {
    hide LireEnTete, Windows.PlanDesValeurs, Windows.GraphieCanonique, Windows.FamillesLues, Windows.DestinationsDeclarees,
         Windows.CheminNomme, Windows.PlanCoherent;
  }

  // ---------------------------------------------------------------------
  // DNS.
  // ---------------------------------------------------------------------

  ghost predicate Ecrite(v: Value, a: PlanDns.Adresse, x: Dns.Textes) { v == Texte(x.ecrire(a)) && x.lire(x.ecrire(a)) == Some(a) }

  ghost predicate AmontsEcrits(v: Value, u: seq<PlanDns.Adresse>, x: Dns.Textes) {
    && v.Liste? && |u| == |v.l| && (forall k :: 0 <= k < |u| ==> Ecrite(v.l[k], u[k], x))
    && forall j, k :: 0 <= j < k < |u| ==> u[j] != u[k]
  }

  lemma {:induction false} AmontsUnAUn(l: seq<Value>, u: seq<PlanDns.Adresse>, x: Dns.Textes)
    ensures Dns.AmontsLus(l, x) == Some(u) <==> AmontsEcrits(Liste(l), u, x)
  {
    if l == [] {
    } else if u == [] {
    } else {
      var p, e, a := l[..|l| - 1], u[..|u| - 1], u[|u| - 1];
      AmontsUnAUn(p, e, x);
      assert u == e + [a];
      Dns.DoublonSuite(e, a);
      if Dns.AmontsLus(l, x) == Some(u) {
        var h := Dns.AmontsLus(p, x).value;
        assert u == h + [a] && h == e;
        forall k | 0 <= k < |u| ensures Ecrite(l[k], u[k], x) {
          if k < |p| {
            assert p[k] == l[k] && e[k] == u[k];
          }
        }
      }
      if AmontsEcrits(Liste(l), u, x) {
        assert forall k :: 0 <= k < |e| ==> p[k] == l[k] && e[k] == u[k];
        assert Ecrite(l[|l| - 1], a, x);
      }
    }
  }

  /** The address of the local resolver: 127.0.0.0/8, or ::1. */
  ghost predicate BoucleLocale(a: PlanDns.Adresse) {
    match a.famille
    case Ipv4 => a.octets[0] == 127
    case Ipv6 => a.octets[15] == 1 && forall k :: 0 <= k < 15 ==> a.octets[k] == 0
  }

  lemma BoucleLocaleEst(a: PlanDns.Adresse)
    ensures Dns.Bouclage(a) <==> BoucleLocale(a)
  {
    if a.famille == Ipv6 && BoucleLocale(a) {
      assert a.octets == [0, 0, 0, 0, 0, 0, 0, 0, 0, 0, 0, 0, 0, 0, 0, 1];
    }
  }

  /** The account of the embedded resolver: none, or one that is not root's. */
  ghost predicate CompteEcrit(v: Value, embarque: bool, c: Option<u32>) {
    || (v == Null && c == None)
    || (Nombre32(v) && v.n != 0 && embarque && c == Some(v.n))
  }

  /** The fields give this intention, the file backend written `fichier`. */
  ghost predicate DnsEcrit(fichier: string, backend: Value, interface: Value, local: Value, upstream: Value, embarque: Value, compte: Value,
                           x: Dns.Textes, i: PlanDns.Intention)
  {
    && ((backend == Texte("systemd-resolved") && i.backend == PlanDns.BackendResolved)
        || (backend == Texte(fichier) && i.backend == PlanDns.BackendResolvConf))
    && Nom(interface) && interface.t != "lo" && i.plan.interface == interface.t
    && Ecrite(local, i.localResolver, x) && BoucleLocale(i.localResolver)
    && embarque == Bool(i.embarque) && CompteEcrit(compte, i.embarque, i.resolveurUid)
    && exists u :: AmontsEcrits(upstream, u, x) && 1 <= |u| <= 16 && i.plan.serveurs == if i.embarque then [i.localResolver] else u
  }

  lemma CanoniqueEst(v: Value, a: PlanDns.Adresse, x: Dns.Textes)
    ensures Dns.Canonique(v, x) && x.lire(v.t).value == a <==> Ecrite(v, a, x)
  {
  }

  lemma CompteEst(v: Value, embarque: bool, c: Option<u32>)
    ensures Entier32(v) == Ok(c) && c != Some(0) && (c.Some? ==> embarque) <==> CompteEcrit(v, embarque, c)
  {
  }

  lemma ChampsDnsLus(fichier: string, backend: Value, interface: Value, local: Value, upstream: Value, embarque: Value, compte: Value,
                     x: Dns.Textes, i: PlanDns.Intention)
    requires Dns.IntentionDesChamps(Dns.BackendNomme(backend, fichier), interface, local, upstream, embarque, compte, x) == Ok(i)
    ensures DnsEcrit(fichier, backend, interface, local, upstream, embarque, compte, x, i)
  {
    hide NomAdmis, Nom, Entier32, CompteEcrit, Dns.Canonique, Ecrite, Dns.AmontsLus, AmontsEcrits, Dns.Bouclage, BoucleLocale;
    NomEcrit(interface);
    CanoniqueEst(local, i.localResolver, x);
    CompteEst(compte, i.embarque, i.resolveurUid);
    BoucleLocaleEst(i.localResolver);
    var u := Dns.AmontsLus(upstream.l, x).value;
    AmontsUnAUn(upstream.l, u, x);
    AmontsAutant(upstream, u, x);
    assert AmontsEcrits(upstream, u, x) && 1 <= |u| <= 16;
  }

  lemma AmontsAutant(v: Value, u: seq<PlanDns.Adresse>, x: Dns.Textes)
    requires AmontsEcrits(v, u, x)
    ensures v.Liste? && |u| == |v.l|
  {
  }

  lemma ChampsDnsEcrits(fichier: string, backend: Value, interface: Value, local: Value, upstream: Value, embarque: Value, compte: Value,
                        x: Dns.Textes, i: PlanDns.Intention)
    requires fichier != "systemd-resolved"
    requires DnsEcrit(fichier, backend, interface, local, upstream, embarque, compte, x, i)
    ensures Dns.IntentionDesChamps(Dns.BackendNomme(backend, fichier), interface, local, upstream, embarque, compte, x) == Ok(i)
  {
    hide NomAdmis, Nom, Entier32, CompteEcrit, Dns.Canonique, Ecrite, Dns.AmontsLus, AmontsEcrits, Dns.Bouclage, BoucleLocale;
    NomEcrit(interface);
    CanoniqueEst(local, i.localResolver, x);
    CompteEst(compte, i.embarque, i.resolveurUid);
    BoucleLocaleEst(i.localResolver);
    var u :| AmontsEcrits(upstream, u, x) && 1 <= |u| <= 16 && i.plan.serveurs == if i.embarque then [i.localResolver] else u;
    AmontsAutant(upstream, u, x);
    AmontsUnAUn(upstream.l, u, x);
  }

  lemma ChampsDns(fichier: string, backend: Value, interface: Value, local: Value, upstream: Value, embarque: Value, compte: Value,
                  x: Dns.Textes, i: PlanDns.Intention)
    requires fichier != "systemd-resolved"
    ensures Dns.IntentionDesChamps(Dns.BackendNomme(backend, fichier), interface, local, upstream, embarque, compte, x) == Ok(i)
       <==> DnsEcrit(fichier, backend, interface, local, upstream, embarque, compte, x, i)
  {
    hide Dns.IntentionDesChamps, DnsEcrit, Dns.BackendNomme;
    if Dns.IntentionDesChamps(Dns.BackendNomme(backend, fichier), interface, local, upstream, embarque, compte, x) == Ok(i) {
      ChampsDnsLus(fichier, backend, interface, local, upstream, embarque, compte, x, i);
    }
    if DnsEcrit(fichier, backend, interface, local, upstream, embarque, compte, x, i) {
      ChampsDnsEcrits(fichier, backend, interface, local, upstream, embarque, compte, x, i);
    }
  }

  /** An intention gives this one. */
  lemma IntentionDns(v: Value, x: Dns.Textes, i: PlanDns.Intention)
    ensures Dns.IntentionDns(v, x) == Ok(i) <==>
              && v.Objet? && v.m.Keys == {"schema_version", "backend", "interface", "local_resolver", "upstream", "embarque", "resolveur_uid"}
              && v.m["schema_version"] == Nombre(1)
              && DnsEcrit("resolv-conf", v.m["backend"], v.m["interface"], v.m["local_resolver"], v.m["upstream"], v.m["embarque"],
                          v.m["resolveur_uid"], x, i)
  {
    hide Dns.IntentionDesChamps, DnsEcrit, Dns.BackendNomme;
    if v.Objet? && v.m.Keys == Dns.CLES {
      assert "resolv-conf" != "systemd-resolved" by { assert |"resolv-conf"| != |"systemd-resolved"|; }
      ChampsDns("resolv-conf", v.m["backend"], v.m["interface"], v.m["local_resolver"], v.m["upstream"], v.m["embarque"], v.m["resolveur_uid"], x, i);
    }
  }

  /** A posed declaration gives this intention. */
  lemma DeclarationDns(v: Value, variante: Variante, x: Dns.Textes, i: PlanDns.Intention)
    ensures Dns.Declare(v, variante, x) == Ok(i) <==>
              && EnTetePose(v, "declaration-dns", variante)
              && v.m["plan"].Objet? && v.m["plan"].m.Keys == {"backend", "interface", "local_resolver", "upstream", "embarque", "resolveur_uid"}
              && var d := v.m["plan"].m;
                 DnsEcrit("resolv.conf", d["backend"], d["interface"], d["local_resolver"], d["upstream"], d["embarque"], d["resolveur_uid"], x, i)
  {
    hide DnsEcrit, EnTetePose, Dns.IntentionDesChamps, Dns.IntentionDeLaPose, Dns.PoseDesChamps;
    PoseeEst(v, "declaration-dns", variante);
    if Posee(v, "declaration-dns", variante) && v.m["plan"].Objet? && v.m["plan"].m.Keys == Dns.PLAN_CLES {
      var d := v.m["plan"].m;
      PoseDnsEst(d["backend"], d["interface"], d["local_resolver"], d["upstream"], d["embarque"], d["resolveur_uid"], x, i);
    }
  }

  /** What a declaration writes of its plan. */
  lemma PoseDnsEst(backend: Value, interface: Value, local: Value, upstream: Value, embarque: Value, compte: Value, x: Dns.Textes, i: PlanDns.Intention)
    ensures (var p := Dns.PoseDesChamps(backend, interface, local, upstream, embarque, compte, x); p.Ok? && Dns.IntentionDeLaPose(p.value) == Ok(i))
       <==> DnsEcrit("resolv.conf", backend, interface, local, upstream, embarque, compte, x, i)
  {
    hide DnsEcrit, Dns.IntentionDesChamps, Dns.IntentionDeLaPose, Dns.PoseDesChamps, Dns.BackendNomme;
    assert "resolv.conf" != "systemd-resolved" by { assert |"resolv.conf"| != |"systemd-resolved"|; }
    ChampsDns("resolv.conf", backend, interface, local, upstream, embarque, compte, x, i);
    PoseCommeIntention(backend, interface, local, upstream, embarque, compte, x, i);
  }

  /** A posed plan is judged as an intention that names its backend. */
  lemma PoseCommeIntention(backend: Value, interface: Value, local: Value, upstream: Value, embarque: Value, compte: Value, x: Dns.Textes,
                           i: PlanDns.Intention)
    ensures (var p := Dns.PoseDesChamps(backend, interface, local, upstream, embarque, compte, x); p.Ok? && Dns.IntentionDeLaPose(p.value) == Ok(i))
       <==> Dns.IntentionDesChamps(Dns.BackendNomme(backend, "resolv.conf"), interface, local, upstream, embarque, compte, x) == Ok(i)
  {
    BackendTexte(backend);
    if backend.Texte? {
      hide InterfaceAdmise, Entier32, Dns.Valide, Dns.Canonique, Dns.TousCanoniques, Dns.AmontsLus, Dns.AmontsTypes, Dns.BackendNomme, SansDoublon;
      Dns.PoseAdmise(backend, interface, local, upstream, embarque, compte, x);
      Dns.IntentionAdmise(Dns.BackendNomme(backend, "resolv.conf"), interface, local, upstream, embarque, compte, x);
      if upstream.Liste? {
        Dns.AmontsEgaux(upstream.l, x);
      }
    }
  }

  lemma BackendTexte(v: Value)
    ensures Dns.BackendNomme(v, "resolv.conf").Some? ==> v.Texte? && v.t != ""
  {
    assert |"resolv.conf"| != 0 && |"systemd-resolved"| != 0;
  }
}
