/**
 A whole proof by declaration: the daemon's declaration, the system, the declaration
 again, then the comparison with the plan declared
 (crates/bifrost-cli/src/preuve_routes.rs:974-1040, preuve_routes_windows.rs:827-868,
 preuve_dns.rs:1227-1290, preuve_nft.rs:553-603). A verdict is true of one instant when
 the daemon declared that plan.
 */
module PreuvesDeclarees {
  import opened Commun
  import opened Json
  import opened DoubleCollecte
  import opened Preuves
  import Declarations
  import DemonDeclare
  import RoutageDeclare
  import PlanLinux
  import PlanDns
  import RoutesLinux
  import RoutesWindows
  import Dns
  import Executions
  import Protocole
  import ComparaisonNft
  import ValidateurLinux
  import ValidateurWindows
  import ValidateurDns

  lemma DeclareeNommee(d: Value, resultat: string, variante: Declarations.Variante)
    requires Declarations.LireEnTete(d, resultat, variante).Ok?
    ensures DemonDeclare.Nommee(d)
  {
  }

  /** No number of the stretch is saturated, and no part comes back. */
  ghost predicate Lisible<P>(monde: DemonDeclare.Monde<P>, i: nat, k: nat)
    requires monde.Valid() && i <= k < |monde.instants|
    reads monde.systeme
  {
    && (forall j :: i <= j <= k ==> monde.instants[j].demon.application < U64_MAX)
    && SansRetour(monde.systeme.execution, monde.systeme.parties, i, k)
  }

  /** What the bracket of the three proofs gives: what was read is what the system was
      at one instant when the daemon declared this plan; on a still run without a failed
      read it is the state and the plan declared, unless the declaration gives none. */
  ghost predicate Attribuee<P>(monde: DemonDeclare.Monde<P>, i: nat, sansPanne: bool, extraire: Value -> Result<P>, lu: Option<(Value, P, Etat)>)
    reads monde.systeme
    requires monde.Valid() && i <= monde.systeme.instant
  {
    var k := monde.systeme.instant;
    && (lu.Some? ==> extraire(lu.value.0) == Ok(lu.value.1))
    && (lu.Some? && Lisible(monde, i, k) ==> monde.Attribuable(i, k, lu.value.0, lu.value.2))
    && (sansPanne && DemonDeclare.Calme(monde.instants, i, k) ==>
          var d := DemonDeclare.Publier(monde.instants[i].demon, monde.ecriture);
          lu == match extraire(d) case Ok(p) => Some((d, p, monde.systeme.execution[i])) case Err(_) => None)
  }

  /** The bracket of the three proofs. */
  method Encadrer<P>(monde: DemonDeclare.Monde<P>, extraire: Value -> Result<P>) returns (r: Option<(Value, P, Etat)>)
    requires monde.Valid() && forall d: Value :: extraire(d).Ok? ==> DemonDeclare.Nommee(d)
    modifies monde.systeme`instant, monde.systeme`pannes, monde`refus
    ensures monde.Valid() && old(monde.systeme.instant) <= monde.systeme.instant
    ensures Attribuee(monde, old(monde.systeme.instant), monde.refus == old(monde.refus) && monde.systeme.pannes == old(monde.systeme.pannes), extraire, r)
  {
    hide DemonDeclare.Publier, DemonDeclare.Calme, DemonDeclare.Nommee, SansRetour, DemonDeclare.Deroule;
    ghost var debut := monde.systeme.instant;
    var lu := monde.Encadrer(extraire);
    if lu.Err? {
      return None;
    }
    ghost var n :| debut <= n <= monde.systeme.instant && DemonDeclare.Publier(monde.instants[n].demon, monde.ecriture) == lu.value.0;
    DemonDeclare.NumeroPublie(monde.instants[n].demon, monde.ecriture);
    r := Some(lu.value);
  }

  /** The plan a Linux declaration gives. */
  function LecteurLinux(variante: Declarations.Variante): Value -> Result<PlanLinux.Plan> { d => ValidateurLinux.Declare(d, variante) }

  /** The Linux proof: the verdict is the one on the state and the plan the bracket gave,
      none without them; at one instant the daemon had posed that very plan. */
  method ProuverLinux(monde: DemonDeclare.Monde<PlanLinux.Plan>, variante: Declarations.Variante,
                      lire: (string, Etat) -> Option<RoutesLinux.Observation>)
    returns (v: Verdict, lu: Option<(Value, PlanLinux.Plan, Etat)>)
    requires monde.Valid() && monde.ecriture == RoutageDeclare.ECRITURE && RoutageDeclare.NommeLesTextes(variante)
    requires forall j :: 0 <= j < |monde.instants| && monde.instants[j].demon.retenue.Pose? ==>
               PlanLinux.PlanDuProduit(monde.instants[j].demon.retenue.plan)
    modifies monde.systeme`instant, monde.systeme`pannes, monde`refus
    ensures monde.Valid() && old(monde.systeme.instant) <= monde.systeme.instant
    ensures Attribuee(monde, old(monde.systeme.instant), monde.refus == old(monde.refus) && monde.systeme.pannes == old(monde.systeme.pannes),
                      LecteurLinux(variante), lu)
    ensures lu.None? ==> v == Unmeasured
    ensures lu.Some? ==> VraiLinux(v, lu.value.1, lire(lu.value.1.interface, lu.value.2), true)
    ensures lu.Some? && Lisible(monde, old(monde.systeme.instant), monde.systeme.instant) ==>
      exists t :: old(monde.systeme.instant) <= t <= monde.systeme.instant
                  && monde.instants[t].demon.retenue == DemonDeclare.Pose(lu.value.1) && monde.systeme.execution[t] == lu.value.2
  {
    hide ValidateurLinux.Declare, PlanLinux.PlanDuProduit, VraiLinux, Attribuee, Lisible, DemonDeclare.Deroule, DemonDeclare.Publier;
    forall d: Value | LecteurLinux(variante)(d).Ok? ensures DemonDeclare.Nommee(d) {
      LinuxNommee(d, variante);
    }
    ghost var debut := monde.systeme.instant;
    lu := Encadrer(monde, LecteurLinux(variante));
    if lu.None? {
      return Unmeasured, lu;
    }
    if Lisible(monde, debut, monde.systeme.instant) {
      ghost var t := InstantAttribue(monde, debut, LecteurLinux(variante), lu);
      PlanDeclare(monde.instants[t].demon, variante);
    }
    assert ValidateurLinux.Declare(lu.value.0, variante) == Ok(lu.value.1) by { Extraite(monde, debut, LecteurLinux(variante), lu); }
    DuProduitLu(lu.value.0, variante);
    v := JugerLinux(lu.value.1, lire(lu.value.1.interface, lu.value.2), true);
  }

  lemma Extraite<P>(monde: DemonDeclare.Monde<P>, i: nat, extraire: Value -> Result<P>, lu: Option<(Value, P, Etat)>)
    requires monde.Valid() && i <= monde.systeme.instant && lu.Some? && exists s :: Attribuee(monde, i, s, extraire, lu)
    ensures extraire(lu.value.0) == Ok(lu.value.1)
  {
  }

  /** The instant of a verdict. */
  lemma InstantAttribue<P>(monde: DemonDeclare.Monde<P>, i: nat, extraire: Value -> Result<P>, lu: Option<(Value, P, Etat)>) returns (t: nat)
    requires monde.Valid() && i <= monde.systeme.instant && lu.Some? && exists s :: Attribuee(monde, i, s, extraire, lu)
    requires Lisible(monde, i, monde.systeme.instant)
    ensures i <= t <= monde.systeme.instant && monde.systeme.execution[t] == lu.value.2
    ensures DemonDeclare.Publier(monde.instants[t].demon, monde.ecriture) == lu.value.0 && extraire(lu.value.0) == Ok(lu.value.1)
  {
    hide DemonDeclare.Publier, DemonDeclare.Deroule, SansRetour;
    t :| i <= t <= monde.systeme.instant && DemonDeclare.Publier(monde.instants[t].demon, monde.ecriture) == lu.value.0
         && monde.systeme.execution[t] == lu.value.2;
  }

  /** What a declaration gives is a plan of the product. */
  lemma DuProduitLu(d: Value, variante: Declarations.Variante)
    ensures ValidateurLinux.Declare(d, variante).Ok? ==> PlanLinux.PlanDuProduit(ValidateurLinux.Declare(d, variante).value)
  {
  }

  lemma LinuxNommee(d: Value, variante: Declarations.Variante)
    requires ValidateurLinux.Declare(d, variante).Ok?
    ensures DemonDeclare.Nommee(d)
  {
    DeclareeNommee(d, "declaration-routage", variante);
  }

  /** A declaration that gives a plan is of a daemon that posed it. */
  lemma PlanDeclare(d: DemonDeclare.Demon<PlanLinux.Plan>, variante: Declarations.Variante)
    requires RoutageDeclare.NommeLesTextes(variante) && (d.retenue.Pose? ==> PlanLinux.PlanDuProduit(d.retenue.plan))
    requires ValidateurLinux.Declare(DemonDeclare.Publier(d, RoutageDeclare.ECRITURE), variante).Ok?
    ensures d.retenue == DemonDeclare.Pose(ValidateurLinux.Declare(DemonDeclare.Publier(d, RoutageDeclare.ECRITURE), variante).value)
  {
    var v := DemonDeclare.Publier(d, RoutageDeclare.ECRITURE);
    InstanceDeclaree(v, variante);
    RoutageDeclare.DeclareeRelue(d, variante);
  }

  lemma InstanceDeclaree(v: Value, variante: Declarations.Variante)
    requires ValidateurLinux.Declare(v, variante).Ok?
    ensures v.Objet? && "instance" in v.m && v.m["instance"].Texte? && Executions.InstanceValide(v.m["instance"].t)
  {
  }

  function LecteurWindows(variante: Declarations.Variante, x: ValidateurWindows.Textes): Value -> Result<RoutesWindows.PlanWindows> {
    d => ValidateurWindows.Declare(d, variante, x)
  }

  /** The Windows proof. */
  method ProuverWindows(monde: DemonDeclare.Monde<RoutesWindows.PlanWindows>, variante: Declarations.Variante, x: ValidateurWindows.Textes,
                        lire: (string, Etat) -> Option<RoutesWindows.TableIpHelper>)
    returns (v: Verdict, lu: Option<(Value, RoutesWindows.PlanWindows, Etat)>)
    requires monde.Valid()
    modifies monde.systeme`instant, monde.systeme`pannes, monde`refus
    ensures monde.Valid() && old(monde.systeme.instant) <= monde.systeme.instant
    ensures Attribuee(monde, old(monde.systeme.instant), monde.refus == old(monde.refus) && monde.systeme.pannes == old(monde.systeme.pannes),
                      LecteurWindows(variante, x), lu)
    ensures lu.None? ==> v == Unmeasured
    ensures lu.Some? ==> VraiWindows(v, lu.value.1, lire(lu.value.1.interface, lu.value.2))
  {
    hide ValidateurWindows.Declare, VraiWindows, Attribuee, DemonDeclare.Deroule, DemonDeclare.Publier;
    forall d: Value | LecteurWindows(variante, x)(d).Ok? ensures DemonDeclare.Nommee(d) {
      WindowsNommee(d, variante, x);
    }
    lu := Encadrer(monde, LecteurWindows(variante, x));
    if lu.None? {
      return Unmeasured, lu;
    }
    v := JugerWindows(lu.value.1, lire(lu.value.1.interface, lu.value.2));
  }

  lemma WindowsNommee(d: Value, variante: Declarations.Variante, x: ValidateurWindows.Textes)
    requires ValidateurWindows.Declare(d, variante, x).Ok?
    ensures DemonDeclare.Nommee(d)
  {
    DeclareeNommee(d, "declaration-routage-windows", variante);
  }

  function LecteurDns(variante: Declarations.Variante, x: ValidateurDns.Textes): Value -> Result<PlanDns.Intention> {
    d => ValidateurDns.Declare(d, variante, x)
  }

  /** The DNS proof. */
  method ProuverDns(monde: DemonDeclare.Monde<PlanDns.Intention>, variante: Declarations.Variante, x: ValidateurDns.Textes,
                    lire: (string, Etat) -> Option<Dns.Observation>, graphie: PlanDns.Adresse -> string)
    returns (v: Verdict, lu: Option<(Value, PlanDns.Intention, Etat)>)
    requires monde.Valid()
    modifies monde.systeme`instant, monde.systeme`pannes, monde`refus
    ensures monde.Valid() && old(monde.systeme.instant) <= monde.systeme.instant
    ensures Attribuee(monde, old(monde.systeme.instant), monde.refus == old(monde.refus) && monde.systeme.pannes == old(monde.systeme.pannes),
                      LecteurDns(variante, x), lu)
    ensures lu.None? ==> v == Unmeasured
    ensures lu.Some? ==> VraiDns(v, lu.value.1, lire(lu.value.1.plan.interface, lu.value.2), graphie)
  {
    hide ValidateurDns.Declare, VraiDns, Attribuee, DemonDeclare.Deroule, DemonDeclare.Publier;
    forall d: Value | LecteurDns(variante, x)(d).Ok? ensures DemonDeclare.Nommee(d) {
      DnsNommee(d, variante, x);
    }
    ghost var debut := monde.systeme.instant;
    lu := Encadrer(monde, LecteurDns(variante, x));
    if lu.None? {
      return Unmeasured, lu;
    }
    assert ValidateurDns.Declare(lu.value.0, variante, x) == Ok(lu.value.1) by { Extraite(monde, debut, LecteurDns(variante, x), lu); }
    ServeursDeclares(lu.value.0, variante, x);
    v := JugerDns(lu.value.1, lire(lu.value.1.plan.interface, lu.value.2), graphie);
  }

  lemma DnsNommee(d: Value, variante: Declarations.Variante, x: ValidateurDns.Textes)
    requires ValidateurDns.Declare(d, variante, x).Ok?
    ensures DemonDeclare.Nommee(d)
  {
    DeclareeNommee(d, "declaration-dns", variante);
  }

  lemma ServeursDeclares(d: Value, variante: Declarations.Variante, x: ValidateurDns.Textes)
    ensures ValidateurDns.Declare(d, variante, x).Ok? ==> ValidateurDns.Declare(d, variante, x).value.plan.serveurs != []
  {
    if ValidateurDns.Declare(d, variante, x).Ok? {
      ServeursDeLaPose(ValidateurDns.LirePlan(d.m["plan"], x).value);
    }
    hide ValidateurDns.LirePlan, ValidateurDns.IntentionDeLaPose, Declarations.LireEnTete;
  }

  /** A declared plan names a server at least. */
  lemma ServeursDeLaPose(p: ValidateurDns.PoseDns)
    ensures ValidateurDns.IntentionDeLaPose(p).Ok? ==> ValidateurDns.IntentionDeLaPose(p).value.plan.serveurs != []
  {
    hide ValidateurDns.BackendNomme, Declarations.InterfaceAdmise, SansDoublon, ValidateurDns.Bouclage;
  }

  /** The verdict on two captures: none without both, read; otherwise their normal forms
      are equal, or not. */
  ghost function VerdictNft(attendu: Option<Value>, observe: Option<Value>): Verdict {
    if attendu.None? || observe.None? || !ComparaisonNft.Acceptee(attendu.value) || !ComparaisonNft.Acceptee(observe.value) then Unmeasured
    else if ComparaisonNft.Normale(attendu.value) == ComparaisonNft.Normale(observe.value) then Match
    else Mismatch
  }

  method JugerNft(attendu: Option<Value>, observe: Option<Value>) returns (v: Verdict)
    ensures v == VerdictNft(attendu, observe)
  {
    hide ComparaisonNft.Acceptee, ComparaisonNft.Normale, ComparaisonNft.Differences;
    if attendu.None? || observe.None? {
      return Unmeasured;
    }
    var rapport := new ComparaisonNft.Rapport();
    var a := ComparaisonNft.Analyser(attendu.value);
    if a.Err? {
      return Unmeasured;
    }
    var r := rapport.Confronter(a.value, observe.value);
    if r.Err? {
      return Unmeasured;
    }
    v := if rapport.verdict == ComparaisonNft.Correspond then Match else Mismatch;
    ComparaisonNft.CorrespondEgalite(a.value.ordre, ComparaisonNft.Normale(observe.value));
  }

  /** The nft proof. `reference` writes what a projected policy expects, `lue` reads a
      dump. The verdict is the one on what the bracket gave, none without it; at one
      instant the daemon had declared the policy while the kernel held the ruleset. On a
      still run whose reads succeed, the bracket gives what is declared and held. */
  method ProuverNft(monde: Protocole.Monde, moteur: string, limite: nat, reference: Executions.Projection -> Option<Value>,
                    lue: seq<string> -> Option<Value>)
    returns (v: Verdict, m: Option<(Executions.Declaration, Executions.Projection, seq<string>)>)
    requires monde.Valid()
    modifies monde`instant, monde`refus
    ensures monde.Valid() && old(monde.instant) <= monde.instant && old(monde.refus) <= monde.refus
    ensures v == if m.None? then Unmeasured else VerdictNft(reference(m.value.1), lue(m.value.2))
    ensures m.Some? ==> m.value.0.moteur == moteur && m.value.0.issue == Executions.IssuePosee && m.value.0.politique == Some(m.value.1)
    ensures m.Some? && m.value.0.application < U64_MAX && monde.Compteur32(old(monde.instant), monde.instant) ==>
      monde.Attribuable(old(monde.instant), monde.instant, m.value.0, m.value.2)
    ensures monde.refus == old(monde.refus) && Protocole.Monde.Calme(monde.execution, old(monde.instant), monde.instant) ==>
      var s := monde.execution[old(monde.instant)];
      var d := Executions.Publier(s.demon, monde.moteur);
      m == if Executions.Coherente(d) && d.issue == Executions.IssuePosee && d.moteur == moteur && |s.noyau.regles| <= limite
           then Some((d, d.politique.value, s.noyau.regles)) else None
  {
    hide Executions.Publier, Executions.InstanceValide, VerdictNft, Protocole.Monde.Calme, Executions.Execution;
    var suivi := new Protocole.Rapport();
    var mesure, _, _, _ := monde.Encadrer(suivi, moteur, limite);
    if mesure.Err? {
      return Unmeasured, None;
    }
    m := Some(mesure.value);
    v := JugerNft(reference(mesure.value.1), lue(mesure.value.2));
  }
}
