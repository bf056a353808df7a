/**
 The proof by declaration, run in a world that keeps moving
 (crates/bifrost-cli/src/declaration.rs:529-664, crates/bifrost-cli/src/preuve_nft_linux.rs:173-186):
 the declaration read (N1), a kernel dump between two generation reads, the
 declaration read again (N2).
 */
module Protocole {
  import opened Commun
  import opened Executions

  datatype Refus = Identite(raison: string) | DeclarationRefusee(raison: string) {
    function Entree(): string {
      match this
      case Identite(_) => "daemon-identity"
      case DeclarationRefusee(_) => "daemon-declaration"
    }
  }

  /** A read of the declaration: it, and the rule that admitted its server. */
  datatype Lecture = Lue(declaration: Declaration, regle: string) | Refusee(refus: Refus)

  datatype IdentiteDaemon = HorsPerimetre | NonVerifiee | Verifiee(regle: string)

  const HORS_SCHEMA := "declaration du daemon hors schema"

  /** The report fields the protocol writes. */
  class Rapport {
    var failedInput: Option<string>
    var identite: IdentiteDaemon

    /** `commencer_declaration`: nothing read yet. */
    constructor ()
      ensures failedInput == Some("daemon-declaration") && identite == NonVerifiee
    {
      failedInput := Some("daemon-declaration");
      identite := NonVerifiee;
    }
  }

  /** The daemon and the kernel, at some instant of a run. Reading takes time:
      any number of steps may pass before each read, and a read may fail; `refus`
      counts those that did. */
  class Monde {
    const execution: seq<Etat>
    const moteur: Moteur
    var instant: nat
    ghost var refus: nat

    constructor (execution: seq<Etat>, moteur: Moteur)
      requires Execution(execution)
      ensures this.execution == execution && this.moteur == moteur && instant == 0 && Valid()
    {
      this.execution := execution;
      this.moteur := moteur;
      this.instant := 0;
      this.refus := 0;
    }

    ghost predicate Valid()
      reads this
    {
      Execution(execution) && instant < |execution|
    }

    method Attendre()
      requires Valid()
      modifies this`instant
      ensures Valid() && old(instant) <= instant
    {
      var pas: nat :| instant <= pas < |execution|;
      instant := pas;
    }

    /** `lire`: what the daemon publishes now, once past the strict reader. */
    method LireDeclaration() returns (r: Lecture)
      requires Valid()
      modifies this`instant, this`refus
      ensures Valid() && old(instant) <= instant && old(refus) <= refus
      ensures r.Lue? ==> r.declaration == Publier(execution[instant].demon, moteur) && Coherente(r.declaration)
      ensures r.Refusee? && refus == old(refus) ==>
        r.refus == DeclarationRefusee(HORS_SCHEMA) && !Coherente(Publier(execution[instant].demon, moteur))
    {
      Attendre();
      var d := Publier(execution[instant].demon, moteur);
      if * {
        refus := refus + 1;
        r := Refusee(Identite("serveur de la declaration non privilegie"));
      } else if * {
        refus := refus + 1;
        r := Refusee(DeclarationRefusee("daemon injoignable"));
      } else if !Coherente(d) {
        r := Refusee(DeclarationRefusee(HORS_SCHEMA));
      } else {
        r := Lue(d, "root");
      }
    }

    method LireGeneration() returns (r: Result<u32>)
      requires Valid()
      modifies this`instant, this`refus
      ensures Valid() && old(instant) <= instant
      ensures if r.Ok? then refus == old(refus) && r.value == execution[instant].noyau.Generation() else refus == old(refus) + 1
    {
      Attendre();
      if * {
        refus := refus + 1;
        r := Err("lecture netlink impossible");
      } else {
        r := Ok(execution[instant].noyau.Generation());
      }
    }

    /** The kernel does not move over a stretch of the run. */
    static ghost predicate Immobile(e: seq<Etat>, i: nat, k: nat)
      requires i <= k < |e|
    {
      forall j :: i <= j <= k ==> e[j].noyau == e[i].noyau
    }

    /** `nft list ruleset`: rules come one after the other, and the kernel may
        change between two of them. Only over a stretch where it does not is the
        dump the ruleset. */
    method Dump(limite: nat) returns (r: Result<seq<string>>)
      requires Valid()
      modifies this`instant
      ensures Valid() && old(instant) <= instant
      ensures Immobile(execution, old(instant), instant) ==>
        var regles := execution[old(instant)].noyau.regles;
        if |regles| <= limite then r == Ok(regles) else r.Err?
    {
      var capture := [];
      ghost var debut := instant;
      Attendre();
      while |capture| < |execution[instant].noyau.regles|
        invariant Valid() && debut <= instant
        invariant Immobile(execution, debut, instant) ==>
          |capture| <= |execution[debut].noyau.regles| && capture == execution[debut].noyau.regles[..|capture|]
        invariant |capture| <= limite
        decreases limite - |capture|
      {
        if |capture| == limite {
          return Err("capture nft trop grande");
        }
        capture := capture + [execution[instant].noyau.regles[|capture|]];
        ghost var avant := instant;
        Attendre();
        assert Immobile(execution, debut, instant) ==> Immobile(execution, debut, avant);
      }
      r := Ok(capture);
      if Immobile(execution, debut, instant) {
        assert execution[instant].noyau == execution[debut].noyau;
        assert capture == execution[debut].noyau.regles;
      }
    }

    /** Too many kernel changes in a stretch for a 32-bit generation to show. */
    ghost predicate Compteur32(i: nat, k: nat)
      requires i <= k < |execution|
    {
      execution[k].noyau.changements - execution[i].noyau.changements < 0x1_0000_0000
    }

    /** The ruleset was `capture` all along a stretch. */
    static ghost predicate Porte(e: seq<Etat>, i: nat, k: nat, capture: seq<string>)
      requires i <= k < |e|
    {
      forall j :: i <= j <= k ==> e[j].noyau.regles == capture
    }

    /** `collecter`: generation, dump, generation. */
    method Collecter(limite: nat) returns (r: Result<seq<string>>)
      requires Valid()
      modifies this`instant, this`refus
      ensures Valid() && old(instant) <= instant && old(refus) <= refus
      ensures refus == old(refus) && Immobile(execution, old(instant), instant) ==>
        var regles := execution[old(instant)].noyau.regles;
        if |regles| <= limite then r == Ok(regles) else r.Err?
      ensures r.Ok? && Compteur32(old(instant), instant) ==>
        exists i, k :: old(instant) <= i <= k <= instant && Porte(execution, i, k, r.value)
    {
      ghost var debut := instant;
      var avant := LireGeneration();
      if avant.Err? {
        return Err(avant.raison);
      }
      ghost var i := instant;
      var octets := Dump(limite);
      assert Immobile(execution, debut, instant) ==> Immobile(execution, i, instant) && execution[i].noyau == execution[debut].noyau;
      if octets.Err? {
        return octets;
      }
      ghost var d := instant;
      var apres := LireGeneration();
      if Immobile(execution, debut, instant) {
        assert Immobile(execution, i, d) && execution[i].noyau == execution[debut].noyau && execution[instant].noyau == execution[debut].noyau;
      }
      if apres.Err? {
        return Err(apres.raison);
      }
      if avant.value != apres.value {
        return Err("generation nft modifiee pendant la collecte");
      }
      r := octets;
      if Compteur32(debut, instant) {
        ExecutionSuite(execution, debut, i);
        forall j | i <= j <= instant ensures execution[j].noyau == execution[i].noyau {
          GenerationStable(execution, i, j, instant);
        }
        assert Immobile(execution, i, d);
        assert Porte(execution, i, instant, r.value);
      }
    }

    /** `politique_posee`: the policy to compare, or why there is none. */
    static function PolitiquePosee(d: Declaration, moteur: string): (r: Result<Projection>)
      ensures r.Ok? <==> d.issue == IssuePosee && d.moteur == moteur && d.politique.Some?
      ensures r.Ok? ==> d.politique == Some(r.value)
    {
      if d.moteur != moteur then Err("moteur hors perimetre")
      else match d.issue
        case IssueAucune => Err("aucune politique posee par ce daemon depuis son demarrage")
        case IssueRetiree => Err("kill switch retire par le daemon: aucune politique a comparer")
        case IssueEchec => Err("derniere application en echec")
        case IssuePosee => match d.politique case Some(p) => Ok(p) case None => Err(HORS_SCHEMA)
    }

    /** The captured ruleset is attributable to a declaration: one instant of the
        stretch had both. */
    ghost predicate Attribuable(i: nat, k: nat, d: Declaration, capture: seq<string>)
      requires i <= k < |execution|
    {
      exists j :: i <= j <= k && Publier(execution[j].demon, moteur) == d && execution[j].noyau.regles == capture
    }

    /** Nothing moves over a stretch of the run. */
    static ghost predicate Calme(e: seq<Etat>, i: nat, k: nat)
      requires i <= k < |e|
    {
      forall j :: i <= j <= k ==> e[j] == e[i]
    }

    static lemma CalmeDedans(e: seq<Etat>, i: nat, k: nat, a: nat, b: nat)
      requires i <= a <= b <= k < |e| && Calme(e, i, k)
      ensures e[a] == e[i] && e[b] == e[i] && e[k] == e[i] && Immobile(e, a, b)
    {
    }

    /** `encadrer` around `collecter`. A success means one instant existed when
        the kernel held the captured ruleset and the daemon was in the state it
        declared. `n1`, `mesure` and `n2` are what the three reads gave: the report says
        which input is missing from them, and the result is a success exactly when all
        three are there, the first declares a policy and the last is the same. */
    method Encadrer(r: Rapport, perimetre: string, limite: nat)
      returns (res: Result<(Declaration, Projection, seq<string>)>, ghost n1: Lecture, ghost mesure: Option<Result<seq<string>>>, ghost n2: Option<Lecture>)
      requires Valid()
      modifies this`instant, this`refus, r
      ensures Valid() && old(instant) <= instant && old(refus) <= refus
      ensures res.Ok? <==>
        && n1.Lue? && PolitiquePosee(n1.declaration, perimetre).Ok? && mesure.Some? && mesure.value.Ok?
        && n2.Some? && n2.value.Lue? && n2.value.declaration == n1.declaration
      ensures res.Ok? ==> res.value == (n1.declaration, n1.declaration.politique.value, mesure.value.value) && res.value.0.moteur == perimetre
      ensures res.Ok? && res.value.0.application < U64_MAX && Compteur32(old(instant), instant) ==>
        Attribuable(old(instant), instant, res.value.0, res.value.2)
      ensures r.failedInput ==
        if n1.Refusee? then Some(if n1.refus.Identite? then "daemon-identity" else "daemon-declaration")
        else if PolitiquePosee(n1.declaration, perimetre).Err? then old(r.failedInput)
        else if mesure != None && mesure.value.Err? then Some("observed")
        else if n2 != None && n2.value.Refusee? && n2.value.refus.Identite? then Some("daemon-identity")
        else if n2 != None && n2.value.Lue? && n2.value.declaration == n1.declaration then Some("observed")
        else Some("daemon-declaration")
      ensures r.identite ==
        if n1.Refusee? then old(r.identite)
        else if n2 != None && n2.value.Refusee? && n2.value.refus.Identite? then NonVerifiee
        else Verifiee(n1.regle)
      ensures refus == old(refus) && Calme(execution, old(instant), instant) ==>
        var s := execution[old(instant)];
        var d := Publier(s.demon, moteur);
        if Coherente(d) && d.issue == IssuePosee && d.moteur == perimetre && |s.noyau.regles| <= limite
        then res == Ok((d, d.politique.value, s.noyau.regles))
        else res.Err?
    {
      hide Coherente, Execution, Publier, InstanceValide;
      mesure, n2 := None, None;
      ghost var debut := instant;
      var premiere := LireDeclaration();
      n1 := premiere;
      if premiere.Refusee? {
        r.failedInput := Some(premiere.refus.Entree());
        return Err(premiere.refus.raison), n1, mesure, n2;
      }
      ghost var i1 := instant;
      r.identite := Verifiee(premiere.regle);
      var attendu := PolitiquePosee(premiere.declaration, perimetre);
      if attendu.Err? {
        CoherenteDit(premiere.declaration);
        return Err(attendu.raison), n1, mesure, n2;
      }
      r.failedInput := Some("observed");
      var capture := Collecter(limite);
      mesure := Some(capture);
      if Calme(execution, debut, instant) {
        CalmeDedans(execution, debut, instant, i1, instant);
      }
      if capture.Err? {
        return Err(capture.raison), n1, mesure, n2;
      }
      ghost var fin := instant;
      r.failedInput := Some("daemon-declaration");
      var seconde := LireDeclaration();
      n2 := Some(seconde);
      if Calme(execution, debut, instant) {
        CalmeDedans(execution, debut, instant, i1, fin);
      }
      match seconde {
        case Refusee(Identite(raison)) =>
          r.failedInput := Some("daemon-identity");
          r.identite := NonVerifiee;
          return Err(raison), n1, mesure, n2;
        case Refusee(DeclarationRefusee(_)) =>
          return Err("declaration du daemon illisible ou injoignable apres la collecte"), n1, mesure, n2;
        case Lue(d, _) =>
          if d != premiere.declaration {
            return Err("declaration du daemon modifiee pendant la collecte"), n1, mesure, n2;
          }
      }
      r.failedInput := Some("observed");
      res := Ok((premiere.declaration, attendu.value, capture.value));
      if premiere.declaration.application < U64_MAX && Compteur32(debut, instant) {
        ghost var j := InstantCommun(execution, moteur, debut, i1, fin, instant, premiere.declaration, capture.value);
      }
    }
  }

  /** Between two equal declarations and inside a generation bracket: one instant had the
      declaration and the ruleset. */
  lemma InstantCommun(e: seq<Etat>, m: Moteur, debut: nat, i1: nat, fin: nat, n: nat, d: Declaration, capture: seq<string>) returns (j: nat)
    requires Execution(e) && debut <= i1 <= fin <= n < |e| && Publier(e[i1].demon, m) == d && Publier(e[n].demon, m) == d
    requires Coherente(d) && d.application < U64_MAX && e[n].noyau.changements - e[debut].noyau.changements < 0x1_0000_0000
    requires e[fin].noyau.changements - e[i1].noyau.changements < 0x1_0000_0000 ==>
               exists i, k :: i1 <= i <= k <= fin && Monde.Porte(e, i, k, capture)
    ensures debut <= j <= n && Publier(e[j].demon, m) == d && e[j].noyau.regles == capture
  {
    hide Publier, Coherente, InstanceValide, Execution;
    ExecutionSuite(e, debut, i1);
    ExecutionSuite(e, fin, n);
    var i, k :| i1 <= i <= k <= fin && Monde.Porte(e, i, k, capture);
    PublieDit(e[i1].demon, m);
    DeclarationStable(e, i1, i, n, m);
    j := i;
  }

  lemma PublieDit(d: Demon, m: Moteur)
    ensures Publier(d, m).instance == d.instance && Publier(d, m).application == d.application
    ensures Coherente(Publier(d, m)) ==> InstanceValide(d.instance)
  {
  }

  lemma CoherenteDit(d: Declaration)
    requires Coherente(d)
    ensures d.issue == IssuePosee ==> d.politique.Some?
  {
  }
}
