/**
 The verdicts of the four proofs, said of what was read and nothing else: the fields of
 `EcartsLinux`, `EcartsWindows`, `EcartsDns` and `LectureNft`
 (crates/bifrost-cli/src/preuve_routes.rs:802-841, preuve_routes_windows.rs:728-751,
 preuve_dns.rs:1073-1116, preuve_nft.rs:374-401).
 */
module Verdicts {
  import opened Commun
  import opened Json
  import opened Preuves
  import PlanLinux
  import RoutesLinux
  import EcartsLinux
  import RoutesWindows
  import ChoixWindows
  import EcartsWindows
  import PlanDns
  import Dns
  import ChoixDns
  import EcartsDns
  import ComparaisonNft
  import LectureNft
  import PreuvesDeclarees

  /** Linux: a plan of the product is always measured once the kernel is read; MATCH
      exactly when both families conform, MISMATCH otherwise. */
  lemma Linux(plan: PlanLinux.Plan, obs: Option<RoutesLinux.Observation>, exiger: bool)
    requires PlanLinux.PlanDuProduit(plan)
    ensures VerdictLinux(plan, obs, exiger) ==
      if obs == None then Unmeasured
      else if forall f: Famille :: EcartsLinux.Conforme(plan, f, obs.value, exiger) then Match
      else Mismatch
  {
    if obs.Some? {
      EcartsLinux.CorrespondanceExacte(plan, obs.value, exiger);
    }
    hide PlanLinux.PlanDuProduit, RoutesLinux.Comparable, RoutesLinux.EcartsDuPlan, EcartsLinux.Conforme;
  }

  /** A family differs in something other than a tie. */
  ghost predicate Differe(plan: RoutesWindows.PlanWindows, f: Famille, t: RoutesWindows.TableIpHelper, tunnel: u64) {
    || EcartsWindows.Absente(plan, f, t, tunnel) || EcartsWindows.AutreMetriqueDeRoute(plan, f, t, tunnel)
    || (EcartsWindows.Capturee(plan.lignes, f) && !EcartsWindows.LigneImposee(t, tunnel, f))
    || (exists r :: EcartsWindows.DeTrop(plan, f, t, tunnel, r))
    || exists r :: EcartsWindows.Ailleurs(f, t, tunnel, r) && EcartsWindows.Emporte(plan, f, t, tunnel, r)
  }

  /** Windows: MISMATCH exactly without the tunnel or when a family differs; MATCH exactly
      when both conform; only ties are left to measure nothing. */
  lemma Windows(plan: RoutesWindows.PlanWindows, t: Option<RoutesWindows.TableIpHelper>)
    requires ChoixWindows.PlanMasque(plan)
    ensures t == None ==> VerdictWindows(plan, t) == Unmeasured
    ensures t != None ==> (VerdictWindows(plan, t) == Mismatch <==>
              t.value.tunnel == None || exists f: Famille :: Differe(plan, f, t.value, t.value.tunnel.value))
    ensures t != None ==> (VerdictWindows(plan, t) == Match <==>
              t.value.tunnel != None && forall f: Famille :: EcartsWindows.Conforme(plan, f, t.value, t.value.tunnel.value))
  {
    if t.Some? {
      EcartsWindows.VerdictExact(plan, t.value);
      if t.value.tunnel.Some? {
        Differences(plan, t.value, t.value.tunnel.value);
      }
    }
    hide ChoixWindows.PlanMasque, RoutesWindows.EcartsFamille, RoutesWindows.VerdictIndecis, EcartsWindows.Conforme, Differe;
  }

  lemma Differences(plan: RoutesWindows.PlanWindows, t: RoutesWindows.TableIpHelper, tunnel: u64)
    requires ChoixWindows.PlanMasque(plan) && t.tunnel == Some(tunnel)
    ensures RoutesWindows.EcartsDuPlan(plan, t) != [] <==> exists f: Famille :: Differe(plan, f, t, tunnel)
  {
    var e4, e6 := RoutesWindows.EcartsFamille(plan, Ipv4, t, tunnel), RoutesWindows.EcartsFamille(plan, Ipv6, t, tunnel);
    assert |e4 + e6| == |e4| + |e6|;
    hide ChoixWindows.PlanMasque, RoutesWindows.EcartsFamille, Differe;
    forall f: Famille ensures RoutesWindows.EcartsFamille(plan, f, t, tunnel) != [] <==> Differe(plan, f, t, tunnel) {
      FamilleDiffere(plan, f, t, tunnel);
    }
    assert Differe(plan, Ipv4, t, tunnel) || Differe(plan, Ipv6, t, tunnel) ==> exists f: Famille :: Differe(plan, f, t, tunnel);
  }

  lemma FamilleDiffere(plan: RoutesWindows.PlanWindows, f: Famille, t: RoutesWindows.TableIpHelper, tunnel: u64)
    requires ChoixWindows.PlanMasque(plan)
    ensures RoutesWindows.EcartsFamille(plan, f, t, tunnel) != [] <==> Differe(plan, f, t, tunnel)
  {
    EcartsWindows.EcartsExacts(plan, f, t, tunnel);
    hide ChoixWindows.PlanMasque, RoutesWindows.EcartsFamille, EcartsWindows.Absente, EcartsWindows.AutreMetriqueDeRoute, EcartsWindows.Capturee,
         EcartsWindows.LigneImposee, EcartsWindows.DeTrop, EcartsWindows.Ailleurs, EcartsWindows.Emporte;
  }

  /** DNS: past the guards, MATCH exactly when no category's sentence holds of the
      resolver that runs. */
  lemma DesNoms(i: PlanDns.Intention, o: Dns.Observation, v: ChoixDns.Resolveur, graphie: PlanDns.Adresse -> string)
    requires i.backend == PlanDns.BackendResolved ==> o.resolved == Some(v.etat) && ChoixDns.Reel(v)
    ensures VerdictDns(i, Some(o), graphie) ==
      if !Dns.Mesurable(i, o) then Unmeasured
      else if forall e :: !EcartsDns.Sentence(i, o, v, graphie, e) then Match
      else Mismatch
    ensures VerdictDns(i, None, graphie) == Unmeasured
  {
    hide Dns.Mesurable, Dns.Present, EcartsDns.Sentence, ChoixDns.Reel;
    if Dns.Mesurable(i, o) {
      forall e ensures Dns.Present(i, o, graphie, e) <==> EcartsDns.Sentence(i, o, v, graphie, e) {
        EcartsDns.EcartsExacts(i, o, v, graphie, e);
      }
    }
  }

  /** nft: measured exactly when both captures read, field by field. */
  lemma Nft(attendu: Value, observe: Value)
    ensures PreuvesDeclarees.VerdictNft(Some(attendu), Some(observe)) == Unmeasured <==>
              !LectureNft.CaptureLisible(attendu) || !LectureNft.CaptureLisible(observe)
    ensures PreuvesDeclarees.VerdictNft(Some(attendu), Some(observe)) == Match <==>
              LectureNft.CaptureLisible(attendu) && LectureNft.CaptureLisible(observe)
              && ComparaisonNft.Normale(attendu) == ComparaisonNft.Normale(observe)
  {
    LectureNft.AccepteeExacte(attendu);
    LectureNft.AccepteeExacte(observe);
    hide LectureNft.CaptureLisible, ComparaisonNft.Acceptee, ComparaisonNft.Normale;
  }
}
