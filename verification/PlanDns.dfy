/**
 The DNS plan of the product (crates/bifrost-core/src/plan_dns.rs:31-101) and the
 intention that designates it (crates/bifrost-cli/src/preuve_dns.rs:135-153).
 */
module PlanDns {
  import opened Commun

  datatype AdresseBrute = AdresseBrute(famille: Famille, octets: seq<u8>)
  type Adresse = a: AdresseBrute | |a.octets| == (if a.famille == Ipv4 then 4 else 16)
    witness AdresseBrute(Ipv4, [0, 0, 0, 0])

  datatype Backend = BackendResolved | BackendResolvConf

  datatype Politique = Politique(localResolver: Adresse, upstream: seq<Adresse>, embarque: bool)

  datatype Plan = Plan(interface: string, serveurs: seq<Adresse>)

  /** `serveurs_a_interroger`: an embedded resolver is asked alone, with no
      upstream to fall back on in clear. */
  function ServeursAInterroger(p: Politique): (r: seq<Adresse>)
    ensures p.embarque ==> forall a :: a in p.upstream && a != p.localResolver ==> a !in r
  {
    if p.embarque then [p.localResolver] else p.upstream
  }

  /** `PlanDns::nouveau`. */
  function Nouveau(interface: string, p: Politique): Plan { Plan(interface, ServeursAInterroger(p)) }

  datatype Intention = Intention(backend: Backend, plan: Plan, localResolver: Adresse, embarque: bool, resolveurUid: Option<u32>)
}
