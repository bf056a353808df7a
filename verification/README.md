# Bifrost: a verified model of its proofs and codecs

`bifrost-cli` proves, locally, that a host is in the state Bifrost installed: it reads rules, routes,
resolver scopes or an nft ruleset, compares them with the product's plan and answers MATCH, MISMATCH or
UNMEASURED. This project models those comparisons and adds what the code leaves to its comments: the
*lookup the system will perform*. A verdict is then proved against that lookup, for every packet, address
or name. It also models the protocols that make a measurement attributable (declaration, measurement,
declaration again; two equal reads), the strict readers of plans, and three decoders of `scripts/` and
`bifrost-amorce`.

Identifiers follow the source, which is written in French; comments are in English. `dafny verify
dfyconfig.toml` checks everything.

| files | subject |
|---|---|
| `Commun`, `Json`, `TriStable`, `Octets`, `PrefixesIp` | shared types, JSON values, stable sort, masks on bytes, prefixes on bits |
| `PlanLinux`, `RoutesLinux`, `EcartsLinux`, `MarcheLinux`, `FuitesLinux`, `PoseLinux`, `NoyauxLinux` | Linux plan, its comparison, what each difference says of the kernel's fields, the kernel's rule walk, soundness, what a report is worth, completeness, kernels of each kind |
| `RoutesWindows`, `EcartsWindows`, `ChoixWindows`, `PoseWindows` | Windows plan and comparison, what each difference says of the tables, the choice of a route, soundness, precision and completeness |
| `PlanDns`, `ResolvConf`, `Resolved`, `Canonique`, `Dns`, `EcartsDns`, `ChoixDns`, `PoseDns` | DNS plan, `/etc/resolv.conf`, server attribution, canonical form, comparison, what each difference says of the resolver, the choice of a scope, completeness |
| `Nft`, `ComparaisonNft`, `LectureNft`, `Netlink`, `Unique` | normal form of a capture, its comparison, which captures read field by field, the generation walker, the strict JSON reader |
| `Executions`, `Protocole`, `DoubleCollecte`, `Preuves` | runs of the daemon and the kernel, the declaration bracket, the double read, a whole proof by intention |
| `DemonDeclare`, `RoutageDeclare`, `PreuvesDeclarees` | routing and DNS declarations over a run, a declared plan read back, a whole proof by declaration |
| `Verdicts` | the verdicts of the four proofs, on the fields read |
| `Declarations`, `ValidateurLinux`, `ValidateurWindows`, `ValidateurDns`, `PlansDeclares` | two readers of one plan, what each accepts field by field |
| `Quic`, `Fragments`, `Reassemblage` | QUIC packets of a datagram, IP reassembly |
| `Base64`, `Lien`, `Moisson` | the share link, the choice among channels |

## What turned out to be conditional

These promises hold under a condition the code does not check. Each has the condition under which it holds,
as an if-and-only-if over all inputs unless said otherwise, and a failing input.

- The declaration of an installed policy is one the strict reader accepts exactly when the policy projects:
  the WFP engine may give no environment, and nothing is then joined (`Executions.PublieeCoherente`,
  `Executions.SansEnvironnement`).
- Two equal declarations fix the daemon between them exactly below `u64::MAX`, where `saturating_add` stops
  counting (`Executions.StableSiNonSature`, `Executions.SaturationTrompe`).
- Two equal 32-bit generations fix the ruleset between them exactly when fewer than 2^32 changes may lie
  there (`Executions.GenerationFiableSi`, `Executions.GenerationRevenue`).
- Of two equal reads of a system, one begun when the other ended: the state at the instant between them is the
  one read, whatever the two reads of the stretch, exactly where no part comes back to a value it has left
  (`DoubleCollecte.FidelesSansRetour`). For a state held at some instant of the reads the same condition is
  enough (`DoubleCollecte.DeuxLecturesEgales`), and `DoubleCollecte.RetourTrompe` shows that it cannot simply
  be dropped; it is not claimed to be needed.
- A route the Linux comparison reports as illegitimate need not be a way out. Every packet it carries is one
  the product accepts exactly when it emits to its destination and the networks of its interface, with
  multicast, cover its prefix (`FuitesLinux.FausseAlerte`, `FuitesLinux.RefuseeSansFuite`); reported on the
  tunnel's interface, none is (`FuitesLinux.AutreSurLeTunnel`). Some packet for the tunnel does leave by it
  before the tunnel's rule exactly when it is usable and its prefix is covered neither by those networks nor
  by the routes looked up first (`FuitesLinux.FuiteExacte`, `PoseLinux.IntruseExacte`).
- A DNS scope counted as an exception or a competing default route is asked for some name as much as the
  tunnel exactly when its link is active (`ChoixDns.ConcurrenteReelle`); the comparison also counts the
  scopes of inactive links (`PoseDns.InactiveComptee`).
- A Windows route counted as winning beats the plan on all of its prefix exactly when no destination of the
  plan lies strictly inside it (`ChoixWindows.GagnanteExacte`, `ChoixWindows.GagnanteBattue`).
- Reassembly waits for a byte count, not for coverage. What comes out of true fragments is the datagram
  exactly when every byte but zeros lies in a fragment still held (`Reassemblage.SortieExacte`); a partition
  always does (`Reassemblage.Reassemblee`), overlapping fragments may not (`Reassemblage.RecouvrementTrompe`).
- `est_chiffre` misses exactly the encrypted links with a blank inside their prefix
  (`Lien.EstChiffreExact`, `Lien.ChiffreNonReconnu`).
- The two readers of a routing plan disagree on the same values exactly when the path (or, under Windows, a
  family) is not a text and the intention with the text the deserialiser names in its place is accepted
  (`ValidateurLinux.DesaccordExact`, `ValidateurLinux.CheminParObjet`, `ValidateurWindows.DesaccordExact`,
  `ValidateurWindows.NonTexteAccepte`).

Where a comment and the code differ, the code is followed: the header of `preuve_dns.rs` asks for port 53 on
the tunnel's servers and the code also admits port 0, not specified.

## Model

| member | source | states |
|---|---|---|
| Octets.MasquesEgaux | crates/bifrost-cli/src/preuve_routes.rs:442-455 | two addresses masked byte by byte to a length are equal exactly when they agree on that many leading bits |
| Octets.MasqueEstUnDecalage | crates/bifrost-cli/src/preuve_routes.rs:449-452 | the table of byte masks is the source's shift |
| Octets.ExtremesDuReseau | crates/bifrost-cli/src/preuve_routes.rs:442-455 | the first and the last address of a network mask to that network |
| PlanLinux.OrdreWireGuard | crates/bifrost-core/src/routage.rs:282-410 | on the WireGuard path the rule that spares `main`'s default route is evaluated before the tunnel's rule, though installed after it, and each family has one default route |
| PlanLinux.OrdreCoeur | crates/bifrost-core/src/routage.rs:313-410 | on the core path evaluation follows the priorities: the core account's rule, then the LAN's, then the tunnel's |
| PlanLinux.PlanDuProduitBienForme | crates/bifrost-core/src/routage.rs:272-410 | every plan of the product has, in each family, an evaluation order with exactly one rule to its tunnel table and exactly one route there |
| RoutesLinux.DuProduit | crates/bifrost-cli/src/preuve_routes.rs:578-586 | the first expected rule a kernel rule is, with no earlier one |
| RoutesLinux.Juger | crates/bifrost-cli/src/preuve_routes.rs:519-544 | every route the lookup lets through is counted once, under its class, and no other |
| RoutesLinux.PlacerRegles | crates/bifrost-cli/src/preuve_routes.rs:577-603 | no difference exactly when each expected rule is found at one place, and the places are in the plan's order |
| RoutesLinux.RecenserAvant | crates/bifrost-cli/src/preuve_routes.rs:645-664 | third-party rules before the anchor are counted exactly, and the tables consulted before it are exactly those listed |
| RoutesLinux.ExaminerAvant | crates/bifrost-cli/src/preuve_routes.rs:645-680 | after sort and dedup, an illegitimate route is counted exactly when some rule before the anchor exposes one |
| RoutesLinux.ComparerAvant | crates/bifrost-cli/src/preuve_routes.rs:637-680 | refused exactly for a plan without a rule to its tunnel; otherwise both categories mean what precedes the first such rule, and nothing without it |
| RoutesLinux.ComparerTable | crates/bifrost-cli/src/preuve_routes.rs:605-635 | the tunnel table conforms exactly when it has the plan's number of routes, all usable defaults onto the tunnel |
| RoutesLinux.ComparerFamille | crates/bifrost-cli/src/preuve_routes.rs:547-682 | each category of difference is appended exactly when what it stands for holds, in report order |
| RoutesLinux.Comparer | crates/bifrost-cli/src/preuve_routes.rs:693-716 | both families, IPv4 first, or an error exactly when one is not comparable |
| EcartsLinux.ReglesExactes | crates/bifrost-cli/src/preuve_routes.rs:344-364 | the product-rules difference is absent exactly when each rule `ip` leaves for the plan (table, mark, accounts, priority, suppression and, in daemon mode, label written out for both paths) is there once, in order |
| EcartsLinux.EtiquetteDeRegle | crates/bifrost-cli/src/preuve_routes/recettes.rs:378-432 | in daemon mode a rule of the plan that only bears another originator is a product-rules difference |
| EcartsLinux.TableExacte | crates/bifrost-cli/src/preuve_routes.rs:605-635 | the tunnel-table difference is absent exactly when that table is one route: default, usable, by the tunnel alone, labelled in daemon mode, every field written out |
| EcartsLinux.EtiquetteDeRoute | crates/bifrost-cli/src/preuve_routes/recettes.rs:425-450 | in daemon mode a tunnel route that only bears another originator is a tunnel-table difference |
| EcartsLinux.TiersExacts | crates/bifrost-cli/src/preuve_routes.rs:645-664 | the rules-before difference is there exactly when, before the tunnel's rule, a rule that is none of the plan's jumps or leads to a table other than `local` and the tunnel's |
| EcartsLinux.AdmiseEst | crates/bifrost-cli/src/preuve_routes.rs:464-517 | the admitted routes, by kind, on their fields and on address bits |
| EcartsLinux.ClasseParGenre | crates/bifrost-cli/src/preuve_routes.rs:467-517 | a refusal, a throw, a delivery to the host and a tunnel's route are classed by kind: 6 to 8, 9, 2, and 1 or 3 to 5 on the tunnel |
| EcartsLinux.RoutesExactes | crates/bifrost-cli/src/preuve_routes.rs:645-680 | the routes-before difference is there exactly when a rule before the tunnel's looks up a route of no admitted kind |
| EcartsLinux.CorrespondanceExacte | crates/bifrost-cli/src/preuve_routes.rs:547-716 | no difference exactly when, in both families, the plan's rules are there once and in order, its route alone in its table, and before the tunnel's rule nothing leads elsewhere and only admitted routes are looked up |
| EcartsLinux.EnOrdre | crates/bifrost-cli/src/preuve_routes.rs:370-388 | the report names each difference once, IPv4 first, in the source's order |
| MarcheLinux.ConnecteeDansLeReseau | crates/bifrost-cli/src/preuve_routes.rs:467-511 | every destination a connected route can match lies in the network of an address held by that route's own interface |
| MarcheLinux.HoteDansLeReseau | crates/bifrost-cli/src/preuve_routes.rs:467-511 | the same for a broadcast or anycast host route |
| MarcheLinux.MulticastSurLeLien | crates/bifrost-cli/src/preuve_routes.rs:457-462 | a route classed multicast only carries multicast destinations, in both families |
| MarcheLinux.ClasseAdmiseLegitime | crates/bifrost-cli/src/preuve_routes.rs:464-517 | every admitted class emits on the tunnel, to the host, into a network of its interface, or multicast |
| MarcheLinux.RegleAvant | crates/bifrost-cli/src/preuve_routes.rs:637-680 | a rule before the tunnel's, in a comparison without difference, passes the packet on or decides it safely, whatever route its table picks |
| MarcheLinux.RegleDuTunnel | crates/bifrost-cli/src/preuve_routes.rs:605-645 | the tunnel's rule always decides, by a route onto the tunnel |
| MarcheLinux.MarcheSure | crates/bifrost-cli/src/preuve_routes.rs:547-682 | by induction on the walk: it stops at or before the anchor on a safe outcome |
| MarcheLinux.SansEcartFamille | crates/bifrost-cli/src/preuve_routes.rs:547-682 | soundness of one family for any plan whose rules can be ordered and that has a rule to its tunnel table, whatever its other rules, for every packet the first such rule takes and no rule before it but the LAN's |
| MarcheLinux.CorrespondanceSure | crates/bifrost-cli/src/preuve_routes.rs:547-716 | MATCH for a product's plan: every packet the plan sends to the tunnel is refused or leaves by the tunnel or an admitted class, at or before the tunnel's rule, for every kernel choice and every third-party selector |
| MarcheLinux.PaquetsDuTunnel | crates/bifrost-core/src/routage.rs:282-347 | those packets are all but the marked ones (WireGuard) or all but the core account's (core) |
| MarcheLinux.AutreSort | crates/bifrost-cli/src/preuve_routes.rs:661-675 | whatever the kernel, as long as it takes a longest prefix: a packet the rules before let past leaves by an exposed illegitimate route exactly when the rule takes that route and does not suppress its interface group |
| MarcheLinux.AutreVraimentChoisie | crates/bifrost-cli/src/preuve_routes.rs:519-544 | for every packet the rules before let past and no longer usable route of the table covers, a longest-prefix kernel emits it by the reported route, the walk starting at rule 0 |
| FuitesLinux.SansFuiteExacte | crates/bifrost-cli/src/preuve_routes.rs:464-517 | for any route: every packet it carries leaves by an accepted emission exactly when its next hop is read and it emits on the tunnel or to the host, or to its destination with its prefix covered by the networks of its interface and multicast; the cover is computed by halving the prefix |
| FuitesLinux.AdmiseSansFuite | crates/bifrost-cli/src/preuve_routes.rs:464-517 | every route of an admitted class that decides by emission is one of those |
| FuitesLinux.FausseAlerte | crates/bifrost-cli/src/preuve_routes.rs:489-517 | for a route the classifier does not admit: all its packets are accepted exactly when it emits to its destination and those networks cover its prefix |
| FuitesLinux.AutreSurLeTunnel | crates/bifrost-cli/src/preuve_routes.rs:467-517 | such a route on the tunnel's interface has several next hops, a next-hop object or an encapsulation, and none of its packets is accepted |
| FuitesLinux.RefuseeSansFuite | crates/bifrost-cli/src/preuve_routes.rs:489-500 | one false alarm: a route of its own towards a part of the link's network, by the condition above |
| FuitesLinux.FuiteExacte | crates/bifrost-cli/src/preuve_routes.rs:637-680 | for a mark and an account: some packet leaves by the reported route, at its rule, by an emission the product refuses and under a longest-prefix kernel, exactly when the route is usable, off the tunnel and the host, and its prefix is covered neither by the networks it may emit towards nor by the prefixes of the tables looked up before and of longer routes |
| PoseLinux.AdmiseDAdresse | crates/bifrost-cli/src/preuve_routes.rs:464-517 | every route the kernel installs for an address (local, connected, broadcast, anycast, multicast on the link) is of an admitted class |
| PoseLinux.PlanPose | crates/bifrost-cli/src/preuve_routes/recettes.rs:111-300 | completeness: on a kernel described by what it holds (its stock rules, the routes of its addresses, any default routes of `main`, any other tables, the plan's rules in order and its route), the proof of a product's plan matches, with the product's tag required or not |
| PoseLinux.PoseSure | crates/bifrost-cli/src/preuve_routes.rs:547-716 | on such a kernel every packet the plan sends to the tunnel is refused or leaves by an emission the product accepts |
| PoseLinux.IntruseSort | crates/bifrost-cli/src/preuve_routes/recettes.rs:683-722 | the plan's rules in place and one unadmitted route in `main`: for every packet for the tunnel that the local table does not take and no better route of `main` covers, a longest-prefix kernel emits it by that route before the tunnel's rule, and the comparison reports the routes before the tunnel |
| PoseLinux.IntruseExacte | crates/bifrost-cli/src/preuve_routes/recettes.rs:683-722 | behind the kernel's own first rule: for any mark and account sent to the tunnel, some packet leaves by the added route by an emission the product refuses exactly when the route is usable, off the tunnel and the host, and neither the networks it may emit towards nor the local and longer prefixes cover its own; it is reported in every case |
| NoyauxLinux.PoseExiste | crates/bifrost-cli/src/preuve_routes/recettes.rs:24-203 | for any plan of the product and any addresses of its link, a kernel the plan is posed on in both families |
| NoyauxLinux.IntruseExiste | crates/bifrost-cli/src/preuve_routes/recettes.rs:683-722 | and one with a route added through a gateway of the link, to any one host |
| PrefixesIp.MasquesEgaux | crates/bifrost-core/src/routage_windows.rs:315-340 | masking to a length is agreement on that many leading bits |
| PrefixesIp.ContientEstInclusion | crates/bifrost-core/src/routage_windows.rs:344-351 | `contient` is inclusion of the address sets (RFC 4632, section 3.1) |
| PrefixesIp.AdresseHors | crates/bifrost-core/src/routage_windows.rs:344-351 | when `contient` says no, an address of the inner prefix is outside the outer one |
| PrefixesIp.DiffusionEstLaDerniere | crates/bifrost-cli/src/preuve_routes_windows.rs:394-408 | a directed broadcast is in its prefix, and is the only address of it whose host bits are all one |
| PrefixesIp.DiffusionAbsente | crates/bifrost-cli/src/preuve_routes_windows.rs:394-408 | a prefix has one exactly when it is IPv4, leaves out some address, and holds addresses besides its first and its last |
| RoutesWindows.ChercherLePlan | crates/bifrost-cli/src/preuve_routes_windows.rs:500-522 | the absent destinations and the different metrics of the plan, found exactly |
| RoutesWindows.JugerLeTunnel | crates/bifrost-cli/src/preuve_routes_windows.rs:530-554 | routes of the tunnel that are neither the plan's nor admitted are counted exactly |
| RoutesWindows.JugerLesAutres | crates/bifrost-cli/src/preuve_routes_windows.rs:555-600 | routes of other interfaces are counted winning or tied exactly when some route of an unadmitted class wins or ties against the plan |
| RoutesWindows.ComparerFamille | crates/bifrost-cli/src/preuve_routes_windows.rs:461-605 | each category of difference of a family is reported exactly when it holds, in order |
| RoutesWindows.Conclure | crates/bifrost-cli/src/preuve_routes_windows.rs:728-751 | a difference gives MISMATCH, an undecided tie alone gives UNMEASURED, neither gives MATCH |
| EcartsWindows.AdmiseEst | crates/bifrost-cli/src/preuve_routes_windows.rs:410-446 | the admitted routes, by kind, on their fields and on address bits |
| EcartsWindows.EcartsExacts | crates/bifrost-cli/src/preuve_routes_windows.rs:461-605 | each difference of a family exactly when its sentence holds of the tables: a plan route that is not there, one under another metric, a captured line not at zero or automatic, a route too many, a route of another interface that beats the plan's longest (both metric sums written out); and ties exactly |
| EcartsWindows.VerdictExact | crates/bifrost-cli/src/preuve_routes_windows.rs:639-751 | nothing to report exactly when the tunnel is there, every plan route is found under its metric, captured lines are imposed, nothing is too many and no other route beats or ties; differences come in order |
| EcartsWindows.PlanWireGuardEst | crates/bifrost-core/src/routage_windows.rs:150-234 | the WireGuard plan routes exactly the networks of the allowed prefixes, metric zero, and captures the served families with a default route |
| EcartsWindows.PlanCoeurEst | crates/bifrost-core/src/routage_windows.rs:150-234 | the core plan routes and captures exactly the default of each served family |
| ChoixWindows.ChoisieGagneOuEgale | crates/bifrost-cli/src/preuve_routes_windows.rs:555-600 | a route of another interface that can be chosen for an address of the plan wins or ties in the comparison |
| ChoixWindows.CorrespondanceSure | crates/bifrost-cli/src/preuve_routes_windows.rs:461-751 | MATCH: for every address the plan covers, every route that longest prefix then smallest metric sum can choose is the plan's or of an admitted class, unread metrics being anything |
| ChoixWindows.AdmiseLegitime | crates/bifrost-cli/src/preuve_routes_windows.rs:410-446 | an admitted class only carries the host's own addresses, a network of its interface, multicast or the limited broadcast |
| ChoixWindows.GagnanteGagneVraiment | crates/bifrost-cli/src/preuve_routes_windows.rs:561-600 | precision: with no plan destination strictly inside its prefix and both metrics read, a winning route beats every plan route for every address of its prefix |
| ChoixWindows.GagnanteExacte | crates/bifrost-cli/src/preuve_routes_windows.rs:561-600 | a route counted as winning beats every plan route on every address of its prefix exactly when no destination of the plan lies strictly inside it |
| ChoixWindows.GagnanteBattue | crates/bifrost-cli/src/preuve_routes_windows.rs:561-600 | for any destination of the plan strictly inside a route's prefix, its first address is one for which that route is never chosen, whatever the metrics |
| ChoixWindows.GagnanteBattueParUnPlusLong | crates/bifrost-cli/src/preuve_routes_windows.rs:561-600 | a table where that happens to a route counted as winning |
| ChoixWindows.PlansMasques | crates/bifrost-core/src/routage_windows.rs:150-234 | the destinations of every plan the product builds are masked |
| ChoixWindows.AdressesCouvertes | crates/bifrost-core/src/routage_windows.rs:150-234 | the core path covers every address of its families; the WireGuard path exactly the allowed prefixes |
| PoseWindows.AdmiseDAdresse | crates/bifrost-cli/src/preuve_routes_windows.rs:410-446 | every route Windows installs for an address (itself, its network, the network's broadcast, multicast, the limited broadcast) is of an admitted class |
| PoseWindows.PlanPose | crates/bifrost-cli/src/preuve_routes_windows.rs:461-751 | completeness: tables described by what they hold (the plan's routes and their broadcasts on the tunnel, its lines, the routes of every address, the loopback's, other interfaces' default routes of a positive metric) match |
| PoseWindows.PoseSure | crates/bifrost-cli/src/preuve_routes_windows.rs:461-751 | on such tables every route that can be chosen for an address the plan covers is an admitted choice |
| PoseWindows.PoseExiste | crates/bifrost-core/src/routage_windows.rs:150-234 | for any plan of the product and any tunnel, such tables |
| ResolvConf.FichierRelu | crates/bifrost-core/src/plan_dns.rs:62-69 | the servers glibc reads in the file the product writes are the plan's, in order |
| ResolvConf.ServeurExact | crates/bifrost-cli/src/preuve_dns.rs:337-355 | a line names a server exactly when it is the keyword in column 0, at least one space or tab, the longest word without either, then the end or one of them |
| ResolvConf.LigneParLigne | crates/bifrost-cli/src/preuve_dns.rs:337-355 | any file: its first line gives its server, if it names one, before those of the rest |
| ResolvConf.LignesEcrites | crates/bifrost-core/src/plan_dns.rs:61-68 | the product writes one line for each server, in order |
| Resolved.SoustraireMultiset | crates/bifrost-cli/src/preuve_dns.rs:441-463 | removing the servers one by one is multiset subtraction |
| Resolved.Retirer | crates/bifrost-cli/src/preuve_dns.rs:448-460 | emptying the first matching slot removes the first occurrence, and fails exactly when there is none |
| Resolved.Attribuer | crates/bifrost-cli/src/preuve_dns.rs:417-474 | succeeds exactly when every link index fits in an i32 and the links' servers, under their emission index, are a sub-multiset of the Manager's; the result is the rest under 0, then each link's |
| Resolved.AttributionGardeLeCompte | crates/bifrost-cli/src/preuve_dns.rs:429-474 | no server is lost or invented |
| Resolved.AttributionParLien | crates/bifrost-cli/src/preuve_dns.rs:429-474 | each link gets exactly its own servers, in its own order |
| Resolved.AttributionSansOrdre | crates/bifrost-cli/src/preuve_dns.rs:406-408 | neither the success nor the attributed multiset depends on the order of the Manager's list or of the links |
| Resolved.EmissionExacte | crates/bifrost-cli/src/preuve_dns.rs:420-440 | a link's server is listed under interface 1 when it is of 127.0.0.0/8 or ::1, under its link otherwise, and comes back to the link |
| Resolved.AttributionInverse | crates/bifrost-cli/src/preuve_dns.rs:429-440 | when the Manager lists the global servers and every link's, each comes back to the scope it was configured on |
| TriStable.TrierStable | crates/bifrost-cli/src/preuve_dns.rs:409-413 | `sort_by_key` keeps the subsequence of every key |
| TriStable.EgauxApresTri | crates/bifrost-cli/src/preuve_dns.rs:405-415 | two lists sort to the same one exactly when every key carries the same subsequence in both |
| Canonique.FormeCanonique | crates/bifrost-cli/src/preuve_dns.rs:405-415 | two readings normalise equal exactly when servers and domains agree index by index, in order, and links are the same set |
| Canonique.IndexRepete | crates/bifrost-cli/src/preuve_dns.rs:405-415 | distinct link indices are needed for that |
| Canonique.NormaliserGardeLesPortees | crates/bifrost-cli/src/preuve_dns.rs:405-474 | normalising changes neither the success nor the result of the attribution |
| Dns.JugerSources | crates/bifrost-cli/src/preuve_dns.rs:805-816 | a source is out exactly when one of the `hosts` line is, and mDNS modules are counted |
| Dns.JugerLesAutres | crates/bifrost-cli/src/preuve_dns.rs:900-931 | an exception or a competing default route is found exactly when another scope with a server bears such a domain |
| Dns.JugerResolved | crates/bifrost-cli/src/preuve_dns.rs:860-955 | the categories of the resolved backend, each exactly when present, in order |
| Dns.Garder | crates/bifrost-cli/src/preuve_dns.rs:824-866 | past the guards exactly when all of them hold, with the servers attributed |
| Dns.JugerEcouteur | crates/bifrost-cli/src/preuve_dns.rs:957-971 | the local resolver is reported exactly when nobody listens, or someone under another account |
| Dns.Comparer | crates/bifrost-cli/src/preuve_dns.rs:793-975 | unmeasured exactly when a guard fails; otherwise each category is reported exactly when present, once, in the order of `ORDRE` |
| EcartsDns.GardesExactes | crates/bifrost-cli/src/preuve_dns.rs:824-866 | the comparison is measured exactly when the resolver was read, no delegate, its stub listens under its account, every index is 0 or a link's, it judges the same file, and its servers agree with its links' |
| EcartsDns.EcartsExacts | crates/bifrost-cli/src/preuve_dns.rs:793-975 | every category exactly when its sentence holds of the resolver that runs: its links' own servers, address, family, port and name written out, its domains, its scopes' bits, its listeners, the sources of `hosts` |
| EcartsDns.ServeurDifferent | crates/bifrost-cli/src/preuve_dns.rs:779-789 | a tunnel link of which one server differs from the plan's in any field is a tunnel-link-servers difference |
| ChoixDns.PorteeServie | crates/bifrost-cli/src/preuve_dns.rs:860-903 | every scope with a server has one among the attributed servers, under its index |
| ChoixDns.ScoreRacine | crates/bifrost-cli/src/preuve_dns.rs:88-97 | with the root as only domain a served scope suits every name just enough to win against an admitted one |
| ChoixDns.CorrespondanceSure | crates/bifrost-cli/src/preuve_dns.rs:793-975 | no difference, resolved backend: for every name outside the named limits the tunnel's scope is the only one asked, its servers are the plan's in order (address, family, port, no name), and glibc asks the stub alone |
| ChoixDns.ConcurrenteReelle | crates/bifrost-cli/src/preuve_dns.rs:900-931 | precision: an exception or a competing route the comparison counts is asked for some name at least as much as the tunnel exactly when its scope is active |
| ChoixDns.MulticastReelle | crates/bifrost-cli/src/preuve_dns.rs:938-947 | an LLMNR scope takes single-label names from the tunnel |
| ChoixDns.FichierDuPlan | crates/bifrost-cli/src/preuve_dns.rs:818-823 | no difference, file backend: glibc reads exactly the plan's servers, in order |
| PoseDns.InactiveComptee | crates/bifrost-cli/src/preuve_dns.rs:900-931 | a resolver where a domain of an inactive link is counted, though no name is asked of its scope as much as of the tunnel |
| PoseDns.PlanPose | crates/bifrost-cli/src/preuve_dns.rs:672-975 | completeness: a resolver described by what it runs (global servers, links, domains) with the plan on the tunnel's link and no other scope with both a server and a domain is measured, with no difference |
| PoseDns.PoseSure | crates/bifrost-cli/src/preuve_dns.rs:88-106 | such a resolver asks the tunnel's scope alone, and the plan's servers in order, for every name outside the named limits |
| PoseDns.PoseExiste | crates/bifrost-cli/src/preuve_dns.rs:672-975 | for any intention of this backend, such a resolver |
| Nft.OccurrencesLues | crates/bifrost-cli/src/preuve_nft.rs:242-291 | how often an object occurs in the global order can be read off the three maps |
| Nft.CartesOuObjets | crates/bifrost-cli/src/preuve_nft.rs:374-393 | equal maps mean the same objects with each chain's rules in the same order, and conversely |
| ComparaisonNft.Capture.Ajouter | crates/bifrost-cli/src/preuve_nft.rs:242-291 | maps and global order grow together; refused exactly when the identity is taken |
| ComparaisonNft.Analyser | crates/bifrost-cli/src/preuve_nft.rs:177-310 | accepted exactly when every entry is readable, the schema entry comes first, no identity repeats and every parent exists; the capture is then the normal form |
| ComparaisonNft.Rapport.Reference | crates/bifrost-cli/src/preuve_nft.rs:362-372 | a reference is an accepted capture with a base chain |
| ComparaisonNft.Rapport.Confronter | crates/bifrost-cli/src/preuve_nft.rs:374-401 | the report holds exactly the differences of the two normal forms, and the verdict follows |
| ComparaisonNft.Rapport.Verifier | crates/bifrost-cli/src/preuve_nft.rs:425-435 | the offline comparison whole: which input failed, and otherwise MATCH exactly when the reference and the capture have one normal form |
| ComparaisonNft.CorrespondEgalite | crates/bifrost-cli/src/preuve_nft.rs:374-401 | MATCH exactly when the normalised object sequences are equal |
| ComparaisonNft.OrdreSeul | crates/bifrost-cli/src/preuve_nft.rs:390-393 | "object-order" alone exactly when the same objects, with equal per-chain rule lists, are interleaved differently |
| ComparaisonNft.Symetrique | crates/bifrost-cli/src/preuve_nft.rs:374-401 | exchanging the captures gives the same differences |
| ComparaisonNft.AveugleAuxHandles | crates/bifrost-cli/src/preuve_nft.rs:221-226 | handles never change what a readable capture says |
| ComparaisonNft.HandlesSeuls | crates/bifrost-cli/src/preuve_nft.rs:177-401 | two accepted captures that differ by their handles alone match |
| ComparaisonNft.EtatSeulIgnore | crates/bifrost-cli/src/preuve_nft/nommes.rs:306-361 | two instructions normalise equal exactly when they differ by counter values, quota consumption or last passage |
| ComparaisonNft.NormalesEgales | crates/bifrost-cli/src/preuve_nft.rs:205-291 | two objects normalise equal exactly when they differ by their handle and the state of their instructions |
| Unique.Lire | crates/bifrost-cli/src/preuve_nft.rs:120-165 | accepted exactly when no object repeats a key and no number is real, at any depth; the value is the one written |
| Unique.PropreExact | crates/bifrost-cli/src/preuve_nft.rs:114-165 | a text is accepted exactly when no part of it, at any depth, is a real number or an object that gives one key twice |
| Unique.EcritUnParUn | crates/bifrost-cli/src/preuve_nft.rs:114-165 | lists and objects are written one element and one entry at a time, in order and under their key |
| Unique.ValeurUnique | crates/bifrost-cli/src/preuve_nft.rs:120-165 | a text writes one value |
| Unique.OrdreIndifferent | crates/bifrost-cli/src/preuve_nft.rs:120-165 | the order of an object's entries does not change it |
| LectureNft.ObjetEst | crates/bifrost-cli/src/preuve_nft.rs:200-291 | an object is read exactly when its fields are these, both policies of a base chain written out, and it keeps them all but the handle and the state of its instructions |
| LectureNft.InstructionEst | crates/bifrost-cli/src/preuve_nft/nommes.rs:301-361 | an instruction is read exactly when it has one key and its counter, quota or last passage is a name or is whole |
| LectureNft.AccepteeExacte | crates/bifrost-cli/src/preuve_nft.rs:177-310 | a capture is accepted exactly when schema 1 comes first, every other entry is a table, a chain or a rule whose fields read, no identity repeats and every parent is there |
| LectureNft.ReferenceExacte | crates/bifrost-cli/src/preuve_nft.rs:364-372 | a capture is a reference exactly when one of its chains has a hook |
| LectureNft.RenduAccepte | crates/bifrost-firewall/src/politique_nft.rs:130-148 | the product's rendering (a table, three base chains of policy drop, any readable rules of them) is accepted, with base chains |
| LectureNft.EcartsExacts | crates/bifrost-cli/src/preuve_nft.rs:374-401 | tables, chains and rules are each reported exactly when they differ, the order exactly when nothing else does and the sequences differ |
| Netlink.CoupeExacte | crates/bifrost-cli/src/preuve_nft_linux.rs:71-94 | cutting a buffer into attributes is the exact inverse of writing padded attributes one after the other |
| Netlink.LireAttributs | crates/bifrost-cli/src/preuve_nft_linux.rs:69-94 | the walk stays in bounds, ends, and succeeds exactly when the buffer is attributes with one well-formed generation |
| Netlink.GenerationRecue | crates/bifrost-cli/src/preuve_nft_linux.rs:41-95 | accepts exactly a valid header followed by such attributes, returns the big-endian value, and says access is denied exactly on an error message of code EPERM or EACCES with known flags |
| Netlink.AccepteExacte | crates/bifrost-cli/src/preuve_nft_linux.rs:41-95 | which answers are accepted, in bytes: from the kernel, of its own length, type 2575, no flag, sequence 1, this port, then attributes of which one alone is the generation, four bytes big-endian |
| Netlink.MinimaleLue | crates/bifrost-cli/src/preuve_nft_linux.rs:41-95 | a minimal little-endian answer, written byte by byte, is read as its big-endian generation |
| Netlink.AllerRetour | crates/bifrost-cli/src/preuve_nft_linux.rs:41-95 | encoding then reading gives the generation back, and no other |
| Executions.PublieeCoherente | crates/bifrost-daemon/src/supervisor.rs:212-234 | in every state of every run, what the daemon publishes is what the strict reader accepts exactly when its instance is valid and, for an installed policy, the engine's projection gives one |
| Executions.InstanceEst | crates/bifrost-cli/src/declaration.rs:519-528 | an instance is 32 to 128 small hexadecimal digits |
| Executions.PublieExact | crates/bifrost-daemon/src/supervisor.rs:212-234 | the declaration says what the last call left, and joins a projection to an installed policy alone |
| Executions.SansEnvironnement | crates/bifrost-daemon/src/supervisor.rs:452-481 | a run where the WFP engine gives no environment: an installed policy is declared without a policy, and the reader refuses it |
| Executions.ExecutionSuite | crates/bifrost-daemon/src/supervisor.rs:182-234 | between two states of a run: the same life with a growing number, or an instance never used before |
| Executions.RunProlonge | crates/bifrost-daemon/src/supervisor.rs:205-211 | any run goes on with any call of the engine, counted up to saturation, and with any change of the ruleset |
| Executions.Redemarrage | crates/bifrost-daemon/src/supervisor.rs:182-234 | any run goes on with a restart under a new instance, and what is published then equals nothing published before it |
| Executions.DeclarationStable | crates/bifrost-cli/src/declaration.rs:605-628 | two equal declarations, below saturation, fix the daemon's state all the way between them |
| Executions.GenerationStable | crates/bifrost-cli/src/preuve_nft_linux.rs:173-186 | two equal generations with fewer than 2^32 changes between fix the ruleset all the way |
| Executions.StableSiNonSature | crates/bifrost-daemon/src/supervisor.rs:207-210 | for every declared state, equal declarations fix the daemon's state between them exactly when its number is below `u64::MAX` |
| Executions.SaturationTrompe | crates/bifrost-daemon/src/supervisor.rs:207-210 | from the daemon's start, for every engine and every state at `u64::MAX`: it leaves that state and comes back under equal declarations, and a ruleset held in between never was under the declared state |
| Executions.GenerationFiableSi | crates/bifrost-cli/src/preuve_nft_linux.rs:173-186 | equal generations with at most c changes between them fix the ruleset exactly when c is below 2^32 |
| Executions.GenerationRevenue | crates/bifrost-cli/src/preuve_nft_linux.rs:173-186 | 2^32 changes under an unchanged declaration that a reader accepts bring the generation back and let a capture pass that no ruleset ever was |
| Protocole.Monde.Dump | crates/bifrost-cli/src/preuve_nft_linux.rs:130-171 | on a kernel that does not move, a dump taken rule by rule is the ruleset exactly when it fits the limit, and is refused otherwise |
| Protocole.Monde.Collecter | crates/bifrost-cli/src/preuve_nft_linux.rs:173-200 | a successful generation bracket means the kernel held the captured ruleset at an instant of it; on a still kernel without a failed read it succeeds exactly within the limit |
| Protocole.Monde.PolitiquePosee | crates/bifrost-cli/src/declaration.rs:542-560 | there is a policy to compare exactly when an applied declaration of the expected engine has one, and it is that one |
| Protocole.Monde.Encadrer | crates/bifrost-cli/src/declaration.rs:605-664 | over any interleaving of applications, withdrawals, failures, restarts and kernel changes: a success means one instant had the captured ruleset under the declared state; it is one exactly when the three reads are there and the declarations agree; the missing input and the identity follow from them; on a still run without a failed read it succeeds exactly for an installed policy of the engine within the limit |
| DoubleCollecte.DeuxLecturesEgales | crates/bifrost-cli/src/preuve_routes.rs:220-236 | two equal multi-part reads, no part returning to a value it left: the state between them is exactly the one observed |
| DoubleCollecte.FidelesSansRetour | crates/bifrost-cli/src/preuve_routes.rs:220-236 | any two equal reads of a stretch, one begun when the other ended, give the state between them exactly when no part comes back to a value it has left |
| DoubleCollecte.RetourTrompe | crates/bifrost-cli/src/preuve_dns.rs:496-509 | changes that undo themselves make two equal reads of a state that never was |
| DoubleCollecte.Systeme.Encadrer | crates/bifrost-cli/src/preuve_routes_windows.rs:112-127 | unreadable exactly when a read failed; the state of a still system; of a moving one, a state of one instant unless a change undoes itself; "unstable" of a system that moved |
| Preuves.ProuverLinux | crates/bifrost-cli/src/preuve_routes.rs:802-841 | an intention that does not read touches nothing of the system; otherwise the verdict is exactly the one on what the two reads gave: UNMEASURED without an observation, MATCH without a difference, and then sound for every packet the plan sends to the tunnel, MISMATCH with one |
| Preuves.ProuverWindows | crates/bifrost-cli/src/preuve_routes_windows.rs:757-781 | the same of the Windows tables and every address the plan covers |
| Preuves.ProuverDns | crates/bifrost-cli/src/preuve_dns.rs:1073-1116 | the same of the resolver, and of the plan's file for the file backend |
| Preuves.VerdictImmobile | crates/bifrost-cli/src/preuve_routes.rs:220-236 | on a still system whose reads succeed, what is judged is what it holds |
| Preuves.VerdictDUnInstant | crates/bifrost-cli/src/preuve_routes.rs:220-236 | on any system where no change undoes itself, what is judged is what it held at one instant of the reads |
| Preuves.PoseProuvee | crates/bifrost-cli/src/preuve_routes/recettes.rs:111-300 | a plan of the product posed on the kernel read gives MATCH |
| Preuves.PoseWindowsProuvee | crates/bifrost-cli/src/preuve_routes_windows.rs:728-751 | the same of posed Windows tables |
| Preuves.PoseDnsProuvee | crates/bifrost-cli/src/preuve_dns.rs:1073-1116 | the same of a resolver with the plan posed |
| Verdicts.Linux | crates/bifrost-cli/src/preuve_routes.rs:802-841 | the Linux verdict on any kernel read: MATCH exactly when both families conform, field by field, MISMATCH otherwise |
| Verdicts.Windows | crates/bifrost-cli/src/preuve_routes_windows.rs:728-751 | the Windows verdict on any tables read: MISMATCH exactly without the tunnel or when a family differs, MATCH exactly when both conform |
| Verdicts.DesNoms | crates/bifrost-cli/src/preuve_dns.rs:1073-1116 | the DNS verdict: past the guards, MATCH exactly when no category's sentence holds |
| Verdicts.Nft | crates/bifrost-cli/src/preuve_nft.rs:374-401 | the nft verdict: measured exactly when both captures read field by field, MATCH exactly when their normal forms are equal |
| DemonDeclare.PublieExact | crates/bifrost-daemon/src/supervisor.rs:273-310 | the declaration, key by key, in each of the four outcomes |
| DemonDeclare.RunProlonge | crates/bifrost-daemon/src/supervisor.rs:262-266 | any run goes on with any mounting or dismounting, counted up to saturation, with a restart under a new instance or none, and with any change of the system |
| DemonDeclare.DeclarationStable | crates/bifrost-daemon/src/supervisor.rs:234-300 | over any run, two equal routing or DNS declarations with an instance, below saturation, fix the daemon's state all the way between them |
| DemonDeclare.Monde.Encadrer | crates/bifrost-cli/src/declaration.rs:605-664 | declaration, two reads, declaration again: a success means one instant had the state read while the daemon declared the plan returned; on a still run without a failed read it is one exactly when the declaration gives a plan |
| RoutageDeclare.DeclareeRelue | crates/bifrost-daemon/src/supervisor.rs:432-455 | what the daemon publishes of its routing is read as a plan exactly when one is posed, numbered and within the perimeter, and then it is the plan posed |
| PreuvesDeclarees.ProuverLinux | crates/bifrost-cli/src/preuve_routes.rs:974-1035 | the verdict by declaration is exactly the one, label required, on the plan and the state the bracket gave, none without them; at one instant the daemon had posed that very plan while the kernel was in that state; on a still run without a failed read the bracket gives the plan declared |
| PreuvesDeclarees.ProuverWindows | crates/bifrost-cli/src/preuve_routes_windows.rs:827-868 | the same of the Windows tables, at an instant when the daemon's declaration reads as this plan |
| PreuvesDeclarees.ProuverDns | crates/bifrost-cli/src/preuve_dns.rs:1227-1290 | the same of the resolver, at an instant when the daemon's declaration reads as this intention |
| PreuvesDeclarees.ProuverNft | crates/bifrost-cli/src/preuve_nft.rs:553-603 | the verdict is exactly the one on the declared policy's reference and the capture, none without them; one instant had that ruleset in the kernel while the daemon declared that policy; on a still run without a failed read the bracket gives both |
| ValidateurLinux.UnSeulPlan | crates/bifrost-cli/src/preuve_routes.rs:269-316 | a posed declaration is read as the intention of the same values whose path is the text the deserialiser names: both refuse, or both give the same plan |
| ValidateurLinux.DesaccordExact | crates/bifrost-cli/src/declaration.rs:323-371 | on the same values the two readers disagree exactly when the path is not a text, the deserialiser names one of the two paths by it, and the intention with that text is accepted; the intention is then the one that refuses |
| ValidateurLinux.CheminParObjet | crates/bifrost-cli/src/declaration.rs:323-371 | a path written as an object: the intention refuses, the declaration gives a plan |
| ValidateurWindows.DestinationsPareilles | crates/bifrost-cli/src/declaration.rs:405-418 | checking the writing of every destination then typing the list is reading canonical destinations one by one |
| ValidateurWindows.UnSeulPlan | crates/bifrost-cli/src/preuve_routes_windows.rs:166-290 | a posed declaration is read as the intention of the same values whose path and families are the texts the deserialiser names: both refuse, or both give the same plan |
| ValidateurWindows.DesaccordExact | crates/bifrost-cli/src/declaration.rs:390-443 | on the same values the two readers disagree exactly when the path or a family is not a text and the intention with the named texts is accepted; the intention is then the one that refuses |
| ValidateurWindows.NonTexteAccepte | crates/bifrost-cli/src/declaration.rs:390-443 | the path or a family written as an object: the intention refuses, the declaration gives a plan |
| ValidateurDns.AmontsEgaux | crates/bifrost-cli/src/preuve_dns.rs:226-240 | refusing a repeated upstream while reading is refusing a list with a repetition afterwards |
| ValidateurDns.UnSeulPlan | crates/bifrost-cli/src/preuve_dns.rs:1161-1213 | both readers refuse, or both give the same DNS intention, though they spell the file backend differently |
| PlansDeclares.NomEcrit | crates/bifrost-cli/src/preuve_dns.rs:189-195 | an interface name is one to fifteen ASCII letters, digits, hyphens or underscores, by their codes |
| PlansDeclares.PoseeEst | crates/bifrost-cli/src/declaration.rs:335-371 | the header of a declaration that a plan is installed, key by key |
| PlansDeclares.IntentionLinux | crates/bifrost-cli/src/preuve_routes.rs:269-316 | an intention gives a plan exactly when its six fields are those of that plan: mark and table of a WireGuard path, reserved tables and zero mark excluded, or an account that is not root's |
| PlansDeclares.DeclarationLinux | crates/bifrost-cli/src/preuve_routes.rs:887-931 | the same of a posed declaration |
| PlansDeclares.IntentionWindows | crates/bifrost-cli/src/preuve_routes_windows.rs:166-256 | an intention gives a plan exactly when its seven fields are: MTU 576 to 9000, families in order, destinations written canonically, masked and distinct, or none for the core |
| PlansDeclares.DeclarationWindows | crates/bifrost-cli/src/declaration.rs:390-443 | the same of a posed declaration |
| PlansDeclares.IntentionDns | crates/bifrost-cli/src/preuve_dns.rs:206-274 | a DNS intention is read exactly when its seven fields are: one to sixteen distinct canonical upstreams, a loopback resolver, an account only with an embedded resolver, which is then the one server asked |
| PlansDeclares.DeclarationDns | crates/bifrost-cli/src/preuve_dns.rs:1161-1213 | the same of a posed declaration |
| Quic.LireVarint | scripts/quic-chronologie.py:69-75 | the loop reads the integer, or stops where the bytes run out |
| Quic.ExemplesDuRfc | scripts/quic-chronologie.py:69-75 | the examples of appendix A.1 of RFC 9000 |
| Quic.VarintEcrit | scripts/quic-chronologie.py:69-75 | decoding any encoding of a value gives it back (section 16 of RFC 9000) |
| Quic.VarintLu | scripts/quic-chronologie.py:69-75 | what is decoded re-encodes to the same bytes |
| Quic.PaquetsCoalesces | scripts/quic-chronologie.py:78-110 | the walk ends on every datagram and names what the grammar step by step says |
| Quic.EtapeExacte | scripts/quic-chronologie.py:86-110 | what one turn names, whatever the bytes: by the bits of the first byte, the version, and where the identifiers and the integers end |
| Quic.LongLu | scripts/quic-chronologie.py:91-107 | a well-formed long-header packet, wherever it stands, is named with its exact length (section 17.2 of RFC 9000) |
| Quic.CoalescesNommes | scripts/quic-chronologie.py:78-110 | on a concatenation of long packets and an optional short one, exactly those are named and their lengths sum to the datagram (section 12.2 of RFC 9000) |
| Quic.SommeQuelconque | scripts/quic-chronologie.py:78-110 | on any bytes, lengths never fall short of the datagram up to its version negotiation, if it names one, and exceed that exactly when a packet claims more than is left |
| Quic.NegociationDerniere | scripts/quic-chronologie.py:78-110 | the walk stops short of the end exactly when it names a version negotiation, and names long packets alone before its last |
| Fragments.LireTrame | scripts/quic-chronologie.py:125-145 | the source raises exactly on an IPv4 packet shorter than 10 bytes, or UDP and shorter than 16 |
| Fragments.TrameRelue | scripts/quic-chronologie.py:125-136 | reading a written IPv4 packet gives back its identification, offset in bytes, flags and payload (section 3.1 of RFC 791) |
| Fragments.Lecteur.Recevoir | scripts/quic-chronologie.py:143-174 | the dictionary and the lines after one packet, or a refusal exactly when the source raises on a negative length |
| Reassemblage.LongueurAtteinte | scripts/quic-chronologie.py:158-158 | received bytes reach the datagram's length exactly when no piece of the partition is missing |
| Reassemblage.AssemblerExtraits | scripts/quic-chronologie.py:159-161 | extracts of a datagram laid in any order give its byte wherever one lies, a zero everywhere else |
| Reassemblage.AssembleExact | scripts/quic-chronologie.py:159-161 | extracts give the datagram back exactly when each byte of it is covered or is zero |
| Reassemblage.RienNeSort | scripts/quic-chronologie.py:150-158 | true fragments, cut anywhere: while none that ends the datagram came or too few bytes are held, nothing comes out and what is held is the last fragment at each offset |
| Reassemblage.SortieExacte | scripts/quic-chronologie.py:113-176 | with the packet that first brings enough bytes exactly one datagram comes out, the key is free again, and the bytes are the original's exactly when every byte but zeros lies in a fragment still held |
| Reassemblage.EnAttente | scripts/quic-chronologie.py:153-158 | while a piece is missing nothing comes out for its key, through duplicates and other keys |
| Reassemblage.Reassemblee | scripts/quic-chronologie.py:113-176 | with the last missing piece exactly one datagram comes out, its bytes are the original's, and the key is free again (section 3.2 of RFC 791) |
| Reassemblage.RecouvrementTrompe | scripts/quic-chronologie.py:158-161 | for any datagram and any hole of this shape, three true fragments, two of which overlap, complete it early; what comes out is the datagram exactly when the hole held zeros |
| Base64.AlphabetEcrit | crates/bifrost-amorce/src/colle.rs:309-321 | the alphabet in ASCII: capitals, small letters, digits, `-` and `_` (section 5 of RFC 4648) |
| Base64.VecteursDuRfc | crates/bifrost-amorce/src/colle.rs:309-321 | the vectors of section 10 of RFC 4648, unpadded |
| Base64.DecoderEncoder | crates/bifrost-amorce/src/colle.rs:309-321 | decoding inverts encoding (section 5 of RFC 4648, unpadded) |
| Base64.EncoderDecoder | crates/bifrost-amorce/src/colle.rs:309-321 | a text decodes to some bytes exactly when it is their encoding |
| Lien.LireEcrire | crates/bifrost-amorce/src/colle.rs:227-270 | reading a written link, blanks inserted anywhere and any phrase given, returns profile and signature exactly when both fit the cap |
| Lien.LireEcrireChiffre | crates/bifrost-amorce/src/colle.rs:227-245 | the same through encryption, with exactly one decryption |
| Lien.BlancEst | crates/bifrost-amorce/src/colle.rs:227-233 | the blanks removed, by their code: tab, line feed, carriage return, space and the other separators |
| Lien.LireExact | crates/bifrost-amorce/src/colle.rs:227-270 | a text reads as a profile and a signature exactly when, blanks removed, it is their clear link within the cap of 65536, or, with a phrase, an encrypted link that opens to one |
| Lien.UnDechiffrement | crates/bifrost-amorce/src/colle.rs:234-245 | one decryption at most, only with a phrase and an encrypted prefix |
| Lien.PasDePoupee | crates/bifrost-amorce/src/colle.rs:239-244 | an encrypted link inside an encrypted link is refused unopened |
| Lien.EstChiffreExact | crates/bifrost-amorce/src/colle.rs:222-224 | a link is recognised as encrypted exactly when it is and no blank stands in its prefix |
| Lien.ReconnuDemandeLaPhrase | crates/bifrost-amorce/src/colle.rs:216-238 | a recognised link is one that is refused without a phrase, with nothing decrypted |
| Lien.ChiffreNonReconnu | crates/bifrost-amorce/src/colle.rs:222-224 | an encrypted link that is not recognised, and still refused without a phrase |
| Lien.VersionNommee | crates/bifrost-amorce/src/colle.rs:276-280 | the version a refusal names is what precedes the first dot after "bifrost" |
| Moisson.Recuperer | crates/bifrost-amorce/src/lib.rs:158-186 | keeps the first authentic channel of the highest series, none being the lowest, and reports every channel |
| Moisson.JournalExact | crates/bifrost-amorce/src/lib.rs:161-206 | what is said of each channel: silent, suspect or authentic, under its name cut at a hundred characters |
| Moisson.InsertionSansEffet | crates/bifrost-amorce/src/lib.rs:158-186 | a mute or suspect channel inserted anywhere never changes what is kept |
| Moisson.SansEffet | crates/bifrost-amorce/src/lib.rs:158-186 | what is kept depends on the authentic channels alone |
| Moisson.SerieSansOrdre | crates/bifrost-amorce/src/lib.rs:154-157 | permuting the channels never changes the series kept |
| Moisson.SansSerie | crates/bifrost-amorce/src/lib.rs:215-221 | a channel without a series never displaces one that has one |

## Left out

- Sockets, D-Bus, rtnetlink, files, processes, clocks and timeouts: their results are inputs, and every read of the protocols may fail.
- What the kernel decides beyond the walk (third-party selectors, the route picked among the matches, goto targets, group suppression) and an unread metric are arbitrary, constrained by `MarcheLinux.NoyauPossible` and `ChoixWindows.MetriquesLues`.
- Report prose, timestamps, duration and the counts that do not feed a verdict; the mDNS limits are excluded from the DNS theorem rather than counted.
- ComparaisonNft.Analyser: refuses named nft objects (sets, maps, counters, limits), which the source reads; the model is of tables, chains and rules.
- The size cap of an nft capture, the UTF-8 check and the text form of addresses and prefixes are parameters; a DNS domain is split into labels by a parameter that reads "." as the root.
- Age encryption, minisign and BLAKE2b: decryption is a partial function, a signature check an outcome, and the Salamander XOR is not modelled.
- `sources_hosts`, `ecoutes_udp`, `mode_resolv_conf` and the D-Bus reader: parsers whose results the DNS comparison takes as inputs.
- The UDP header cut of a datagram (which raises under 6 bytes), the Linux SLL skip and the direction of a packet: what follows the assembled bytes is the QUIC walk, modelled on its own.
- Preuves.ProuverLinux: as in the Windows and DNS proofs, two reads are compared part by part before an observation is read off them; the source compares the observations.
- PreuvesDeclarees.ProuverWindows: the JSON form of a posed Windows plan is a parameter, so the plan is the one the declaration reads as; for Linux it is proved to be the one posed.
- PreuvesDeclarees.ProuverDns: the same of a posed DNS plan.
- PreuvesDeclarees.ProuverNft: the reference of a projected policy and the text of a dump are parameters, as is what makes them captures.
- How serde names an enumeration variant is the parameter `variante` of the declaration readers.
- `engendrer_phrase`: its group layout would only add an easy member, and its randomness is the system's.
- The WFP proof, the daemon's installation and removal of a plan, and the GUI are not part of this model.
