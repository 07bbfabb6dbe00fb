# A verified model of the mesh's membership, discovery and routing

The system is a small mesh of proxies around one admin server. The admin keeps a table of registered
nodes with a logical clock, an allow list, invites and login records. Every proxy polls the admin, turns
changes of the table into add/remove calls, fetches the models each peer exports, and routes a model
request to a local provider or, at most once, to a peer.

The model describes that behaviour in Dafny and proves what it keeps over every run. Each locked section
or handler is a function on values. Objects that the program updates in place are classes whose methods
are proved against those functions. Runs are histories of sections, calls or messages in any order, and
the main theorems speak about all of them.

| file | what it models |
|---|---|
| `Basics.dfy`, `Text.dfy` | options, histories, `strings.Split` |
| `Membership.dfy` | the admin's node table and handlers, the client's registration object |
| `MembershipRuns.dfy` | every interleaving of the handlers' locked sections, with restarts |
| `Discovery.dfy` | the diff, the handler calls it fires, and what the stream of calls says |
| `DiscoveryRuns.dfy` | the admin and any number of polling proxies, cut at every RPC |
| `OfferHistory.dfy` | which registration an offer was about, and when the next diff sees that it is gone |
| `ModelTable.dfy` | the routing table with its shared peer maps |
| `Churn.dfy` | the table over every sequence of peer events, as written and as meant |
| `MeshRuns.dfy` | many nodes exchanging exported models |
| `Proxy.dfy` | where a request goes |
| `EndToEnd.dfy` | from the admin's table to a forwarded request, all of the above together |
| `WholeMesh.dfy` | one run of admin, proxies, tables and exchanged models |
| `Invites.dfy`, `InviteRuns.dfy` | invites, node records and logins in the key/value store, and their histories |
| `RedeemRuns.dfy`, `CredentialRuns.dfy` | the same handlers cut at every operation on store and allow list; the logins and permissions they leave |
| `AllowList.dfy` | the allow list, its file, and writes that land out of order or overlap |
| `RestartRuns.dfy` | the server with its allow-list file, and what a restart brings back |
| `PathTemplate.dfy` | filling path templates by rescanning |
| `Notifier.dfy` | the bounded wake-up queues |

`dafny verify dfyconfig.toml` verifies everything.

## Where the code departs from what it says

The steps are modelled as the code has them. Where that misses a stated intent, the intended step stands
beside it under its own name, and the condition under which the code meets the intent is proved exactly.

- A failed peer update is meant to be retried on the next poll (pkg/proxy/proxy.go:155-157). The loop
  resets the node's update stamp but compares logical times, so the retry happens exactly when the logical
  time has changed (`FailedUpdateIsRetried`), which is exactly when the peer has registered anew since
  (`OfferedAgainExactly`); `LogicalTimeDiffLosesAnUpdate` is a run that loses a peer. With the comparison of
  pkg/mesh/service.go:297 every up-to-date proxy has delivered the whole table
  (`StampDiffDeliversTheTable`).
- A peer's models are meant to be merged into the table (pkg/proxy/proxy.go:142). The lookup uses the node's
  id, so the last addition naming a model replaces its route, local providers included (`LastWriterWins`,
  `LocalProvidersSurviveAsWritten`). With the lookup by name they merge (`MergeAccumulates`).
- The models of a node's own providers are advertised together (README.md:111); where two of them offer one
  model, the one scanned last decides whether it is advertised (`AdvertisedExactly`, `ScanOrderDecides`).
- A request for `/api/chat` is forwarded to a peer, but a peer answers that path with its ordinary handlers
  and never from a model (`ForwardedRequestIsServed`, `ChatIsForwardedInVain`).
- Requested model names are lower-cased and the table's are not: an entry is of use exactly when its name has
  no upper-case letter (`RoutableExactly`).
- A one-time invite is meant to expire after its first use (pkg/admin/api_admin.go:100). Redeeming holds no
  lock: a redemption goes through exactly when it reads the invite before the first deletion, and is checked
  before the expiry (`AcceptedExactly`, `SecondRedemption`), so two that overlap can both succeed
  (`OneTimeTwice`), and so does one that a revocation overtakes (`RedeemedThoughRevoked`).
- Deleting a node removes its login record exactly when the id has no slash (`LoginIsLatestCredential`,
  `DeletionMissesSlashedIds`).
- A login reads the record under the concatenation of the mesh and the node it names, and compares neither
  with the record's own node: it is another node's record exactly when the mesh is `default/nodes` or begins
  with `default/nodes/` (`WhoseRecord`, `LoginExactly`, `LoginReadsAnotherRecord`).
- A lifetime is honoured exactly up to 9223372036 seconds (`LifetimeIsExact`).
- The allow-list file can stay behind the list for good when two writes overtake each other
  (`WritesOvertake`); it is current exactly when the set is what it was after the change written last
  (`FileIsCurrentExactly`). Writes that overlap can leave a file other than the snapshot written last
  (`WritesOverlap`), exactly when a longer one came in since the file was last emptied (`CleanExactly`).
- A restart loads the list from that file: it is the list of the change written last, so a removed node can
  be admitted again (`RestartBringsBack`, `RemovedIsAdmittedAgain`).
- Deleting a node removes its record and its permission, but a redemption under way can write the record
  afterwards. A node that can log in is off the allow list exactly when it was unregistered, or a deletion
  collected its keys before the record and forbade it after the redemption allowed it (`StrandedExactly`,
  `DeletedWhileRedeeming`).
- A broadcast that finds the notifier's queue full is dropped (pkg/proxy/socket/notifier.go:24-29). That is
  harmless if another one is queued (`DroppedBroadcastIsServed`); otherwise nobody is woken
  (`LostAmongRegistrations`, `BroadcastCanBeLost`).
- A node can end up registered but not allowed (`RegisteredOffTheListMeansRace`).

## Model

| member | source | states |
|---|---|---|
| Membership.AdminServer.constructor | pkg/admin/server.go:258-266 | a server starts with no nodes, clock 0 and the loaded allow list, and every registered node allowed |
| Membership.AdminServer.Authorize | pkg/admin/api_node.go:28-39 | a non-empty id joins the allow list and nothing else changes |
| Membership.AdminServer.Register | pkg/admin/api_node.go:42-81 | exactly the named, allowed requests enter the table: id, name, next clock value, time and token as given, the rest untouched; registered implies allowed is kept |
| Membership.AdminServer.Refresh | pkg/admin/api_node.go:83-130 | accepted exactly for the stored token, noting the time; neither the clock nor the listing moves |
| Membership.AdminServer.Unregister | pkg/admin/api_node.go:132-154 | the id leaves table and allow list; the clock ticks only if it was registered |
| Membership.AdminServer.DeleteNode | pkg/admin/api_admin.go:317-351 | the same effect on table, clock and allow list, reported as missing only if neither store nor table knew the id |
| Membership.AdminServer.List | pkg/admin/api_node.go:156-168 | each node of the table exactly once, in any order |
| Membership.Registration.Refresh | api/client_mesh.go:66-84 | valid exactly when the server holds the token and the answer arrives; a conflict, or any error whose text mentions 409, is not an error and reports clock 0 |
| Membership.MentionsExactly | api/client_mesh.go:77 | an error counts as a conflict iff its text contains 409 |
| Membership.GetPeerMap | pkg/mesh/discovery.go:175-185 | any order of the listed nodes gives back the table's listing |
| MembershipRuns.AlwaysGood | pkg/admin/api_node.go:58-77 | in every run, keys are the nodes' ids, times lie in 1..clock and are pairwise distinct, tokens were issued |
| MembershipRuns.RegisterIsTwoSections | pkg/admin/api_node.go:42-81 | undisturbed, registering is two sections, possible iff the request is named and allowed, and enters exactly that node |
| MembershipRuns.RemovalIsTwoSections | pkg/admin/api_node.go:132-154 | undisturbed, a removal is two sections that take entry and permission and tick the clock iff the id was known |
| MembershipRuns.ClockStep | pkg/admin/api_node.go:138-145 | a section that does not move the clock leaves all entries alone, and none moves it back |
| MembershipRuns.ClockCharacterisesMembership | pkg/admin/api_node.go:58-77 | equal clocks at two moments of one lifetime mean the same table |
| MembershipRuns.EntryKeptOrNewer | pkg/admin/api_node.go:58-77 | over a stretch without restart an entry is the same one throughout or carries a time later than the clock it started from |
| MembershipRuns.SameTimeSameRegistration | pkg/mesh/discovery.go:37 | within one lifetime of the server, the same id and logical time at two moments mean one registration held without a gap |
| MembershipRuns.RefreshValidity | pkg/admin/api_node.go:98-123 | a refresh is accepted iff the latest registration, removal or restart touching the id is the registration that issued the token |
| MembershipRuns.RefreshIsInvisible | pkg/admin/api_node.go:115-123 | a refresh, accepted or not, changes neither clock, allow list, listing nor anybody's token |
| MembershipRuns.RegisteredOffTheListMeansRace | pkg/admin/api_node.go:132-147 | a registered id is off the allow list iff some removal, not made up for since, deleted the entry before the insert and took the permission after the check |
| MembershipRuns.RaceHappens | pkg/admin/api_node.go:54-77 | a run in which that race leaves a node registered and not allowed |
| Discovery.DiffNodes | pkg/mesh/discovery.go:25-54 | which ids are in the two result maps and with which nodes, for any iteration order |
| Discovery.DiffExactly | pkg/mesh/discovery.go:31-51 | which ids the diff contains, with which nodes, and what the two comparisons look at |
| Discovery.DiscoveryLoop.constructor | pkg/mesh/discovery.go:100-101 | the loop starts with clock 0, an empty snapshot and no calls made |
| Discovery.DiscoveryLoop.Registered | pkg/mesh/discovery.go:117-119 | a new registration replaces the token and compares against the clock the invalid refresh reported |
| Discovery.DiscoveryLoop.FireRemovals | pkg/mesh/discovery.go:139-151 | one removal call per node in some order, failed ones put back, and the panic is unreachable |
| Discovery.DiscoveryLoop.FireUpdates | pkg/mesh/discovery.go:153-164 | one update call per node in some order, failed ones unstamped, and the panic is unreachable |
| Discovery.DiscoveryLoop.Update | pkg/mesh/discovery.go:136-170 | the whole iteration: calls, new snapshot, and the refreshed clock committed iff every call returned without error |
| Discovery.AllOkExactly | pkg/mesh/discovery.go:137-164 | nothing of a batch fails iff each of its calls returned without error |
| Discovery.ClockCommits | pkg/mesh/discovery.go:166-169 | after a delivery the clock is the refreshed one if every call succeeded, and what it was otherwise |
| Discovery.SettleFacts | pkg/mesh/discovery.go:143-161 | the settled snapshot id by id: the two handler loops touch different ids, and exactly the failed removals are kept beyond the listing |
| Discovery.LastOfferIsLatest | pkg/mesh/discovery.go:153-155 | the recursive last offer is the last update call not followed by a successful removal |
| Discovery.ReplayCharacterised | pkg/mesh/discovery.go:136-169 | an id is in the replay iff some update call since its last successful removal succeeded |
| Discovery.DeliveryAt | pkg/mesh/discovery.go:138-164 | what one delivery does to a single id's last offer |
| Discovery.MatchesHistoryStep | pkg/mesh/discovery.go:136-169 | the snapshot without self stays exactly the ids offered since their last successful removal, with matching marks |
| Discovery.DiffFromHistory | pkg/mesh/discovery.go:31-51 | the next diff as a function of the calls made so far and the listing, both directions |
| Discovery.EventStreamRefinesSnapshot | pkg/mesh/discovery.go:136-169 | successful calls replay to the snapshot, except ids all of whose updates since the last removal failed |
| Discovery.NothingRepeatedStep | pkg/mesh/discovery.go:37 | an iteration never repeats an update call for an id and logical time without a removal or another time in between |
| Discovery.RemovalsKnownStep | pkg/mesh/discovery.go:42-51 | an iteration fires removals only for ids offered and not removed since |
| DiscoveryRuns.ServerStep | pkg/admin/api_node.go:58-77 | whatever the server does between a client's RPCs keeps the client's half-done poll consistent |
| DiscoveryRuns.CommitInSync | pkg/mesh/discovery.go:166-169 | committing keeps a proxy in sync for any handler failures |
| DiscoveryRuns.GoodUpdateDelivers | pkg/mesh/service.go:297 | comparing stamps, a poll without failures leaves no earlier failed update behind |
| DiscoveryRuns.AlwaysOk | pkg/mesh/discovery.go:84-173 | the whole invariant in every reachable state of every mesh |
| DiscoveryRuns.DiscoveryAgreement | pkg/mesh/discovery.go:100-172 | in every run, when the server holds a proxy's token and the clocks agree, the proxy's snapshot is the server's table |
| DiscoveryRuns.QuietPollCommits | pkg/mesh/discovery.go:100-169 | in every run, refresh, listing and commit in a row leave the proxy at the server's clock with the server's table iff every call succeeded, and at its old clock otherwise |
| DiscoveryRuns.CanCatchUp | pkg/mesh/discovery.go:100-169 | from every reachable state an idle proxy whose token is held can be brought up to date |
| DiscoveryRuns.CanJoin | pkg/mesh/discovery.go:84-120 | from every state an allowed proxy that has to register gets in and holds its token |
| DiscoveryRuns.EventStream | pkg/mesh/discovery.go:136-169 | in every run the calls refine the snapshot, never concern the proxy itself, and remove only what was offered |
| DiscoveryRuns.NothingDeliveredTwice | pkg/mesh/discovery.go:37 | in every run no update for an id and logical time is repeated without a removal or another time in between |
| DiscoveryRuns.FailedRemovalIsRetried | pkg/mesh/discovery.go:139-151 | in every run a failed removal is offered again at each later diff until one succeeds or the peer is listed |
| DiscoveryRuns.FailedUpdateIsRetried | pkg/mesh/discovery.go:153-164 | in every run a failed update is offered again: comparing stamps always, as written iff the logical time has changed |
| DiscoveryRuns.StampDiffDeliversTheTable | pkg/mesh/service.go:287-314 | comparing stamps, an up-to-date proxy has delivered exactly the server's table without itself |
| DiscoveryRuns.LogicalTimeDiffLosesAnUpdate | pkg/mesh/discovery.go:153-169 | as written, a run ends up to date with a registered peer never delivered |
| OfferHistory.AdminLogIsARun | pkg/admin/api_node.go:42-130 | every run of the mesh is, position by position, a run of the server's locked sections |
| OfferHistory.ListedFrom | pkg/mesh/discovery.go:127-132 | the listing a proxy works on is the server's table at its latest list call, with no commit since |
| OfferHistory.OfferedFrom | pkg/mesh/discovery.go:153-155 | the last offer of a peer is an update call of some commit, naming the peer's entry in the table at the proxy's last list call before |
| OfferHistory.SameTimeSameEntry | pkg/mesh/discovery.go:37 | between two moments of a run without a restart, equal logical times mean the same registration, token included |
| OfferHistory.OfferedAgainExactly | pkg/mesh/discovery.go:37 | in every run in which the proxy keeps its session, a listed peer offered before is offered again iff its registration, token included, is no longer the one the offer was made from |
| ModelTable.ModelRouter.constructor | pkg/proxy/modeldex/router.go:274-280 | an empty table |
| ModelTable.ModelRouter.AddPeerModel | pkg/proxy/modeldex/router.go:205-215 | one iteration: a fresh peer map for the name, or the route and the very peer map stored under the node's id, which gains the node for everybody sharing it |
| ModelTable.ModelRouter.AddPeerModels | pkg/proxy/modeldex/router.go:201-216 | the whole new table for any iteration order: overwritten with peer maps kept apart when the id names no model; else that model's route under every added name, the peer listed by all who share its map; names taken after an incoming one called like the id get its route |
| ModelTable.OrderIsImmaterial | pkg/proxy/modeldex/router.go:205-215 | for a node whose id names no model, every iteration order overwrites the named routes |
| ModelTable.EnteredLists | pkg/proxy/modeldex/router.go:201-216 | entering a node's models makes each of them list that node, and changes other names only where they share its map |
| ModelTable.ModelRouter.RemoveFrom | pkg/proxy/modeldex/route.go:75-77 | removing a peer through a copy of one route removes it from every route that shares the map, and from no other |
| ModelTable.ModelRouter.RemovePeer | pkg/proxy/modeldex/router.go:218-225 | removal through struct copies takes the peer out of every route and changes nothing else, shared maps or not |
| ModelTable.ModelRouter.ListExportedModels | pkg/proxy/modeldex/router.go:28-40 | exactly the models with providers, none of them private, each once |
| ModelTable.FetchModels | pkg/proxy/client.go:22-38 | a fetch returns every model with providers and none of them private, with its description and without providers and peers |
| ModelTable.HasPrivate | pkg/proxy/modeldex/route.go:39-46 | some provider is private |
| ModelTable.ModelsFromWhitelist | pkg/proxy/modeldex/router.go:49-69 | exactly the configured names; one provider per entry in order, with the configured type, address and token, described by the first entry |
| ModelTable.ConfiguredInOrder | pkg/proxy/modeldex/router.go:52-67 | a model's entries are taken in the order configured |
| ModelTable.ConfiguredRoute | pkg/proxy/modeldex/route.go:34-46 | such a route is local with the configured type, address and token throughout, without peers, and private iff one of its entries is |
| Churn.LastWriterWins | pkg/proxy/modeldex/router.go:201-225 | over every event sequence a route is that of the last addition naming it, less the peers removed since |
| Churn.LocalProvidersSurviveAsWritten | pkg/proxy/modeldex/router.go:205-215 | as written, local providers survive iff no peer ever announces the model |
| Churn.AdvertisedExactly | README.md:111 | over any scans of a node's providers, a model is advertised iff the last one naming it is not private |
| Churn.ScanOrderDecides | pkg/proxy/modeldex/router.go:227-259 | a public and a private provider of one model: advertised in one order of scanning, not in the other |
| Churn.OrderMattersAsWritten | pkg/proxy/modeldex/router.go:205-215 | as written, the order of two additions decides which peer is listed |
| Churn.MergeAccumulates | pkg/proxy/proxy.go:141-143 | merged by name, a route lists exactly the peers that announced it and were not removed since, and keeps the description and providers it started with |
| Churn.OrderOfAdditionsIsImmaterial | pkg/proxy/proxy.go:177-179 | merged by name, any two orders of the same additions list the same peers for the same models, with the same providers if the additions bring none |
| MeshRuns.AnswersAreGenuine | pkg/proxy/client.go:22-38 | an answer in flight names only what its sender was exporting when fetched, and carries no providers or peers |
| MeshRuns.FetchTellsAll | pkg/proxy/client.go:22-38 | in every run, whatever a node was exporting when asked is in an answer to who asked, with the description it had then |
| MeshRuns.ListedExactly | pkg/proxy/modeldex/router.go:201-225 | in every run a node lists another for a model iff it received that model from it and has since neither entered it anew nor forgotten the other; the route is the one it was told |
| MeshRuns.RouteExactly | pkg/proxy/modeldex/router.go:205-215 | in every run a node has a route iff it scanned the model or was told of it, with providers and description of the last time |
| MeshRuns.Provenance | pkg/proxy/proxy.go:144-183 | in every run, a peer listed for a model was itself exporting it, locally and non-privately, at a fetch by this node |
| MeshRuns.ProvidersAreScanned | pkg/proxy/modeldex/router.go:227-259 | in every run, a route's providers come from the node's own scan |
| MeshRuns.ListedPeersServeThemselves | pkg/proxy/modeldex/router.go:28-40 | models are never re-exported: whoever is listed scanned the model from its own providers |
| MeshRuns.SelfOnlyWithProviders | pkg/proxy/modeldex/router.go:258 | in every run a node lists itself only where it has providers, and peers sit under their own ids |
| MeshRuns.NodesNameNoModels | pkg/proxy/modeldex/router.go:207 | in every run no node's id names a model, in a table or an answer |
| MeshRuns.DeliveryIsAddPeerModels | pkg/proxy/modeldex/router.go:201-216 | delivering an answer in a run is what the router's method does, whatever shares its peer maps |
| Proxy.ProxyModelRequest | pkg/proxy/proxy.go:62-139 | the lower-cased name decides: the first provider's address and token if there is a provider and the address parses, a listed peer if there is none and the request is local, otherwise not found |
| Proxy.AnsweredWhere | pkg/proxy/proxy.go:96-137 | whatever the path, an answer from the table goes to the model's first provider with its token, or to a listed peer, or is not found for want of either |
| Proxy.ServeHTTP | pkg/proxy/proxy.go:189-201 | the three paths local clients are answered from models on |
| Proxy.MeshServeHTTP | pkg/proxy/proxy.go:206-218 | the four paths peers are answered from models on, never by forwarding |
| Proxy.UpperIsThese | pkg/proxy/proxy.go:68 | the letters lower-casing changes |
| Proxy.OnPeerUpdate | pkg/proxy/proxy.go:144-183 | succeeds for removals and for updates whose models could be fetched; the table changes by exactly the successful calls, for any peer id |
| Proxy.OneHop | pkg/proxy/proxy.go:121-137 | for arbitrary tables on all nodes a request is forwarded at most once, never when a local provider exists, and only to a listed peer |
| Proxy.ForwardedRequestIsServed | pkg/proxy/proxy.go:189-218 | a forwarded request reaches a provider iff its path is not `/api/chat` and the destination has a provider for the model with a usable address |
| Proxy.ChatIsForwardedInVain | pkg/proxy/proxy.go:195-214 | a request for `/api/chat` forwarded to a peer that has the model and does not answer from it |
| Proxy.RoutableExactly | pkg/proxy/proxy.go:68 | an entry that could answer changes the answer to some request iff its name has no upper-case letter |
| Proxy.NeverToSelf | pkg/mesh/discovery.go:33-35 | in every reachable mesh no node forwards to itself |
| EndToEnd.ListedIsReplayed | pkg/proxy/proxy.go:144-183 | whoever the routing table lists is in the replay of the successful handler calls, or is the node itself where it has providers |
| EndToEnd.ScansGiveOwnTable | pkg/proxy/modeldex/router.go:227-259 | after any scans of its own providers a node lists only itself, where it has providers |
| EndToEnd.ReplayedIsRegistered | pkg/mesh/discovery.go:136-169 | in every run, whom an up-to-date proxy's successful calls leave behind is registered and not the proxy itself |
| EndToEnd.ForwardsReachMembers | pkg/proxy/proxy.go:129-137 | in every run, as written, an up-to-date proxy forwards only to nodes registered with the admin at that moment, never to itself |
| EndToEnd.IntendedTableIsComplete | pkg/proxy/proxy.go:155-179 | with stamps compared and additions merged, an up-to-date proxy lists every registered node for every model it announced since it was last removed, and keeps its own providers |
| WholeMesh.CallsOk | pkg/proxy/proxy.go:144-183 | a poll's successful calls keep the table in step with their replay, and with what the listed peers scanned |
| WholeMesh.AlwaysOk | pkg/proxy/modeldex/router.go:28-40 | in every run of everything, tables list others only while replayed and only for models those scanned, and answers carry nothing else |
| WholeMesh.ForwardsReachScanners | pkg/proxy/proxy.go:129-137 | in every run of everything, as written, an up-to-date proxy forwards a model only to another node that is registered at that moment and scanned the model itself |
| WholeMesh.TableIsHistory | pkg/proxy/modeldex/router.go:201-259 | in every run of everything a proxy's table is made of its scans and handler calls in order |
| WholeMesh.FetchAnswers | pkg/proxy/client.go:22-38 | a fetch brings an answer with exactly what its sender exports |
| WholeMesh.ForwardHappens | pkg/proxy/proxy.go:129-137 | a run from the start in which an up-to-date proxy forwards a model to the node that scanned it |
| Invites.ParsePrinted | pkg/admin/api_admin.go:239-249 | parsing a printed key gives its parts iff both are non-empty and slash-free, and nothing otherwise |
| Invites.PrintedParsed | pkg/admin/api_admin.go:80-82 | every key that parses is the print of its parts |
| Invites.KeysAsPrinted | pkg/admin/api_admin.go:80-82 | the keys as they stand in the store |
| Invites.LifetimeIsExact | pkg/admin/api_admin.go:114-116 | with 64-bit wrap-around the expiry is now plus lifetime iff the lifetime is at most 9223372036 seconds |
| Invites.LifetimeIsHonoured | pkg/admin/api_admin.go:147-150 | within that bound an invite is never taken for one without expiry and is usable precisely before its time |
| Invites.ForeverIsForever | pkg/admin/api_admin.go:147 | an invite created without a lifetime is not expired at any time |
| Invites.WrappedLifetime | pkg/admin/api_admin.go:114-116 | every other lifetime ends at now plus its nanoseconds reduced to 64 bits with sign |
| Invites.AdminStore.CreateInvite | pkg/admin/api_admin.go:84-129 | the store gains the invite as ordered, unless no mesh is named; it never expires without a lifetime, and up to the bound exactly after it |
| Invites.AdminStore.RedeemInvite | pkg/admin/api_admin.go:131-196 | succeeds iff the invite is redeemable and a node is named; the node is then allowed and its record holds the secret and the given name or else the invite's; expired and one-time invites are removed and nothing else |
| Invites.AdminStore.ListInvites | pkg/admin/api_admin.go:198-237 | lists exactly the redeemable invites and purges exactly the expired ones |
| Invites.AdminStore.RevokeInvite | pkg/admin/api_admin.go:357-380 | removes the invite, reporting a missing one |
| Invites.AdminStore.DeleteNode | pkg/admin/api_admin.go:293-351 | removes exactly the records whose key parses and belongs to the id, and the id from the allow list |
| Invites.AdminStore.Login | pkg/admin/api_node.go:217-239 | succeeds iff the record under the node's key has the secret |
| InviteRuns.InviteStep | pkg/admin/api_admin.go:131-237 | what each handler does to the entry of one invite |
| InviteRuns.StoreFollowsAlive | pkg/admin/api_admin.go:147-150 | in every history the store holds the unpurged invite, or has purged one whose time is over |
| InviteRuns.LazyPurgeIsInvisible | pkg/admin/api_admin.go:84-237 | an invite is redeemable at t iff created, not revoked, not used up and not expired at t |
| InviteRuns.AliveExactly | pkg/admin/api_admin.go:131-188 | over every history an invite is there until it is revoked or, if one-time, used |
| InviteRuns.RedeemableExactly | pkg/admin/api_admin.go:97-116 | over every history and for every lifetime up to the bound, none included, an invite is redeemable iff in time, not revoked and, if one-time, not used |
| InviteRuns.RecordOfSuccess | pkg/admin/api_admin.go:159-180 | a success writes the node's record with the given name or else the invite's, and the invite's noted |
| InviteRuns.ListingChangesNothing | pkg/admin/api_admin.go:198-237 | dropping all listings from a history leaves the same invites redeemable |
| InviteRuns.OneTimeAtMostOnce | pkg/admin/api_admin.go:184-188 | with whole handlers, after one success no redemption of a one-time invite succeeds |
| InviteRuns.NothingAfterRevocation | pkg/admin/api_admin.go:357-380 | with whole handlers, no redemption succeeds after a revocation |
| InviteRuns.NothingAfterExpiry | pkg/admin/api_admin.go:147-150 | a redemption succeeds only after creation and before the expiry given then |
| InviteRuns.RecordStep | pkg/admin/api_admin.go:174-182 | a node's record changes only by its own redemption or a deletion that reaches it |
| InviteRuns.LoginIsLatestCredential | pkg/admin/api_node.go:230-239 | with whole handlers, a login naming the default mesh succeeds iff the secret is that of the node's latest redemption with no deletion reaching it since; deletions reach exactly the slash-free ids |
| InviteRuns.LoginExactly | pkg/admin/api_node.go:225-239 | with whole handlers, for any mesh and node, a login succeeds iff the composed key lies among the default mesh's records and the secret is the latest of the node that key ends in |
| InviteRuns.WhoseRecord | pkg/admin/api_admin.go:80-82 | the composed key is another node's iff the mesh is `default/nodes` or begins with `default/nodes/` |
| InviteRuns.LoginMesh | pkg/admin/api_node.go:225-231 | with whole handlers, under every mesh name that does not begin a record's key a login takes the named node's own secret, on the default mesh only |
| InviteRuns.DeletionMissesSlashedIds | pkg/admin/api_admin.go:293-314 | a history in which a deleted id with a slash still logs in |
| InviteRuns.LoginReadsAnotherRecord | pkg/admin/api_node.go:225-239 | for each of those meshes and every node, a history in which the node logs in without ever having redeemed an invite |
| RedeemRuns.InviteStep | pkg/admin/api_admin.go:131-237 | which store operations move the entry of one invite |
| RedeemRuns.AlwaysFollows | pkg/admin/api_admin.go:131-237 | in every interleaving, store, running redemptions and pending purges agree with the terms of creation; an invite is gone only by use, revocation or expiry |
| RedeemRuns.AcceptedExactly | pkg/admin/api_admin.go:140-161 | in every interleaving a redemption goes through iff its invite was created and neither used up nor revoked when it read it, and its lifetime is not over when it checks |
| RedeemRuns.SecondRedemption | pkg/admin/api_admin.go:174-188 | given the first deletion of an invite, a redemption goes through iff it read before it, in time |
| RedeemRuns.PutWasAccepted | pkg/admin/api_admin.go:163-182 | records are written by redemptions that went through, after they allowed the node |
| RedeemRuns.UndisturbedIsWhole | pkg/admin/api_admin.go:131-196 | the operations of one redemption in a row have the effect of the whole handler on store and allow list |
| RedeemRuns.UndisturbedDeletionIsWhole | pkg/admin/api_admin.go:293-351 | so have those of a node deletion |
| RedeemRuns.OneTimeTwice | pkg/admin/api_admin.go:184-188 | a history in which two redemptions of one one-time invite both succeed |
| RedeemRuns.RedeemedThoughRevoked | pkg/admin/api_admin.go:357-380 | a history in which a record is written after the invite's revocation |
| CredentialRuns.RecordStep | pkg/admin/api_admin.go:174-182 | which store operations move the record under one key |
| CredentialRuns.LoginIsLastPut | pkg/admin/api_node.go:225-239 | in every interleaving, for any mesh and node, a login succeeds iff the last operation on the composed key is a put of that secret |
| CredentialRuns.RecordNamed | pkg/admin/api_admin.go:159-180 | in every interleaving a record carries the given name or else the one the invite was made out to |
| CredentialRuns.AllowedIsGranted | pkg/admin/allow.go:52-78 | in every interleaving a node is allowed iff the last operation on its permission gave it |
| CredentialRuns.CollectedTooEarly | pkg/admin/api_admin.go:293-314 | a finished deletion that left a record behind collected its keys before the record was put |
| CredentialRuns.StrandedExactly | pkg/admin/api_admin.go:163-182 | in every interleaving a node that can log in is off the allow list iff it was unregistered for good after its redemption allowed it, or a deletion collected before its record and forbade after |
| CredentialRuns.DeletedWhileRedeeming | pkg/admin/api_admin.go:317-351 | a history of one redemption and one deletion, both finished, after which the node logs in and is not allowed |
| AllowList.Load | pkg/admin/allow.go:31-39 | an id is loaded iff some line, and no over-long one up to it, is that id between white space; reports whether there is an over-long line |
| AllowList.EntryExactly | pkg/admin/allow.go:33-37 | a line contributes an id iff it is that id between white space, not empty and not a comment |
| AllowList.LoadedExactly | pkg/admin/allow.go:31-38 | for every file, the loaded ids by positions of lines; a last line without a newline counts unless empty |
| AllowList.SpacesAreThese | pkg/admin/allow.go:33 | the white space that is trimmed, spelt out |
| AllowList.FitsExactly | pkg/admin/allow.go:31-32 | which lines fit the scanner: for ASCII fewer than 65536 characters, and the bytes of all others |
| AllowList.Persist | pkg/admin/allow.go:90-97 | the builder loop writes one line per id |
| AllowList.LoadPersisted | pkg/admin/allow.go:18-40 | loading what was persisted gives the same set iff every id is trimmed, non-empty, on one line of less than 64 KiB and no comment |
| AllowList.List.constructor | pkg/admin/allow.go:18-40 | the list starts with what its file lists, or empty without a file |
| AllowList.List.Add | pkg/admin/allow.go:52-64 | the set grows by the id and, undisturbed, the file lists the new set |
| AllowList.List.Remove | pkg/admin/allow.go:66-78 | the set loses the id and, undisturbed, the file lists the new set |
| AllowList.FileIsAPastMemory | pkg/admin/allow.go:52-97 | with the file open in one operation at a time, it holds exactly what memory held right after the change that was written last |
| AllowList.LoadingRestoresAPastMemory | pkg/admin/allow.go:18-40 | loading it restores that set when its ids are storable |
| AllowList.FileIsCurrentExactly | pkg/admin/allow.go:52-97 | the file loads to the present set iff that is the set right after the change that was written last |
| AllowList.LastChangeWrittenLast | pkg/admin/allow.go:60-63 | so the file is current once the last operation to change the set is also the last to write |
| AllowList.WritesOvertake | pkg/admin/allow.go:60-63 | a history of writes one after the other that leaves the file behind for good |
| AllowList.LongestSinceOpen | pkg/admin/allow.go:96 | in every interleaving the file is as long as the longest write since it was last emptied |
| AllowList.CleanExactly | pkg/admin/allow.go:96 | a write leaves exactly its snapshot behind iff no write since the file was last emptied was longer |
| AllowList.WritesOverlap | pkg/admin/allow.go:90-97 | a history in which two overlapping writes leave a file with an id nobody added |
| RestartRuns.ServerLogIsARun | pkg/admin/server.go:236-279 | the server with its file runs as the server alone does, each restart loading what the file lists |
| RestartRuns.AlwaysOk | pkg/admin/allow.go:52-78 | in every run the list in memory is the server's and follows from the changes since the last restart |
| RestartRuns.RestartBringsBack | pkg/admin/server.go:248 | in every run without overlapping writes, a restart brings back the list right after the change written last, or the one of the last start; nothing if a write was half-way |
| RestartRuns.RemovedIsAdmittedAgain | pkg/admin/allow.go:66-78 | a run with all writes complete in which a removed node is allowed again by a restart and registers |
| PathTemplate.FindPair | pkg/jsonclient/utilities.go:31-43 | finds the first closing brace with an opening one before it, and the nearest such opening one, iff there is any |
| PathTemplate.MakePath | pkg/jsonclient/utilities.go:27-61 | fills the pairs in turn within one scan more than there are values |
| PathTemplate.FillsOneWay | pkg/jsonclient/utilities.go:27-61 | the outcome is determined by path and values |
| PathTemplate.ResultHasNoPair | pkg/jsonclient/utilities.go:45-48 | a result has no opening brace before a later closing one |
| PathTemplate.NoPairsNoCount | pkg/jsonclient/utilities.go:35-48 | the one-pass stack count is zero iff there is no such pair |
| PathTemplate.ReplaceCounts | pkg/jsonclient/utilities.go:55-57 | filling one pair with a brace-free value lowers the stack count by one |
| PathTemplate.EnoughValues | pkg/jsonclient/utilities.go:50-53 | with brace-free values filling succeeds iff the stack-matched pairs are at most the values |
| PathTemplate.TemplateIsFilled | pkg/jsonclient/utilities.go:55-57 | in a path of literals and holes the i-th hole gets the i-th value and the literals stay |
| Notifier.Client.Wakeup | pkg/proxy/socket/client.go:97-102 | one more pending wake-up unless eight are pending |
| Notifier.Hub.Broadcast | pkg/proxy/socket/notifier.go:24-29 | the send step of the runs: queued unless sixty-four actions are queued |
| Notifier.Hub.PollOne | pkg/proxy/socket/notifier.go:39-55 | the poll step of the runs: one action taken from the front, a deregistered client closed; a broadcast leaves every registered client with a pending wake-up |
| Notifier.Fifo | pkg/proxy/socket/notifier.go:39-55 | in every run an action moves up one place per poll until it is taken |
| Notifier.DroppedBroadcastIsServed | pkg/proxy/socket/notifier.go:24-29 | a broadcast dropped at a full queue that holds another is followed by one that leaves everybody registered with a wake-up pending |
| Notifier.LostAmongRegistrations | pkg/proxy/socket/notifier.go:24-37 | in every run, from a queue without broadcasts on and while every broadcast finds it full, a client's pending wake-ups and those it consumed stay what it had |
| Notifier.NeverWokenAgain | pkg/proxy/socket/notifier.go:45-47 | in every run a client whose deregistration was polled is never registered again and gains no wake-up |
| Notifier.AlwaysTidy | pkg/proxy/socket/notifier.go:57-75 | in every run registrations are queued once and before their deregistration |
| Notifier.AlwaysBounded | pkg/proxy/socket/notifier.go:77-82 | in every run at most sixty-four actions are queued and eight wake-ups pending per client |
| Notifier.PollsDrain | pkg/proxy/socket/notifier.go:39-55 | polling works off queued registrations one by one |
| Notifier.BroadcastCanBeLost | pkg/proxy/socket/notifier.go:24-37 | from the start, a run in which the registrations of sixty-four clients swallow a broadcast: all are registered and none has a wake-up |

## Assumptions

Registration tokens, invite ids and handler invocations are fresh. Wall time does not go back. Comparing a
secret with its stored hash is ideal. The key/value store is a map with iteration over its keys; each of its
operations is one step. In InviteRuns every handler runs undisturbed; RedeemRuns drops that. A proxy's session
ends with the admin that issued it (pkg/admin/server.go:243), and a client of the notifier is registered and
deregistered once. A file is emptied by opening it and filled by one write. Map iteration order is arbitrary.
Runs of the mesh have no model named by a node id.

## Left out

- The 64-bit width of the logical clock: it is a natural number and never wraps.
- libp2p hosts, streams, relaying, mDNS and dialling: a forward is an abstract step to the destination's mesh entry.
- HTTP and JSON plumbing, retries and sleeps: calls either answer or fail; storage and decoding errors do not occur.
- Fetching models from Ollama and OpenAI: a scan yields any routes with at least one provider each.
- Session tokens, password hashing and key generation: only which secret a login accepts.
- Liveness after a restart of the admin: the session key is new and the proxy does not log in again, so only states are described.
- RedeemInvite: the method is one undisturbed call; what overlapping calls and deletions do is in RedeemRuns and CredentialRuns.
- OneTimeAtMostOnce: for whole handlers; the condition for overlapping ones is `AcceptedExactly`.
- NothingAfterRevocation: for whole handlers; the condition for overlapping ones is `SecondRedemption`.
- LoginIsLatestCredential: for whole handlers; `LoginIsLastPut` holds in every interleaving.
- LoginExactly: for whole handlers; `LoginIsLastPut` holds in every interleaving.
- LoginMesh: for whole handlers; `LoginIsLastPut` holds in every interleaving.
- ToLower: letters outside ASCII keep their case.
- Overlay: overlapping writes are laid over each other character by character, which is byte by byte for ASCII.
- Commit in WholeMesh: a poll's handler calls reach the routing table together, so requests between two of them are not described.
- MakePath: values are given as rendered text, and makePathKV is not part of this model.
- The notifier's blocking sends: registering and deregistering wait for room, and in runs they happen only then.
- The moment the update handler is set: runs let a proxy skip a poll at any time, as one without a handler does.
- The user interface, command line, configuration, logging and address discovery.
