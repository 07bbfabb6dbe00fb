/**
 Runs of a whole mesh: the admin server at lock granularity and any number of proxies polling it.

 A proxy's loop is cut at every RPC, so anything can happen at the server between the clock read of
 a refresh and the listing that follows it, and between a reply and the client acting on it.
 Handler calls may fail, replies may be lost (the server then acts alone, as an `Admin` step), a
 refresh may be misreported as a conflict, and the server may restart.
 */
module DiscoveryRuns {
  import opened Basics
  import opened Membership
  import opened Discovery
  import M = MembershipRuns

  type ProcId = nat

  /** Where a proxy is in listenForPeerUpdates. */
  datatype Phase =
    | Joining                                   // the initial registration loop
    | Idle                                      // about to refresh
    | Refreshed(clock: nat)                     // the refresh was valid and reported this clock
    | Listed(clock: nat, listing: PeerMap)      // the listing for that clock is in hand
    | Invalid(reported: nat)                    // the refresh was invalid, reporting this clock
    | Accepted(token: Token, reported: nat)     // a registration reply is in hand

  datatype Proc = Proc(client: Client, phase: Phase)

  datatype System = System(admin: M.State, procs: map<ProcId, Proc>)

  datatype Action =
    | Admin(e: M.Event)
    | RefreshValid(k: ProcId, now: nat)
    | RefreshInvalid(k: ProcId)
    | Register(k: ProcId, e: M.Event)
    | RegisterFailed(k: ProcId)
    | Install(k: ProcId)
    | ListPeers(k: ProcId)
    | Skip(k: ProcId)
    | Commit(k: ProcId, failRemove: set<NodeId>, failAdd: set<NodeId>, downs: seq<PeerEvent>, ups: seq<PeerEvent>)

  ghost predicate Enabled(s: System, a: Action) {
    match a
    case Admin(e) => M.Enabled(s.admin, e)
    case RefreshValid(k, now) =>
      k in s.procs && s.procs[k].phase.Idle? && Holds(s.admin.server, s.procs[k].client.self, s.procs[k].client.token)
    case RefreshInvalid(k) => k in s.procs && s.procs[k].phase.Idle?
    case Register(k, e) =>
      && k in s.procs && (s.procs[k].phase.Joining? || s.procs[k].phase.Invalid?)
      && e.InsertNode? && e.id == s.procs[k].client.self && M.Enabled(s.admin, e)
    case RegisterFailed(k) => k in s.procs && s.procs[k].phase.Invalid?
    case Install(k) => k in s.procs && s.procs[k].phase.Accepted?
    case ListPeers(k) => k in s.procs && s.procs[k].phase.Refreshed? && s.procs[k].client.last != s.procs[k].phase.clock
    case Skip(k) => k in s.procs && s.procs[k].phase.Refreshed?
    case Commit(k, failRemove, failAdd, downs, ups) =>
      && k in s.procs && s.procs[k].phase.Listed?
      && IsDelivery(s.procs[k].client, s.procs[k].phase.listing, failRemove, failAdd, downs, ups)
  }

  /** The step of one proxy, given the server's state before it. */
  ghost function Advance(s: System, p: Proc, a: Action): Proc
    requires !a.Admin? && a.k in s.procs && s.procs[a.k] == p && Enabled(s, a)
  {
    match a
    case RefreshValid(_, _) => p.(phase := Refreshed(s.admin.server.clock))
    case RefreshInvalid(_) => p.(phase := Invalid(0))
    case Register(_, e) => p.(phase := Accepted(e.token, if p.phase.Invalid? then p.phase.reported else p.client.last))
    case RegisterFailed(_) => p.(phase := Idle)
    case Install(_) => Proc(p.client.(token := p.phase.token, last := p.phase.reported), Idle)
    case ListPeers(_) => p.(phase := Listed(p.phase.clock, Listing(s.admin.server)))
    case Skip(_) => p.(phase := Idle)
    case Commit(_, failRemove, failAdd, downs, ups) =>
      Proc(Committed(p.client, p.phase.clock, p.phase.listing, failRemove, failAdd, downs, ups), Idle)
  }

  /** What the server sees of a step. */
  ghost function AtServer(s: System, a: Action): M.State
    requires Enabled(s, a)
  {
    match a
    case Admin(e) => M.Apply(s.admin, e)
    case RefreshValid(k, now) =>
      M.Apply(s.admin, M.RefreshNode(s.procs[k].client.self, s.procs[k].client.token, now))
    case Register(_, e) => M.Apply(s.admin, e)
    case _ => s.admin
  }

  /** The section a step runs at the server; a refresh nobody can pass stands for none. */
  ghost function ServerEvent(s: System, a: Action): M.Event
    requires Enabled(s, a)
  {
    match a
    case Admin(e) => e
    case RefreshValid(k, now) => M.RefreshNode(s.procs[k].client.self, s.procs[k].client.token, now)
    case Register(_, e) => e
    case _ => M.RefreshNode("", "", 0)
  }

  ghost function Step(s: System, a: Action): System
    requires Enabled(s, a)
  {
    System(AtServer(s, a), if a.Admin? then s.procs else s.procs[a.k := Advance(s, s.procs[a.k], a)])
  }

  /** A fresh server and any proxies, all about to join and all running the same diff; node ids may even coincide. */
  ghost predicate IsStart(s: System, cmp: Compare) {
    && s.admin == M.START
    && forall k :: k in s.procs ==> s.procs[k] == Proc(NewClient(cmp, s.procs[k].client.self), Joining)
  }

  ghost predicate Valid(s0: System, run: seq<Action>)
    decreases |run|, 0
  {
    run == [] || (Valid(s0, Front(run)) && Enabled(After(s0, Front(run)), Last(run)))
  }

  ghost function After(s0: System, run: seq<Action>): System
    requires Valid(s0, run)
    decreases |run|, 1
  {
    if run == [] then s0 else Step(After(s0, Front(run)), Last(run))
  }

  // ---------------------------------------------------------------- the invariant

  /** Every known peer's last update call succeeded. */
  ghost predicate Delivered(c: Client) {
    forall id :: LastOffer(c.events, id).Some? ==> LastOffer(c.events, id).value.ok
  }

  /** What holds of a proxy while the server still holds its token. */
  ghost predicate InSync(server: Server, p: Proc) {
    var c := p.client;
    && c.last <= server.clock
    && (c.last == server.clock ==> c.peers == Listing(server))
    && (c.last == server.clock && c.cmp.ByLastUpdate? ==> Delivered(c))
    && (p.phase.Refreshed? ==> c.last <= p.phase.clock <= server.clock)
    && (p.phase.Listed? ==>
          && c.last < p.phase.clock <= server.clock
          && (p.phase.clock == server.clock ==> p.phase.listing == Listing(server)))
  }

  ghost predicate Genuine(m: PeerMap) {
    WellKeyed(m) && forall id :: id in m ==> 0 < m[id].lastUpdate
  }

  ghost predicate ProcOk(admin: M.State, p: Proc) {
    && MatchesHistory(p.client)
    && (p.client.cmp.ByLogicalTime? ==> NothingRepeated(p.client.events))
    && RemovalsKnown(p.client.events)
    && (p.client.token != "" ==> p.client.token in admin.issued)
    && (p.phase.Joining? ==> p.client.last == 0)
    && (p.phase.Invalid? ==> p.phase.reported == 0)
    && (p.phase.Accepted? ==> p.phase.token in admin.issued && p.phase.reported == 0)
    && (p.phase.Listed? ==> Genuine(p.phase.listing))
    && (Holds(admin.server, p.client.self, p.client.token) ==> InSync(admin.server, p))
  }

  ghost predicate Ok(s: System) {
    M.Good(s.admin) && forall k :: k in s.procs ==> ProcOk(s.admin, s.procs[k])
  }

  /** A token the server holds after a section was held before it, and the section kept the proxy in sync. */
  lemma ServerStep(admin: M.State, e: M.Event, p: Proc)
    requires M.Good(admin) && M.Enabled(admin, e) && ProcOk(admin, p)
    ensures ProcOk(M.Apply(admin, e), p)
  {
    var admin' := M.Apply(admin, e);
    if Holds(admin'.server, p.client.self, p.client.token) {
      assert Holds(admin.server, p.client.self, p.client.token);
      if !e.Restart? {
        M.ClockStep(admin, e);
        if admin.server.clock == admin'.server.clock {
          M.EntriesDetermineListing(admin.server, admin'.server);
        }
      }
    }
  }

  lemma InstallStep(admin: M.State, p: Proc)
    requires M.Good(admin) && ProcOk(admin, p) && p.phase.Accepted?
    ensures ProcOk(admin, Proc(p.client.(token := p.phase.token, last := p.phase.reported), Idle))
  {
  }

  /**
   Committing keeps a proxy in sync: the clock moves only with a complete update, and then the snapshot is the
   listing.
   */
  lemma CommitInSync(admin: M.State, p: Proc, failRemove: set<NodeId>, failAdd: set<NodeId>,
                     downs: seq<PeerEvent>, ups: seq<PeerEvent>)
    requires MatchesHistory(p.client) && p.phase.Listed? && Genuine(p.phase.listing)
    requires IsDelivery(p.client, p.phase.listing, failRemove, failAdd, downs, ups)
    requires InSync(admin.server, p)
    ensures var c := Committed(p.client, p.phase.clock, p.phase.listing, failRemove, failAdd, downs, ups);
            InSync(admin.server, Proc(c, Idle))
  {
    var c, clock, listing := p.client, p.phase.clock, p.phase.listing;
    var removed, updated := Removed(c.self, c.peers, listing), Updated(c.cmp, c.self, c.peers, listing);
    if Failed(removed, failRemove) == map[] && Failed(updated, failAdd) == map[] {
      assert Committed(c, clock, listing, failRemove, failAdd, downs, ups).peers == listing;
      if c.cmp.ByLastUpdate? {
        GoodUpdateDelivers(c, clock, listing, failRemove, failAdd, downs, ups);
      }
    }
  }

  lemma CommitStep(admin: M.State, p: Proc, failRemove: set<NodeId>, failAdd: set<NodeId>,
                   downs: seq<PeerEvent>, ups: seq<PeerEvent>)
    requires M.Good(admin) && ProcOk(admin, p) && p.phase.Listed?
    requires IsDelivery(p.client, p.phase.listing, failRemove, failAdd, downs, ups)
    ensures var c := Committed(p.client, p.phase.clock, p.phase.listing, failRemove, failAdd, downs, ups);
            ProcOk(admin, Proc(c, Idle))
  {
    MatchesHistoryStep(p.client, p.phase.clock, p.phase.listing, failRemove, failAdd, downs, ups);
    RemovalsKnownStep(p.client, p.phase.clock, p.phase.listing, failRemove, failAdd, downs, ups);
    if p.client.cmp.ByLogicalTime? {
      NothingRepeatedStep(p.client, p.phase.clock, p.phase.listing, failRemove, failAdd, downs, ups);
    }
    if Holds(admin.server, p.client.self, p.client.token) {
      CommitInSync(admin, p, failRemove, failAdd, downs, ups);
    }
  }

  /** With stamps compared, a poll without failures leaves no failed update behind. */
  lemma GoodUpdateDelivers(c: Client, clock: nat, listing: PeerMap, failRemove: set<NodeId>, failAdd: set<NodeId>,
                           downs: seq<PeerEvent>, ups: seq<PeerEvent>)
    requires c.cmp.ByLastUpdate? && MatchesHistory(c) && Genuine(listing)
    requires IsDelivery(c, listing, failRemove, failAdd, downs, ups)
    requires Failed(Removed(c.self, c.peers, listing), failRemove) == map[]
    requires Failed(Updated(c.cmp, c.self, c.peers, listing), failAdd) == map[]
    ensures Delivered(Committed(c, clock, listing, failRemove, failAdd, downs, ups))
  {
    var c' := Committed(c, clock, listing, failRemove, failAdd, downs, ups);
    var removed, updated := Removed(c.self, c.peers, listing), Updated(c.cmp, c.self, c.peers, listing);
    forall id | LastOffer(c'.events, id).Some?
      ensures LastOffer(c'.events, id).value.ok
    {
      assert id !in Failed(updated, failAdd) && id !in Failed(removed, failRemove);
      DeliveryAt(c, listing, failRemove, failAdd, downs, ups, id);
      DiffFromHistory(c, listing, id);
    }
  }

  lemma OwnStep(s: System, a: Action)
    requires Ok(s) && Enabled(s, a) && !a.Admin?
    ensures ProcOk(AtServer(s, a), Advance(s, s.procs[a.k], a))
  {
    var p := s.procs[a.k];
    match a
    case RefreshValid(k, now) =>
      ServerStep(s.admin, M.RefreshNode(p.client.self, p.client.token, now), p);
    case RefreshInvalid(k) =>
    case Register(k, e) =>
      ServerStep(s.admin, e, p);
    case RegisterFailed(k) =>
    case Install(k) =>
      InstallStep(s.admin, p);
    case ListPeers(k) =>
    case Skip(k) =>
    case Commit(k, failRemove, failAdd, downs, ups) =>
      CommitStep(s.admin, p, failRemove, failAdd, downs, ups);
  }

  lemma OkStep(s: System, a: Action)
    requires Ok(s) && Enabled(s, a)
    ensures Ok(Step(s, a))
  {
    var s' := Step(s, a);
    var e := ServerEvent(s, a);
    assert M.Enabled(s.admin, e) && s'.admin == M.Apply(s.admin, e);
    M.GoodStep(s.admin, e);
    if !a.Admin? {
      OwnStep(s, a);
    }
    forall k | k in s'.procs
      ensures ProcOk(s'.admin, s'.procs[k])
    {
      ServerStep(s.admin, e, s.procs[k]);
    }
  }

  lemma {:induction false} AlwaysOk(cmp: Compare, s0: System, run: seq<Action>)
    requires IsStart(s0, cmp) && Valid(s0, run)
    ensures Ok(After(s0, run))
  {
    if run != [] {
      AlwaysOk(cmp, s0, Front(run));
      OkStep(After(s0, Front(run)), Last(run));
    }
  }

  // ---------------------------------------------------------------- theorems over every run

  /**
   Discovery agreement: whenever the server holds a proxy's token and the proxy's last clock is the
   server's, the proxy's snapshot is the server's table.
   */
  lemma DiscoveryAgreement(cmp: Compare, s0: System, run: seq<Action>, k: ProcId)
    requires IsStart(s0, cmp) && Valid(s0, run) && k in After(s0, run).procs
    ensures var s := After(s0, run);
            var c := s.procs[k].client;
            Holds(s.admin.server, c.self, c.token) && c.last == s.admin.server.clock ==>
              c.peers == Listing(s.admin.server)
  {
    AlwaysOk(cmp, s0, run);
  }

  /**
   In every reachable state the handler calls that succeeded replay to the snapshot without self, except
   for ids all of whose updates since their last successful removal failed; calls never concern the proxy
   itself, and removals are only fired for ids that were offered and not removed since.
   */
  lemma EventStream(cmp: Compare, s0: System, run: seq<Action>, k: ProcId, id: NodeId)
    requires IsStart(s0, cmp) && Valid(s0, run) && k in After(s0, run).procs
    ensures var c := After(s0, run).procs[k].client;
            && (id in Replay(c.events) ==> id in c.peers && id != c.self)
            && (id in c.peers && id != c.self && id !in Replay(c.events) ==>
                  && (exists i: nat :: AddedSince(c.events, id, i))
                  && (forall i: nat :: AddedSince(c.events, id, i) ==> !c.events[i].ok))
            && (forall i :: 0 <= i < |c.events| ==> c.events[i].node.id != c.self)
            && (forall i :: 0 <= i < |c.events| && c.events[i].removal ==>
                              exists j: nat :: AddedSince(c.events[..i], c.events[i].node.id, j))
  {
    AlwaysOk(cmp, s0, run);
    var c := After(s0, run).procs[k].client;
    EventStreamRefinesSnapshot(c, id);
    forall i | 0 <= i < |c.events| && c.events[i].removal
      ensures exists j: nat :: AddedSince(c.events[..i], c.events[i].node.id, j)
    {
      LastOfferIsLatest(c.events[..i], c.events[i].node.id);
    }
  }

  /** As written, no update call for an (id, logical time) is repeated without a removal or another time in between. */
  lemma NothingDeliveredTwice(s0: System, run: seq<Action>, k: ProcId)
    requires IsStart(s0, ByLogicalTime) && Valid(s0, run) && k in After(s0, run).procs
    ensures NothingRepeated(After(s0, run).procs[k].client.events)
  {
    AlwaysOk(ByLogicalTime, s0, run);
    SameCompare(ByLogicalTime, s0, run, k);
  }

  lemma {:induction false} SameCompare(cmp: Compare, s0: System, run: seq<Action>, k: ProcId)
    requires IsStart(s0, cmp) && Valid(s0, run) && k in After(s0, run).procs
    ensures After(s0, run).procs[k].client.cmp == cmp
  {
    if run != [] {
      SameCompare(cmp, s0, Front(run), k);
    }
  }

  /** A failed removal is offered again at every later diff, until one succeeds or the peer is listed again. */
  lemma FailedRemovalIsRetried(cmp: Compare, s0: System, run: seq<Action>, k: ProcId, id: NodeId, i: nat)
    requires IsStart(s0, cmp) && Valid(s0, run) && k in After(s0, run).procs
    requires After(s0, run).procs[k].phase.Listed?
    requires var evs := After(s0, run).procs[k].client.events;
             && i < |evs| && evs[i].node.id == id && evs[i].removal && !evs[i].ok
             && forall j :: i < j < |evs| ==> !(evs[j].node.id == id && evs[j].removal && evs[j].ok)
    ensures var p := After(s0, run).procs[k];
            id in Removed(p.client.self, p.client.peers, p.phase.listing) <==> id !in p.phase.listing
  {
    AlwaysOk(cmp, s0, run);
    var p := After(s0, run).procs[k];
    FailedRemovalStaysKnown(p.client.events, id, i);
    DiffFromHistory(p.client, p.phase.listing, id);
  }

  /**
   A failed update is meant to be offered again at the next diff.  With stamps compared it is, always.
   As written it is exactly when the logical time has changed; OfferHistory says what that means for the
   registration behind it.
   */
  lemma FailedUpdateIsRetried(cmp: Compare, s0: System, run: seq<Action>, k: ProcId, id: NodeId)
    requires IsStart(s0, cmp) && Valid(s0, run) && k in After(s0, run).procs
    requires var p := After(s0, run).procs[k];
             && p.phase.Listed? && id in p.phase.listing
             && LastOffer(p.client.events, id).Some? && !LastOffer(p.client.events, id).value.ok
    ensures var p := After(s0, run).procs[k];
            id in Updated(cmp, p.client.self, p.client.peers, p.phase.listing) <==>
            (cmp.ByLogicalTime? ==>
               LastOffer(p.client.events, id).value.node.logicalTime != p.phase.listing[id].logicalTime)
  {
    AlwaysOk(cmp, s0, run);
    SameCompare(cmp, s0, run, k);
    var p := After(s0, run).procs[k];
    DiffFromHistory(p.client, p.phase.listing, id);
  }

  /**
   With stamps compared, a proxy that is up to date has handed its handler exactly the server's table
   without itself: nothing that failed is left behind.
   */
  lemma StampDiffDeliversTheTable(s0: System, run: seq<Action>, k: ProcId)
    requires IsStart(s0, ByLastUpdate) && Valid(s0, run) && k in After(s0, run).procs
    ensures var s := After(s0, run);
            var c := s.procs[k].client;
            Holds(s.admin.server, c.self, c.token) && c.last == s.admin.server.clock ==>
              Replay(c.events) == s.admin.server.nodes.Keys - {c.self}
  {
    AlwaysOk(ByLastUpdate, s0, run);
    SameCompare(ByLastUpdate, s0, run, k);
    var s := After(s0, run);
    var c := s.procs[k].client;
    if Holds(s.admin.server, c.self, c.token) && c.last == s.admin.server.clock {
      forall id
        ensures id in Replay(c.events) <==> id in s.admin.server.nodes && id != c.self
      {
        ReplayCharacterised(c.events, id);
        LastOfferIsLatest(c.events, id);
        assert id in Listing(s.admin.server) <==> id in s.admin.server.nodes;
      }
    }
  }

  /**
   A poll in which nothing happens at the server between refresh, listing and commit: if every handler call
   succeeds the proxy is up to date, its snapshot the server's table; if one fails its clock stays.
   */
  lemma QuietPollCommits(cmp: Compare, s0: System, run: seq<Action>, k: ProcId, now: nat, commit: Action)
    requires IsStart(s0, cmp) && commit.Commit? && commit.k == k
    requires Valid(s0, run) && Valid(s0, run + [RefreshValid(k, now)] + [ListPeers(k)] + [commit])
    ensures var s, s' := After(s0, run), After(s0, run + [RefreshValid(k, now)] + [ListPeers(k)] + [commit]);
            && k in s.procs && k in s'.procs
            && var c, c' := s.procs[k].client, s'.procs[k].client;
            && c'.events == c.events + commit.downs + commit.ups
            && s'.admin.server.clock == s.admin.server.clock && Listing(s'.admin.server) == Listing(s.admin.server)
            && c'.last == (if AllOk(commit.downs + commit.ups) then s.admin.server.clock else c.last)
            && (AllOk(commit.downs + commit.ups) ==> c'.peers == Listing(s.admin.server))
  {
    var r1 := run + [RefreshValid(k, now)];
    var r2 := r1 + [ListPeers(k)];
    LastStep(s0, r2, commit);
    LastStep(s0, r1, ListPeers(k));
    LastStep(s0, run, RefreshValid(k, now));
    AlwaysOk(cmp, s0, r2 + [commit]);
    QuietPoll(After(s0, run), k, now, commit);
    HeldByThen(After(s0, run), k, now, commit);
  }

  lemma LastStep(s0: System, run: seq<Action>, a: Action)
    requires Valid(s0, run + [a])
    ensures Valid(s0, run) && Enabled(After(s0, run), a) && After(s0, run + [a]) == Step(After(s0, run), a)
  {
    assert Front(run + [a]) == run;
  }

  /** A refresh and a listing in a row. */
  lemma Lists(s: System, k: ProcId, now: nat)
    requires Enabled(s, RefreshValid(k, now)) && Enabled(Step(s, RefreshValid(k, now)), ListPeers(k))
    ensures var s' := Step(Step(s, RefreshValid(k, now)), ListPeers(k));
            && k in s.procs && k in s'.procs
            && s'.procs[k] == Proc(s.procs[k].client, Listed(s.admin.server.clock, Listing(s.admin.server)))
            && s'.admin.server.clock == s.admin.server.clock && Listing(s'.admin.server) == Listing(s.admin.server)
            && Holds(s'.admin.server, s.procs[k].client.self, s.procs[k].client.token)
  {
    var c := s.procs[k].client;
    M.RefreshIsInvisible(s.admin, c.self, c.token, now);
  }

  lemma QuietPoll(s: System, k: ProcId, now: nat, commit: Action)
    requires Enabled(s, RefreshValid(k, now)) && Enabled(Step(s, RefreshValid(k, now)), ListPeers(k))
    requires Enabled(Step(Step(s, RefreshValid(k, now)), ListPeers(k)), commit) && commit.Commit? && commit.k == k
    ensures var s' := Step(Step(Step(s, RefreshValid(k, now)), ListPeers(k)), commit);
            && k in s.procs && k in s'.procs
            && var c, c' := s.procs[k].client, s'.procs[k].client;
            && c'.events == c.events + commit.downs + commit.ups
            && s'.admin.server.clock == s.admin.server.clock && Listing(s'.admin.server) == Listing(s.admin.server)
            && c'.last == (if AllOk(commit.downs + commit.ups) then s.admin.server.clock else c.last)
  {
    Lists(s, k, now);
    ClockCommits(s.procs[k].client, s.admin.server.clock, Listing(s.admin.server),
                 commit.failRemove, commit.failAdd, commit.downs, commit.ups);
  }

  lemma HeldByThen(s: System, k: ProcId, now: nat, commit: Action)
    requires Enabled(s, RefreshValid(k, now)) && Enabled(Step(s, RefreshValid(k, now)), ListPeers(k))
    requires Enabled(Step(Step(s, RefreshValid(k, now)), ListPeers(k)), commit) && commit.Commit? && commit.k == k
    ensures var s' := Step(Step(Step(s, RefreshValid(k, now)), ListPeers(k)), commit);
            && k in s.procs && k in s'.procs
            && s'.procs[k].client.self == s.procs[k].client.self && s'.procs[k].client.token == s.procs[k].client.token
            && Holds(s'.admin.server, s'.procs[k].client.self, s'.procs[k].client.token)
  {
    Lists(s, k, now);
  }

  /** Whenever the server holds an idle proxy's token, such a poll is possible: every proxy can catch up. */
  lemma CanCatchUp(cmp: Compare, s0: System, run: seq<Action>, k: ProcId) returns (longer: seq<Action>)
    requires IsStart(s0, cmp) && Valid(s0, run) && k in After(s0, run).procs && After(s0, run).procs[k].phase.Idle?
    requires var c := After(s0, run).procs[k].client; Holds(After(s0, run).admin.server, c.self, c.token)
    ensures Valid(s0, longer) && run <= longer && k in After(s0, longer).procs
    ensures var s, s' := After(s0, run), After(s0, longer);
            var c' := s'.procs[k].client;
            && Holds(s'.admin.server, c'.self, c'.token)
            && c'.last == s'.admin.server.clock == s.admin.server.clock && c'.peers == Listing(s.admin.server)
  {
    var s := After(s0, run);
    var c := s.procs[k].client;
    AlwaysOk(cmp, s0, run);
    longer := run;
    if c.last != s.admin.server.clock {
      var listing := Listing(s.admin.server);
      M.RefreshIsInvisible(s.admin, c.self, c.token, 0);
      longer := Grow(s0, longer, RefreshValid(k, 0));
      longer := Grow(s0, longer, ListPeers(k));
      var downs := SomeOffers(Removed(c.self, c.peers, listing), true, {});
      var ups := SomeOffers(Updated(c.cmp, c.self, c.peers, listing), false, {});
      var commit := Commit(k, {}, {}, downs, ups);
      longer := Grow(s0, longer, commit);
      AllFine(c, listing, downs, ups);
      QuietPollCommits(cmp, s0, run, k, 0, commit);
      HeldByThen(s, k, 0, commit);
    }
  }

  /** A proxy that is about to register, or has to again, gets in when the list allows it. */
  lemma CanJoin(s0: System, run: seq<Action>, k: ProcId, op: M.Op, name: string, token: Token, now: nat)
    returns (longer: seq<Action>)
    requires Valid(s0, run) && k in After(s0, run).procs
    requires var s := After(s0, run);
             && (s.procs[k].phase.Joining? || s.procs[k].phase.Invalid?)
             && op !in s.admin.ops && token != "" && token !in s.admin.issued && 0 < now
             && s.procs[k].client.self != "" && name != "" && s.procs[k].client.self in s.admin.server.acl
    ensures Valid(s0, longer) && run <= longer && After(s0, longer).procs.Keys == After(s0, run).procs.Keys
    ensures var s, s' := After(s0, run), After(s0, longer);
            && s'.procs[k].phase.Idle? && s'.procs[k].client.token == token
            && Holds(s'.admin.server, s.procs[k].client.self, token)
            && s'.procs[k].client.self == s.procs[k].client.self
            && s'.procs[k].client.events == s.procs[k].client.events
            && s'.procs[k].client.peers == s.procs[k].client.peers
            && (forall j :: j in s.procs && j != k ==> s'.procs[j] == s.procs[j])
  {
    var id := After(s0, run).procs[k].client.self;
    M.RegisterIsTwoSections(After(s0, run).admin, op, id, name, token, now);
    longer := Grow(s0, run, Admin(M.CheckAcl(op, id, name)));
    longer := Grow(s0, longer, Register(k, M.InsertNode(op, id, name, token, now)));
    longer := Grow(s0, longer, Install(k));
  }

  lemma AllFine(c: Client, listing: PeerMap, downs: seq<PeerEvent>, ups: seq<PeerEvent>)
    requires IsDelivery(c, listing, {}, {}, downs, ups)
    ensures AllOk(downs + ups)
  {
    OffersFacts(downs, Removed(c.self, c.peers, listing), true, {});
    OffersFacts(ups, Updated(c.cmp, c.self, c.peers, listing), false, {});
  }

  lemma Grow(s0: System, run: seq<Action>, a: Action) returns (longer: seq<Action>)
    requires Valid(s0, run) && Enabled(After(s0, run), a)
    ensures longer == run + [a] && Valid(s0, longer) && After(s0, longer) == Step(After(s0, run), a)
  {
    longer := run + [a];
    assert Front(longer) == run;
  }

  const B := Node("b", "B", 2, 2)

  /** Proxy "a" has joined, node "b" has registered after it, and "a" has not polled yet. */
  ghost predicate Joined(s: System) {
    && s.procs == map[0 := Proc(NewClient(ByLogicalTime, "a").(token := "ta"), Idle)]
    && Listing(s.admin.server) == map["a" := Node("a", "A", 1, 1), "b" := B]
    && s.admin.server.clock == 2 && Holds(s.admin.server, "a", "ta")
  }

  lemma BothChecked(s0: System) returns (run: seq<Action>)
    requires s0.admin == M.START
    ensures Valid(s0, run) && After(s0, run).procs == s0.procs
    ensures |run| == 4 && run[0].Admin? && run[1].Admin? && run[2].Admin? && run[3].Admin?
    ensures After(s0, run).admin ==
            M.State(EMPTY.(acl := {"a", "b"}), map[0 := ("a", "A"), 1 := ("b", "B")], map[], {0, 1}, {})
  {
    run := [];
    run := Grow(s0, run, Admin(M.Authorize("a")));
    run := Grow(s0, run, Admin(M.Authorize("b")));
    run := Grow(s0, run, Admin(M.CheckAcl(0, "a", "A")));
    run := Grow(s0, run, Admin(M.CheckAcl(1, "b", "B")));
  }

  lemma TwoNodesJoin() returns (s0: System, run: seq<Action>)
    ensures IsStart(s0, ByLogicalTime) && Valid(s0, run) && Joined(After(s0, run))
  {
    s0 := System(M.START, map[0 := Proc(NewClient(ByLogicalTime, "a"), Joining)]);
    run := BothChecked(s0);
    run := Grow(s0, run, Register(0, M.InsertNode(0, "a", "A", "ta", 1)));
    run := Grow(s0, run, Install(0));
    run := Grow(s0, run, Admin(M.InsertNode(1, "b", "B", "tb", 2)));
  }

  const FAILED := [PeerEvent(B, false, false)]

  /** One poll of "a" right after both joined, in which the update for "b" fails. */
  lemma FailedOnce() returns (s0: System, run: seq<Action>)
    ensures IsStart(s0, ByLogicalTime) && Valid(s0, run)
    ensures var s := After(s0, run);
            && 0 in s.procs && s.procs[0].phase.Idle?
            && s.procs[0].client ==
               Client(ByLogicalTime, "a", "ta", 0, map["a" := Node("a", "A", 1, 1), "b" := B.(lastUpdate := 0)], FAILED)
            && s.admin.server.clock == 2
            && Holds(s.admin.server, "a", "ta") && Listing(s.admin.server) == map["a" := Node("a", "A", 1, 1), "b" := B]
  {
    s0, run := TwoNodesJoin();
    assert Updated(ByLogicalTime, "a", map[], Listing(After(s0, run).admin.server)) == map["b" := B];
    assert Front(FAILED) == [];
    run := Poll(s0, run, {"b"}, FAILED, map["b" := B]);
    assert "b" in Failed(map["b" := B], {"b"});
  }

  /** As written, one failed update leaves a proxy that is up to date and whose handler never heard of the peer. */
  lemma LogicalTimeDiffLosesAnUpdate() returns (s0: System, run: seq<Action>)
    ensures && IsStart(s0, ByLogicalTime) && Valid(s0, run)
            && var s := After(s0, run);
            && 0 in s.procs
            && var c := s.procs[0].client;
            && Holds(s.admin.server, c.self, c.token) && c.last == s.admin.server.clock
            && c.self == "a" && "b" in s.admin.server.nodes && "b" !in Replay(c.events)
  {
    s0, run := FailedOnce();
    var c := After(s0, run).procs[0].client;
    assert Updated(ByLogicalTime, "a", c.peers, Listing(After(s0, run).admin.server)) == map[];
    run := Poll(s0, run, {}, [], map[]);
    assert FAILED + [] + [] == FAILED && Front(FAILED) == [];
    assert "b" in Listing(After(s0, run).admin.server);
  }

  /** Proxy 0 refreshes, lists and commits without anything else happening. */
  lemma Poll(s0: System, run: seq<Action>, failAdd: set<NodeId>, ups: seq<PeerEvent>, updated: PeerMap)
    returns (longer: seq<Action>)
    requires Valid(s0, run)
    requires var s := After(s0, run);
             && 0 in s.procs && s.procs[0].phase.Idle?
             && var c := s.procs[0].client;
             && Holds(s.admin.server, c.self, c.token) && c.last != s.admin.server.clock
             && Removed(c.self, c.peers, Listing(s.admin.server)) == map[]
             && Updated(c.cmp, c.self, c.peers, Listing(s.admin.server)) == updated
             && Offers(ups, updated, false, failAdd)
    ensures Valid(s0, longer)
    ensures var s, s' := After(s0, run), After(s0, longer);
            && 0 in s'.procs && s'.procs[0].phase.Idle?
            && s'.procs[0].client ==
               Committed(s.procs[0].client, s.admin.server.clock, Listing(s.admin.server), {}, failAdd, [], ups)
            && s'.admin.server.clock == s.admin.server.clock && Listing(s'.admin.server) == Listing(s.admin.server)
            && Holds(s'.admin.server, s.procs[0].client.self, s.procs[0].client.token)
  {
    var s := After(s0, run);
    M.RefreshIsInvisible(s.admin, s.procs[0].client.self, s.procs[0].client.token, 9);
    longer := Grow(s0, run, RefreshValid(0, 9));
    longer := Grow(s0, longer, ListPeers(0));
    longer := Grow(s0, longer, Commit(0, {}, failAdd, [], ups));
  }
}
