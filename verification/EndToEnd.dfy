/**
 From the admin's table to a forwarded request: what discovery, the handler calls, the routing table and
 the routing decision guarantee together.

 `Handled` ties the calls discovery made to the changes of the routing table: failed calls change nothing,
 successful ones remove the peer or add the models it announced.
 */
module EndToEnd {
  import opened Basics
  import opened ModelTable
  import opened Churn
  import Proxy
  import D = Discovery
  import R = DiscoveryRuns
  import Admin = Membership

  ghost predicate Handled(calls: seq<D.PeerEvent>, evs: seq<Event>) {
    if calls == [] then evs == []
    else if !Last(calls).ok then Handled(Front(calls), evs)
    else
      && evs != [] && Handled(Front(calls), Front(evs))
      && var node := Last(calls).node;
      if Last(calls).removal then Last(evs) == Removed(node.id)
      else Last(evs).Added? && Last(evs).p == PeerNode(node.id, node.name) && FromWire(Last(evs).models)
  }

  /** The table after the node scanned its own providers: only the node itself is listed, where it has providers. */
  ghost predicate OwnTable(t: Table, self: NodeId) {
    forall m :: m in t ==> IsLocal(t[m]) && forall q :: q in t[m].peers ==> q == self && t[m].peers[q].id == q
  }

  /** What a scan of the node's own providers yields. */
  predicate IsScan(routes: Table) {
    forall m :: m in routes ==> routes[m].providers != [] && routes[m].peers == map[]
  }

  /** It is the table after any number of scans. */
  lemma {:induction false} ScansGiveOwnTable(self: PeerNode, scans: seq<Event>)
    requires forall i :: 0 <= i < |scans| ==> scans[i].Added? && scans[i].p == self && IsScan(scans[i].models)
    ensures OwnTable(AsWritten(map[], scans), self.id)
  {
    if scans != [] {
      ScansGiveOwnTable(self, Front(scans));
    }
  }

  lemma {:induction false} HandledIsFromWire(calls: seq<D.PeerEvent>, evs: seq<Event>)
    requires Handled(calls, evs)
    ensures AllFromWire(evs)
  {
    if calls != [] {
      HandledIsFromWire(Front(calls), if Last(calls).ok then Front(evs) else evs);
    }
  }

  /**
   Whoever the table lists, as written, is in the replay of the calls, or is the node itself where it has providers.
   */
  lemma {:induction false} ListedIsReplayed(self: NodeId, t: Table, calls: seq<D.PeerEvent>, evs: seq<Event>, m: Name,
                                            q: NodeId)
    requires OwnTable(t, self) && Handled(calls, evs)
    requires forall k :: 0 <= k < |calls| ==> calls[k].node.id != self
    requires m in AsWritten(t, evs) && q in AsWritten(t, evs)[m].peers
    ensures AsWritten(t, evs)[m].peers[q].id == q
    ensures if q == self then IsLocal(AsWritten(t, evs)[m]) else q in D.Replay(calls)
  {
    if calls != [] {
      var e := Last(calls);
      if !e.ok {
        ListedIsReplayed(self, t, Front(calls), evs, m, q);
      } else if !Names(Last(evs), m) {
        UnnamedStep(AsWritten(t, Front(evs)), Last(evs), m);
        ListedIsReplayed(self, t, Front(calls), Front(evs), m, q);
      }
    }
  }

  /** Whom an up-to-date proxy's successful calls leave behind is registered, and is not the proxy itself. */
  lemma ReplayedIsRegistered(cmp: D.Compare, s0: R.System, run: seq<R.Action>, k: R.ProcId, q: NodeId)
    requires R.IsStart(s0, cmp) && R.Valid(s0, run) && k in R.After(s0, run).procs
    requires var s := R.After(s0, run);
             var c := s.procs[k].client;
             Admin.Holds(s.admin.server, c.self, c.token) && c.last == s.admin.server.clock && q in D.Replay(c.events)
    ensures q in R.After(s0, run).admin.server.nodes && q != R.After(s0, run).procs[k].client.self
  {
    R.AlwaysOk(cmp, s0, run);
    D.EventStreamRefinesSnapshot(R.After(s0, run).procs[k].client, q);
    assert q in Admin.Listing(R.After(s0, run).admin.server);
  }

  /**
   An up-to-date proxy forwards only to nodes that are registered with the admin right now, and never to
   itself: over every run of the mesh, for any handler failures, as the code is written.
   */
  lemma ForwardsReachMembers(cmp: D.Compare, s0: R.System, run: seq<R.Action>, k: R.ProcId,
                             t: Table, evs: seq<Event>, path: string, requested: string, d: Proxy.Decision)
    requires R.IsStart(s0, cmp) && R.Valid(s0, run) && k in R.After(s0, run).procs
    requires var s := R.After(s0, run);
             var c := s.procs[k].client;
             && Admin.Holds(s.admin.server, c.self, c.token) && c.last == s.admin.server.clock
             && OwnTable(t, c.self) && Handled(c.events, evs)
    requires Proxy.Handles(AsWritten(t, evs), path, false, requested, d) && d.Forward?
    ensures var s := R.After(s0, run);
            d.dest.id in s.admin.server.nodes && d.dest.id != s.procs[k].client.self
  {
    var c := R.After(s0, run).procs[k].client;
    var model := Proxy.ToLower(requested);
    R.AlwaysOk(cmp, s0, run);
    var q :| q in AsWritten(t, evs)[model].peers && AsWritten(t, evs)[model].peers[q] == d.dest;
    ListedIsReplayed(c.self, t, c.events, evs, model, q);
    ReplayedIsRegistered(cmp, s0, run, k, q);
  }

  /** Peer `q` announced models at step `i` and has not been removed since. */
  ghost predicate AnnouncedAt(evs: seq<Event>, q: NodeId, i: nat) {
    i < |evs| && evs[i].Added? && evs[i].p.id == q && !RemovedAfter(evs, i, q)
  }

  lemma {:induction false} ReplayedIsAnnounced(calls: seq<D.PeerEvent>, evs: seq<Event>, q: NodeId)
    requires Handled(calls, evs) && q in D.Replay(calls)
    ensures exists i: nat :: AnnouncedAt(evs, q, i)
  {
    var e := Last(calls);
    if !e.ok {
      ReplayedIsAnnounced(Front(calls), evs, q);
    } else if !e.removal && e.node.id == q {
      assert AnnouncedAt(evs, q, |evs| - 1);
    } else {
      ReplayedIsAnnounced(Front(calls), Front(evs), q);
      var i: nat :| AnnouncedAt(Front(evs), q, i);
      RemovedAfterStep(evs, i, q);
      assert AnnouncedAt(evs, q, i);
    }
  }

  lemma AnnouncedIsListed(t: Table, evs: seq<Event>, q: NodeId, i: nat, m: Name)
    requires AllFromWire(evs) && AnnouncedAt(evs, q, i) && m in evs[i].models
    ensures m in AsMeant(t, evs) && q in AsMeant(t, evs)[m].peers
  {
    assert Announced(evs, m, q, i);
    MergeAccumulates(t, evs, m);
  }

  /**
   With both intended steps in place, an up-to-date proxy has an announcement of every registered node, lists
   that node for every model it announced since it was last removed, and keeps its own providers.
   */
  lemma IntendedTableIsComplete(s0: R.System, run: seq<R.Action>, k: R.ProcId, t: Table, evs: seq<Event>, q: NodeId)
    requires R.IsStart(s0, D.ByLastUpdate) && R.Valid(s0, run) && k in R.After(s0, run).procs
    requires var s := R.After(s0, run);
             var c := s.procs[k].client;
             && Admin.Holds(s.admin.server, c.self, c.token) && c.last == s.admin.server.clock
             && Handled(c.events, evs) && q in s.admin.server.nodes && q != c.self
    ensures exists i: nat :: AnnouncedAt(evs, q, i)
    ensures forall i: nat, m :: AnnouncedAt(evs, q, i) && m in evs[i].models ==>
                                  m in AsMeant(t, evs) && q in AsMeant(t, evs)[m].peers
    ensures forall m :: m in t ==> m in AsMeant(t, evs) && AsMeant(t, evs)[m].providers == t[m].providers
  {
    var c := R.After(s0, run).procs[k].client;
    R.StampDiffDeliversTheTable(s0, run, k);
    ReplayedIsAnnounced(c.events, evs, q);
    HandledIsFromWire(c.events, evs);
    forall i: nat, m | AnnouncedAt(evs, q, i) && m in evs[i].models {
      AnnouncedIsListed(t, evs, q, i, m);
    }
    forall m | m in t {
      MergeAccumulates(t, evs, m);
    }
  }
}
