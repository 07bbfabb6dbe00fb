/**
 Which registration an offer was about, and when the next diff notices that it has been replaced.

 Every step of a mesh is one section at the server, so the theorems about the server's runs apply to the
 mesh's runs position by position.  Logical times repeat after a restart of the admin, but a proxy's session
 does not outlive one: the key it is encrypted under is new at every start (pkg/admin/server.go:243), every
 call of the loop needs it (pkg/admin/server.go:121-124), and a proxy logs in only when it starts
 (pkg/mesh/service.go:393,469).
 */
module OfferHistory {
  import opened Basics
  import opened Membership
  import opened Discovery
  import opened DiscoveryRuns
  import M = MembershipRuns

  // ---------------------------------------------------------------- the server's history inside a mesh's

  ghost function AdminLog(s0: System, run: seq<Action>): (log: seq<M.Event>)
    requires Valid(s0, run)
    ensures |log| == |run|
  {
    if run == [] then [] else AdminLog(s0, Front(run)) + [ServerEvent(After(s0, Front(run)), Last(run))]
  }

  lemma {:induction false} AdminLogIsARun(cmp: Compare, s0: System, run: seq<Action>)
    requires IsStart(s0, cmp) && Valid(s0, run)
    ensures M.Valid(AdminLog(s0, run)) && M.After(AdminLog(s0, run)) == After(s0, run).admin
  {
    if run != [] {
      var p := Front(run);
      AdminLogIsARun(cmp, s0, p);
      assert Front(AdminLog(s0, run)) == AdminLog(s0, p);
    }
  }

  lemma {:induction false} AdminLogPrefix(s0: System, run: seq<Action>, i: nat)
    requires Valid(s0, run) && i <= |run|
    ensures Valid(s0, run[..i]) && AdminLog(s0, run)[..i] == AdminLog(s0, run[..i])
    ensures i < |run| ==> (AdminLog(s0, run)[i].Restart? <==> run[i].Admin? && run[i].e.Restart?)
  {
    if i == |run| {
      assert run[..i] == run;
    } else {
      AdminLogPrefix(s0, Front(run), i);
      assert Front(run)[..i] == run[..i];
      assert AdminLog(s0, run)[..i] == AdminLog(s0, Front(run))[..i];
    }
  }

  /** The server before step `i`. */
  ghost function ServerAt(s0: System, run: seq<Action>, i: nat): Server
    requires i <= |run| && Valid(s0, run[..i])
  {
    After(s0, run[..i]).admin.server
  }

  ghost predicate NoRestart(run: seq<Action>, i: nat, j: nat)
    requires i <= j <= |run|
  {
    forall k :: i <= k < j ==> !(run[k].Admin? && run[k].e.Restart?)
  }

  /** The calls of a proxy's loop that the admin answered. */
  predicate Served(a: Action, k: ProcId) {
    (a.RefreshValid? || a.Register? || a.ListPeers?) && a.k == k
  }

  /** The admin answers a proxy within one of its lifetimes only. */
  ghost predicate OneSession(run: seq<Action>, k: ProcId) {
    forall i, j :: 0 <= i <= j < |run| && Served(run[i], k) && Served(run[j], k) ==> NoRestart(run, i, j)
  }

  // ---------------------------------------------------------------- where listings and offers come from

  predicate UsesListing(a: Action, k: ProcId) {
    (a.ListPeers? || a.Commit?) && a.k == k
  }

  /** The listing in hand is the table at step `j`; nothing has been listed or committed since. */
  ghost predicate ListedAt(s0: System, run: seq<Action>, k: ProcId, listing: PeerMap, j: nat) {
    && j < |run| && run[j] == ListPeers(k) && Valid(s0, run[..j]) && listing == Listing(ServerAt(s0, run, j))
    && forall i :: j < i < |run| ==> !UsesListing(run[i], k)
  }

  /** Step `q` made the offer, an update call for the node listed at step `i`, the proxy's last listing before. */
  ghost predicate OfferedAt(s0: System, run: seq<Action>, k: ProcId, offer: PeerEvent, i: nat, q: nat) {
    && i < q < |run| && run[i] == ListPeers(k) && Valid(s0, run[..i])
    && run[q].Commit? && run[q].k == k && offer in run[q].ups && !offer.removal
    && (forall x :: i < x < q ==> !UsesListing(run[x], k))
    && var listing := Listing(ServerAt(s0, run, i));
    offer.node.id in listing && offer.node == listing[offer.node.id]
  }

  lemma {:induction false} ListedFrom(cmp: Compare, s0: System, run: seq<Action>, k: ProcId) returns (j: nat)
    requires IsStart(s0, cmp) && Valid(s0, run) && k in After(s0, run).procs && After(s0, run).procs[k].phase.Listed?
    ensures ListedAt(s0, run, k, After(s0, run).procs[k].phase.listing, j)
  {
    var p, a := Front(run), Last(run);
    if a == ListPeers(k) {
      j := |run| - 1;
      assert run[..j] == p;
    } else {
      j := ListedFrom(cmp, s0, p, k);
      assert p[..j] == run[..j];
    }
  }

  /** A step offers a listed node and thereby sets its last offer, or makes no new one for the id. */
  lemma OfferStep(s: System, a: Action, k: ProcId, id: NodeId)
    requires DiscoveryRuns.Ok(s) && Enabled(s, a) && k in s.procs
    ensures var offer := LastOffer(Step(s, a).procs[k].client.events, id);
            offer.Some? ==>
              || offer == LastOffer(s.procs[k].client.events, id)
              || (&& a.Commit? && a.k == k && offer.value in a.ups && !offer.value.removal && offer.value.node.id == id
                  && id in s.procs[k].phase.listing && offer.value.node == s.procs[k].phase.listing[id])
  {
    if a.Commit? && a.k == k {
      var p := s.procs[k];
      var updated := Updated(p.client.cmp, p.client.self, p.client.peers, p.phase.listing);
      DeliveryAt(p.client, p.phase.listing, a.failRemove, a.failAdd, a.downs, a.ups, id);
      OffersFacts(a.ups, updated, false, a.failAdd);
      if id in updated {
        var x :| 0 <= x < |a.ups| && a.ups[x].node.id == id;
        assert a.ups[x] in a.ups;
      }
    }
  }

  lemma OfferedEarlier(s0: System, run: seq<Action>, k: ProcId, offer: PeerEvent, i: nat, q: nat)
    requires run != [] && OfferedAt(s0, Front(run), k, offer, i, q)
    ensures OfferedAt(s0, run, k, offer, i, q)
  {
    assert Front(run)[..i] == run[..i];
    assert forall x :: 0 <= x <= q ==> Front(run)[x] == run[x];
  }

  lemma OfferedNow(s0: System, run: seq<Action>, k: ProcId, listing: PeerMap, offer: PeerEvent, i: nat)
    requires run != [] && Last(run).Commit? && Last(run).k == k && offer in Last(run).ups && !offer.removal
    requires ListedAt(s0, Front(run), k, listing, i)
    requires offer.node.id in listing && offer.node == listing[offer.node.id]
    ensures OfferedAt(s0, run, k, offer, i, |run| - 1)
  {
    assert Front(run)[..i] == run[..i];
    assert forall x :: 0 <= x < |run| - 1 ==> Front(run)[x] == run[x];
  }

  lemma {:induction false} OfferedFrom(cmp: Compare, s0: System, run: seq<Action>, k: ProcId, id: NodeId)
    returns (i: nat, q: nat)
    requires IsStart(s0, cmp) && Valid(s0, run) && k in After(s0, run).procs
    requires LastOffer(After(s0, run).procs[k].client.events, id).Some?
    ensures OfferedAt(s0, run, k, LastOffer(After(s0, run).procs[k].client.events, id).value, i, q)
    ensures LastOffer(After(s0, run).procs[k].client.events, id).value.node.id == id
  {
    var p, a := Front(run), Last(run);
    var offer := LastOffer(After(s0, run).procs[k].client.events, id);
    AlwaysOk(cmp, s0, p);
    OfferStep(After(s0, p), a, k, id);
    if offer == LastOffer(After(s0, p).procs[k].client.events, id) {
      i, q := OfferedFrom(cmp, s0, p, k, id);
      OfferedEarlier(s0, run, k, offer.value, i, q);
    } else {
      i := ListedFrom(cmp, s0, p, k);
      q := |run| - 1;
      OfferedNow(s0, run, k, After(s0, p).procs[k].phase.listing, offer.value, i);
    }
  }

  // ---------------------------------------------------------------- when an offer is repeated

  /** Between two moments without a restart, equal logical times mean the same registration, token included. */
  lemma SameTimeSameEntry(cmp: Compare, s0: System, run: seq<Action>, i: nat, j: nat, id: NodeId)
    requires IsStart(s0, cmp) && Valid(s0, run) && i <= j <= |run| && NoRestart(run, i, j)
    requires Valid(s0, run[..i]) && Valid(s0, run[..j])
    requires id in ServerAt(s0, run, i).nodes && id in ServerAt(s0, run, j).nodes
    ensures ServerAt(s0, run, i).nodes[id].node.logicalTime == ServerAt(s0, run, j).nodes[id].node.logicalTime <==>
            Entries(ServerAt(s0, run, i))[id] == Entries(ServerAt(s0, run, j))[id]
  {
    var log := AdminLog(s0, run);
    AdminLogIsARun(cmp, s0, run);
    AdminLogIsARun(cmp, s0, run[..i]);
    AdminLogIsARun(cmp, s0, run[..j]);
    AdminLogPrefix(s0, run, i);
    AdminLogPrefix(s0, run, j);
    forall k | i <= k < j
      ensures !log[k].Restart?
    {
      AdminLogPrefix(s0, run, k);
    }
    if ServerAt(s0, run, i).nodes[id].node.logicalTime == ServerAt(s0, run, j).nodes[id].node.logicalTime {
      M.SameTimeSameRegistration(log, i, j, id);
    }
  }

  /**
   As written, a listed peer offered before is offered again exactly when it is no longer the registration it
   was at the listing the offer was made from, token included: in every run in which the proxy keeps its
   session, whatever restarts there are.  Step `q` made the offer from the listing at `i`; the listing in hand
   is from `j`.  Comparing logical times is all the code does, and it is enough.
   */
  lemma OfferedAgainExactly(s0: System, run: seq<Action>, k: ProcId, id: NodeId) returns (i: nat, q: nat, j: nat)
    requires IsStart(s0, ByLogicalTime) && Valid(s0, run) && k in After(s0, run).procs && OneSession(run, k)
    requires var p := After(s0, run).procs[k];
             p.phase.Listed? && id in p.phase.listing && LastOffer(p.client.events, id).Some?
    ensures var p := After(s0, run).procs[k];
            && OfferedAt(s0, run, k, LastOffer(p.client.events, id).value, i, q)
            && ListedAt(s0, run, k, p.phase.listing, j) && q < j
    ensures id in ServerAt(s0, run, i).nodes && id in ServerAt(s0, run, j).nodes
    ensures var p := After(s0, run).procs[k];
            var was, since := Entries(ServerAt(s0, run, i))[id], Entries(ServerAt(s0, run, j))[id];
            && (id in Updated(ByLogicalTime, p.client.self, p.client.peers, p.phase.listing) <==> was != since)
            && (was != since <==> was.0.logicalTime != since.0.logicalTime)
  {
    var p := After(s0, run).procs[k];
    j := ListedFrom(ByLogicalTime, s0, run, k);
    i, q := OfferedFrom(ByLogicalTime, s0, run, k, id);
    assert Served(run[i], k) && Served(run[j], k) && UsesListing(run[q], k);
    AlwaysOk(ByLogicalTime, s0, run);
    SameCompare(ByLogicalTime, s0, run, k);
    DiffFromHistory(p.client, p.phase.listing, id);
    SameTimeSameEntry(ByLogicalTime, s0, run, i, j, id);
  }
}
