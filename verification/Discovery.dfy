/**
 The discovery loop of a proxy (pkg/mesh/discovery.go): the diff against the last snapshot, the
 handler calls it fires, and what the stream of those calls says about the snapshot.

 The diff exists twice in the repository.  The one the loop runs compares logical times; the unused
 twin in pkg/mesh/service.go compares update stamps, which is what the reset of a failed node's stamp
 is meant for.  `Compare` selects between them, so every statement names the variant it is about.
 */
module Discovery {
  import opened Basics
  import opened Membership

  type PeerMap = map<NodeId, Node>

  datatype Compare = ByLogicalTime | ByLastUpdate

  function Mark(cmp: Compare, n: Node): nat {
    match cmp
    case ByLogicalTime => n.logicalTime
    case ByLastUpdate => n.lastUpdate
  }

  ghost predicate WellKeyed(m: PeerMap) {
    forall id :: id in m ==> m[id].id == id
  }

  function Updated(cmp: Compare, self: NodeId, before: PeerMap, current: PeerMap): PeerMap {
    current - (set id | id in current &&
                        (id == self || (id in before && Mark(cmp, before[id]) == Mark(cmp, current[id]))))
  }

  function Removed(self: NodeId, before: PeerMap, current: PeerMap): PeerMap {
    before - (current.Keys + {self})
  }

  /** diffNodes, filling its two result maps in whatever order the maps are iterated. */
  method DiffNodes(cmp: Compare, self: NodeId, before: PeerMap, current: PeerMap)
    returns (addedOrChanged: PeerMap, removed: PeerMap)
    ensures addedOrChanged == Updated(cmp, self, before, current)
    ensures removed == Removed(self, before, current)
    ensures addedOrChanged.Keys !! removed.Keys
  {
    addedOrChanged, removed := map[], map[];
    var todo := current.Keys;
    while todo != {}
      invariant todo <= current.Keys
      invariant forall id :: id in addedOrChanged <==> id in Updated(cmp, self, before, current) && id !in todo
      invariant forall id :: id in addedOrChanged ==> addedOrChanged[id] == current[id]
    {
      var id :| id in todo;
      todo := todo - {id};
      if id == self {
        continue;
      }
      if id !in before || Mark(cmp, before[id]) != Mark(cmp, current[id]) {
        addedOrChanged := addedOrChanged[id := current[id]];
      }
    }
    todo := before.Keys;
    while todo != {}
      invariant todo <= before.Keys
      invariant forall id :: id in removed <==> id in Removed(self, before, current) && id !in todo
      invariant forall id :: id in removed ==> removed[id] == before[id]
    {
      var id :| id in todo;
      todo := todo - {id};
      if id == self {
        continue;
      }
      if id !in current {
        removed := removed[id := before[id]];
      }
    }
  }

  /** What the diff says, id by id. */
  lemma DiffExactly(cmp: Compare, self: NodeId, before: PeerMap, current: PeerMap, id: NodeId)
    ensures var updated, removed := Updated(cmp, self, before, current), Removed(self, before, current);
            && (id in updated <==>
                && id in current && id != self && (id in before ==> Mark(cmp, before[id]) != Mark(cmp, current[id])))
            && (id in removed <==> id in before && id !in current && id != self)
            && (id in updated ==> updated[id] == current[id])
            && (id in removed ==> removed[id] == before[id])
            && Mark(ByLogicalTime, Node(id, "", 1, 2)) == 1 && Mark(ByLastUpdate, Node(id, "", 1, 2)) == 2
  {
  }

  // ---------------------------------------------------------------- handler calls

  /** One call of the update handler and whether it returned without error. */
  datatype PeerEvent = PeerEvent(node: Node, removal: bool, ok: bool)

  /** `evs` is one call per node of `offered`, in some order, failing exactly on `fail`. */
  ghost predicate Offers(evs: seq<PeerEvent>, offered: PeerMap, removal: bool, fail: set<NodeId>) {
    if evs == [] then offered == map[]
    else
      var e := Last(evs);
      && e.node.id in offered && e == PeerEvent(offered[e.node.id], removal, e.node.id !in fail)
      && Offers(Front(evs), offered - {e.node.id}, removal, fail)
  }

  lemma {:induction false} OffersFacts(evs: seq<PeerEvent>, offered: PeerMap, removal: bool, fail: set<NodeId>)
    requires Offers(evs, offered, removal, fail)
    ensures forall k :: 0 <= k < |evs| ==>
                          && evs[k].node.id in offered
                          && evs[k] == PeerEvent(offered[evs[k].node.id], removal, evs[k].node.id !in fail)
    ensures forall id :: id in offered ==> exists k :: 0 <= k < |evs| && evs[k].node.id == id
    ensures forall j, k :: 0 <= j < k < |evs| ==> evs[j].node.id != evs[k].node.id
  {
    if evs != [] {
      var last := Last(evs).node.id;
      var rest := offered - {last};
      OffersFacts(Front(evs), rest, removal, fail);
      forall k | 0 <= k < |evs|
        ensures evs[k].node.id in offered
        ensures evs[k] == PeerEvent(offered[evs[k].node.id], removal, evs[k].node.id !in fail)
        ensures k < |evs| - 1 ==> evs[k].node.id in rest
      {
        if k < |evs| - 1 {
          assert Front(evs)[k] == evs[k];
        }
      }
      forall id | id in offered
        ensures exists k :: 0 <= k < |evs| && evs[k].node.id == id
      {
        if id == last {
          assert evs[|evs| - 1].node.id == id;
        } else {
          assert id in rest;
          var k :| 0 <= k < |Front(evs)| && Front(evs)[k].node.id == id;
          assert evs[k].node.id == id;
        }
      }
      forall j, k | 0 <= j < k < |evs|
        ensures evs[j].node.id != evs[k].node.id
      {
        if k < |evs| - 1 {
          assert Front(evs)[j].node.id != Front(evs)[k].node.id;
        } else {
          assert evs[j].node.id in rest;
        }
      }
    }
  }

  lemma {:induction false} OffersAvoid(evs: seq<PeerEvent>, offered: PeerMap, removal: bool, fail: set<NodeId>,
                                       id: NodeId)
    requires Offers(evs, offered, removal, fail) && id !in offered
    ensures forall k :: 0 <= k < |evs| ==> evs[k].node.id != id
  {
    if evs != [] {
      OffersAvoid(Front(evs), offered - {Last(evs).node.id}, removal, fail, id);
      assert forall k :: 0 <= k < |evs| - 1 ==> evs[k] == Front(evs)[k];
    }
  }

  /** The nodes of a batch whose handler call fails. */
  function Failed(offered: PeerMap, fail: set<NodeId>): PeerMap {
    offered - (offered.Keys - fail)
  }

  predicate AllOk(calls: seq<PeerEvent>) {
    forall k :: 0 <= k < |calls| ==> calls[k].ok
  }

  /** Nothing of a batch fails exactly when each of its calls returns without error. */
  lemma AllOkExactly(evs: seq<PeerEvent>, offered: PeerMap, removal: bool, fail: set<NodeId>)
    requires Offers(evs, offered, removal, fail)
    ensures Failed(offered, fail) == map[] <==> AllOk(evs)
  {
    OffersFacts(evs, offered, removal, fail);
    if AllOk(evs) {
      forall id | id in offered
        ensures id !in fail
      {
        var k :| 0 <= k < |evs| && evs[k].node.id == id;
      }
    } else {
      var k :| 0 <= k < |evs| && !evs[k].ok;
      assert evs[k].node.id in Failed(offered, fail);
    }
  }

  /** Every batch can be delivered, in some order. */
  lemma {:induction false} SomeOffers(offered: PeerMap, removal: bool, fail: set<NodeId>) returns (evs: seq<PeerEvent>)
    requires WellKeyed(offered)
    ensures Offers(evs, offered, removal, fail)
    decreases |offered|
  {
    evs := [];
    if offered != map[] {
      assert offered.Keys != {};
      var id :| id in offered;
      var rest := offered - {id};
      evs := SomeOffers(rest, removal, fail);
      evs := Offered(evs, rest, removal, fail, offered[id]);
      assert rest[id := offered[id]] == offered;
    }
  }

  function Unstamped(m: PeerMap): PeerMap {
    map id | id in m :: m[id].(lastUpdate := 0)
  }

  /** The new snapshot: nodes whose removal failed are kept, nodes whose update failed lose their stamp. */
  function Settle(listing: PeerMap, removed: PeerMap, updated: PeerMap, failRemove: set<NodeId>,
                  failAdd: set<NodeId>): PeerMap
  {
    listing + Failed(removed, failRemove) + Unstamped(Failed(updated, failAdd))
  }

  /** The variables of listenForPeerUpdates, with the handler calls made so far. */
  datatype Client = Client(cmp: Compare, self: NodeId, token: Token, last: nat, peers: PeerMap, events: seq<PeerEvent>)

  function NewClient(cmp: Compare, self: NodeId): Client {
    Client(cmp, self, "", 0, map[], [])
  }

  /** The client after a listing answered for clock `clock`, given which handler calls fail and their order. */
  function Committed(c: Client, clock: nat, listing: PeerMap, failRemove: set<NodeId>, failAdd: set<NodeId>,
                     downs: seq<PeerEvent>, ups: seq<PeerEvent>): Client
  {
    var removed, updated := Removed(c.self, c.peers, listing), Updated(c.cmp, c.self, c.peers, listing);
    c.(peers := Settle(listing, removed, updated, failRemove, failAdd),
    last := if Failed(removed, failRemove) == map[] && Failed(updated, failAdd) == map[] then clock else c.last,
    events := c.events + downs + ups)
  }

  ghost predicate IsDelivery(c: Client, listing: PeerMap, failRemove: set<NodeId>, failAdd: set<NodeId>,
                             downs: seq<PeerEvent>, ups: seq<PeerEvent>)
  {
    && Offers(downs, Removed(c.self, c.peers, listing), true, failRemove)
    && Offers(ups, Updated(c.cmp, c.self, c.peers, listing), false, failAdd)
  }

  /**
   The clock of an iteration, from the calls it made: it is the one the refresh reported when every call returned
   without error, and stays what it was otherwise.
   */
  lemma ClockCommits(c: Client, clock: nat, listing: PeerMap, failRemove: set<NodeId>, failAdd: set<NodeId>,
                     downs: seq<PeerEvent>, ups: seq<PeerEvent>)
    requires IsDelivery(c, listing, failRemove, failAdd, downs, ups)
    ensures Committed(c, clock, listing, failRemove, failAdd, downs, ups).last ==
            if AllOk(downs + ups) then clock else c.last
  {
    AllOkExactly(downs, Removed(c.self, c.peers, listing), true, failRemove);
    AllOkExactly(ups, Updated(c.cmp, c.self, c.peers, listing), false, failAdd);
    assert AllOk(downs + ups) <==> AllOk(downs) && AllOk(ups) by {
      if AllOk(downs + ups) {
        assert forall k :: 0 <= k < |downs| ==> downs[k] == (downs + ups)[k];
        assert forall k :: 0 <= k < |ups| ==> ups[k] == (downs + ups)[|downs| + k];
      }
    }
  }

  /** The loop's state as the object it is, one method per iteration outcome. */
  class DiscoveryLoop {
    const cmp: Compare
    const self: NodeId
    var token: Token
    var lastLogicalTime: nat
    var lastPeers: PeerMap
    var events: seq<PeerEvent>

    constructor (cmp: Compare, self: NodeId)
      ensures View() == NewClient(cmp, self)
    {
      this.cmp, this.self := cmp, self;
      token, lastLogicalTime, lastPeers, events := "", 0, map[], [];
    }

    ghost function View(): Client
      reads this
    {
      Client(cmp, self, token, lastLogicalTime, lastPeers, events)
    }

    /** A (re-)registration succeeded; `logicalTime` is what the invalid refresh reported. */
    method Registered(newToken: Token, logicalTime: nat)
      modifies this
      ensures View() == old(View()).(token := newToken, last := logicalTime)
    {
      token := newToken;
      lastLogicalTime := logicalTime;
    }

    /**
     The first handler loop: a node whose removal failed goes back into the current map.  The assertion is the
     source's panic.
     */
    method FireRemovals(removed: PeerMap, listing: PeerMap, fail: set<NodeId>)
      returns (currentPeers: PeerMap, goodUpdate: bool, ghost downs: seq<PeerEvent>)
      requires WellKeyed(lastPeers)
      requires removed.Keys <= lastPeers.Keys && forall id :: id in removed ==> removed[id] == lastPeers[id]
      modifies `events
      ensures Offers(downs, removed, true, fail) && events == old(events) + downs
      ensures goodUpdate == (Failed(removed, fail) == map[])
      ensures currentPeers == listing + Failed(removed, fail)
    {
      currentPeers, goodUpdate, downs := listing, true, [];
      var todo := removed.Keys;
      ghost var done: PeerMap := map[];
      while todo != {}
        invariant todo <= removed.Keys && done == removed - todo
        invariant Offers(downs, done, true, fail) && events == old(events) + downs
        invariant currentPeers == listing + Failed(done, fail)
        invariant goodUpdate == (Failed(done, fail) == map[])
      {
        var key :| key in todo;
        var node := removed[key];
        assert node.id == key;
        var ok := node.id !in fail;
        ghost var prior := downs;
        downs := Offered(downs, done, true, fail, node);
        FailedStep(listing, removed, todo, fail, key);
        todo, done := todo - {key}, done[key := node];
        Associative(old(events), prior, [PeerEvent(node, true, ok)]);
        events := events + [PeerEvent(node, true, ok)];
        if !ok {
          assert node.id in lastPeers;
          var n := lastPeers[node.id];
          currentPeers := currentPeers[n.id := n];
          goodUpdate := false;
        }
      }
      assert done == removed;
    }

    /** The second handler loop: a node whose update failed loses its stamp.  The assertion is the source's panic. */
    method FireUpdates(updated: PeerMap, kept: PeerMap, fail: set<NodeId>)
      returns (currentPeers: PeerMap, goodUpdate: bool, ghost ups: seq<PeerEvent>)
      requires WellKeyed(kept)
      requires updated.Keys <= kept.Keys && forall id :: id in updated ==> updated[id] == kept[id]
      modifies `events
      ensures Offers(ups, updated, false, fail) && events == old(events) + ups
      ensures goodUpdate == (Failed(updated, fail) == map[])
      ensures currentPeers == kept + Unstamped(Failed(updated, fail))
    {
      currentPeers, goodUpdate, ups := kept, true, [];
      var todo := updated.Keys;
      ghost var done: PeerMap := map[];
      while todo != {}
        invariant todo <= updated.Keys && done == updated - todo
        invariant Offers(ups, done, false, fail) && events == old(events) + ups
        invariant currentPeers == kept + Unstamped(Failed(done, fail))
        invariant goodUpdate == (Failed(done, fail) == map[])
      {
        var key :| key in todo;
        var node := updated[key];
        assert node.id == key;
        var ok := node.id !in fail;
        ghost var prior := ups;
        ups := Offered(ups, done, false, fail, node);
        FailedStep(kept, updated, todo, fail, key);
        todo, done := todo - {key}, done[key := node];
        Associative(old(events), prior, [PeerEvent(node, false, ok)]);
        events := events + [PeerEvent(node, false, ok)];
        if !ok {
          assert node.id in currentPeers;
          var n := currentPeers[node.id];
          n := n.(lastUpdate := 0);
          currentPeers := currentPeers[n.id := n];
          goodUpdate := false;
        }
      }
      assert done == updated;
    }

    /** A listing arrived: diff, fire the handlers, settle, and commit the clock only if every call succeeded. */
    method Update(logicalTime: nat, listing: PeerMap, failRemove: set<NodeId>, failAdd: set<NodeId>)
      returns (ghost downs: seq<PeerEvent>, ghost ups: seq<PeerEvent>)
      requires WellKeyed(lastPeers) && WellKeyed(listing)
      modifies this
      ensures IsDelivery(old(View()), listing, failRemove, failAdd, downs, ups)
      ensures View() == Committed(old(View()), logicalTime, listing, failRemove, failAdd, downs, ups)
      ensures lastLogicalTime == if AllOk(downs) && AllOk(ups) then logicalTime else old(lastLogicalTime)
      ensures events == old(events) + downs + ups && token == old(token)
      ensures WellKeyed(lastPeers)
    {
      var updated, removed := DiffNodes(cmp, self, lastPeers, listing);
      var kept, goodRemovals, currentPeers, goodUpdates;
      kept, goodRemovals, downs := FireRemovals(removed, listing, failRemove);
      KeptFacts(lastPeers, listing, removed, updated, failRemove);
      currentPeers, goodUpdates, ups := FireUpdates(updated, kept, failAdd);
      assert WellKeyed(currentPeers) by {
        SettledIsKeyed(kept, updated, failAdd);
      }
      assert goodRemovals == AllOk(downs) && goodUpdates == AllOk(ups) by {
        AllOkExactly(downs, removed, true, failRemove);
        AllOkExactly(ups, updated, false, failAdd);
      }
      lastPeers := currentPeers;
      if goodRemovals && goodUpdates {
        lastLogicalTime := logicalTime;
      }
    }
  }

  /** The first handler loop keeps the map keyed by its nodes' ids and leaves the listed nodes alone. */
  lemma KeptFacts(before: PeerMap, listing: PeerMap, removed: PeerMap, updated: PeerMap, failRemove: set<NodeId>)
    requires WellKeyed(before) && WellKeyed(listing)
    requires removed.Keys !! listing.Keys && forall id :: id in removed ==> id in before && removed[id] == before[id]
    requires forall id :: id in updated ==> id in listing && updated[id] == listing[id]
    ensures var kept := listing + Failed(removed, failRemove);
            WellKeyed(kept) && updated.Keys <= kept.Keys && forall id :: id in updated ==> updated[id] == kept[id]
  {
  }

  /** So does the second. */
  lemma SettledIsKeyed(kept: PeerMap, updated: PeerMap, failAdd: set<NodeId>)
    requires WellKeyed(kept) && forall id :: id in updated ==> id in kept && updated[id] == kept[id]
    ensures WellKeyed(kept + Unstamped(Failed(updated, failAdd)))
  {
  }

  /** The two handler loops touch different ids: what the settled snapshot says about each. */
  lemma SettleFacts(before: PeerMap, listing: PeerMap, removed: PeerMap, updated: PeerMap, failRemove: set<NodeId>,
                    failAdd: set<NodeId>, id: NodeId)
    requires removed.Keys !! listing.Keys && forall id :: id in removed ==> id in before && removed[id] == before[id]
    requires forall id :: id in updated ==> id in listing && updated[id] == listing[id]
    ensures var settled := Settle(listing, removed, updated, failRemove, failAdd);
            && (id in settled <==> id in listing || (id in removed && id in failRemove))
            && (id in settled ==>
                  settled[id] == if id in removed then before[id]
                                 else if id in updated && id in failAdd then listing[id].(lastUpdate := 0)
                                 else listing[id])
  {
  }

  /** Handling one more node of a batch, on top of any map. */
  lemma FailedStep(base: PeerMap, offered: PeerMap, todo: set<NodeId>, fail: set<NodeId>, key: NodeId)
    requires key in todo && todo <= offered.Keys
    ensures offered - (todo - {key}) == (offered - todo)[key := offered[key]]
    ensures var before, after := Failed(offered - todo, fail), Failed((offered - todo)[key := offered[key]], fail);
            && base + after == (if key in fail then (base + before)[key := offered[key]] else base + before)
            && base + Unstamped(after) ==
               (if key in fail then (base + Unstamped(before))[key := offered[key].(lastUpdate := 0)]
                else base + Unstamped(before))
            && (after == map[] <==> before == map[] && key !in fail)
            && (key in base ==> (base + Unstamped(before))[key] == base[key])
  {
    var before, after := Failed(offered - todo, fail), Failed((offered - todo)[key := offered[key]], fail);
    assert offered - (todo - {key}) == (offered - todo)[key := offered[key]];
    if key in fail {
      assert key in after;
      assert after == before[key := offered[key]];
    } else {
      assert after == before;
    }
  }

  lemma Offered(evs: seq<PeerEvent>, done: PeerMap, removal: bool, fail: set<NodeId>, node: Node)
    returns (more: seq<PeerEvent>)
    requires Offers(evs, done, removal, fail) && node.id !in done
    ensures more == evs + [PeerEvent(node, removal, node.id !in fail)]
    ensures Offers(more, done[node.id := node], removal, fail)
  {
    more := evs + [PeerEvent(node, removal, node.id !in fail)];
    assert Front(more) == evs && done[node.id := node] - {node.id} == done;
  }

  // ---------------------------------------------------------------- what the stream of calls says

  /** The latest update call for `id` since its last successful removal. */
  function LastOffer(evs: seq<PeerEvent>, id: NodeId): Option<PeerEvent> {
    if evs == [] then None
    else if Last(evs).node.id != id then LastOffer(Front(evs), id)
    else if !Last(evs).removal then Some(Last(evs))
    else if Last(evs).ok then None
    else LastOffer(Front(evs), id)
  }

  /** Replaying the calls that succeeded: what the handler's side believes the peers are. */
  function Replay(evs: seq<PeerEvent>): set<NodeId> {
    if evs == [] then {}
    else if !Last(evs).ok then Replay(Front(evs))
    else if Last(evs).removal then Replay(Front(evs)) - {Last(evs).node.id}
    else Replay(Front(evs)) + {Last(evs).node.id}
  }

  /** Call `i` offered `id` as an update and no removal of `id` has succeeded since. */
  ghost predicate AddedSince(evs: seq<PeerEvent>, id: NodeId, i: nat) {
    && i < |evs| && evs[i].node.id == id && !evs[i].removal
    && forall k :: i < k < |evs| ==> !(evs[k].node.id == id && evs[k].removal && evs[k].ok)
  }

  /** `LastOffer` names the last of the calls counted by `AddedSince`. */
  lemma {:induction false} LastOfferIsLatest(evs: seq<PeerEvent>, id: NodeId)
    ensures LastOffer(evs, id).None? ==> forall i: nat :: !AddedSince(evs, id, i)
    ensures LastOffer(evs, id).Some? ==>
              exists m: nat :: AddedSince(evs, id, m) && evs[m] == LastOffer(evs, id).value
                               && forall i: nat :: AddedSince(evs, id, i) ==> i <= m
  {
    if evs != [] {
      var p, e := Front(evs), Last(evs);
      LastOfferIsLatest(p, id);
      if e.node.id == id && !e.removal {
        assert AddedSince(evs, id, |evs| - 1);
      } else {
        forall i: nat | AddedSince(evs, id, i)
          ensures AddedSince(p, id, i) && !(e.node.id == id && e.removal && e.ok)
        {
          assert !(evs[|evs| - 1].node.id == id && evs[|evs| - 1].removal && evs[|evs| - 1].ok);
        }
        if LastOffer(evs, id).Some? {
          var m: nat :| AddedSince(p, id, m) && p[m] == LastOffer(p, id).value
                        && forall i: nat :: AddedSince(p, id, i) ==> i <= m;
          assert AddedSince(evs, id, m);
        }
      }
    }
  }

  /** An id is in the replay exactly when one of its update calls since the last successful removal succeeded. */
  lemma {:induction false} ReplayCharacterised(evs: seq<PeerEvent>, id: NodeId)
    ensures id in Replay(evs) <==> exists i: nat :: AddedSince(evs, id, i) && evs[i].ok
  {
    if evs != [] {
      var p, e := Front(evs), Last(evs);
      ReplayCharacterised(p, id);
      if e.node.id == id && e.ok {
        if e.removal {
          assert forall i: nat :: AddedSince(evs, id, i) ==> i < |evs| - 1;
        } else {
          assert AddedSince(evs, id, |evs| - 1);
        }
      } else {
        if i: nat :| AddedSince(p, id, i) && p[i].ok {
          assert AddedSince(evs, id, i) && evs[i].ok;
        }
        if i: nat :| AddedSince(evs, id, i) && evs[i].ok {
          assert AddedSince(p, id, i) && p[i].ok;
        }
      }
    }
  }

  lemma {:induction false} LastOfferSkips(evs: seq<PeerEvent>, more: seq<PeerEvent>, id: NodeId)
    requires forall k :: 0 <= k < |more| ==> more[k].node.id != id
    ensures LastOffer(evs + more, id) == LastOffer(evs, id)
  {
    if more == [] {
      assert evs + more == evs;
    } else {
      assert Front(evs + more) == evs + Front(more);
      LastOfferSkips(evs, Front(more), id);
    }
  }

  /** A batch with a single call about `id` moves the last offer as that call alone would. */
  lemma {:induction false} LastOfferOfBatch(evs: seq<PeerEvent>, batch: seq<PeerEvent>, id: NodeId, k: nat)
    requires k < |batch| && batch[k].node.id == id
    requires forall j :: 0 <= j < |batch| && j != k ==> batch[j].node.id != id
    ensures LastOffer(evs + batch, id) ==
            if !batch[k].removal then Some(batch[k]) else if batch[k].ok then None else LastOffer(evs, id)
  {
    assert evs + batch == (evs + batch[..k + 1]) + batch[k + 1..];
    LastOfferSkips(evs + batch[..k + 1], batch[k + 1..], id);
    assert Front(evs + batch[..k + 1]) == evs + batch[..k];
    LastOfferSkips(evs, batch[..k], id);
  }

  /** What the mark of a node in the snapshot must be, given the last call made for it. */
  function OfferMark(cmp: Compare, e: PeerEvent): nat {
    match cmp
    case ByLogicalTime => e.node.logicalTime
    case ByLastUpdate => if e.ok then e.node.lastUpdate else 0
  }

  /** The snapshot without self is exactly the ids offered since their last successful removal, with matching marks. */
  ghost predicate MatchesHistory(c: Client) {
    && WellKeyed(c.peers)
    && (forall k :: 0 <= k < |c.events| ==> c.events[k].node.id != c.self)
    && (forall id :: LastOffer(c.events, id).Some? <==> id in c.peers && id != c.self)
    && (forall id :: id in c.peers && id != c.self ==>
          Mark(c.cmp, c.peers[id]) == OfferMark(c.cmp, LastOffer(c.events, id).value))
  }

  /** The effect of one delivery on a single id's last offer. */
  lemma DeliveryAt(c: Client, listing: PeerMap, failRemove: set<NodeId>, failAdd: set<NodeId>,
                   downs: seq<PeerEvent>, ups: seq<PeerEvent>, id: NodeId)
    requires WellKeyed(c.peers) && WellKeyed(listing)
    requires IsDelivery(c, listing, failRemove, failAdd, downs, ups)
    ensures var removed, updated := Removed(c.self, c.peers, listing), Updated(c.cmp, c.self, c.peers, listing);
            LastOffer(c.events + downs + ups, id) ==
            if id in updated then Some(PeerEvent(listing[id], false, id !in failAdd))
            else if id in removed && id !in failRemove then None
            else LastOffer(c.events, id)
  {
    var removed, updated := Removed(c.self, c.peers, listing), Updated(c.cmp, c.self, c.peers, listing);
    OffersFacts(downs, removed, true, failRemove);
    OffersFacts(ups, updated, false, failAdd);
    if id in updated {
      var k :| 0 <= k < |ups| && ups[k].node.id == id;
      LastOfferOfBatch(c.events + downs, ups, id, k);
    } else {
      LastOfferSkips(c.events + downs, ups, id);
      if id in removed {
        var k :| 0 <= k < |downs| && downs[k].node.id == id;
        LastOfferOfBatch(c.events, downs, id, k);
      } else {
        LastOfferSkips(c.events, downs, id);
      }
    }
  }

  lemma MatchesHistoryAt(c: Client, clock: nat, listing: PeerMap, failRemove: set<NodeId>, failAdd: set<NodeId>,
                         downs: seq<PeerEvent>, ups: seq<PeerEvent>, id: NodeId)
    requires MatchesHistory(c) && WellKeyed(listing)
    requires IsDelivery(c, listing, failRemove, failAdd, downs, ups)
    ensures var c' := Committed(c, clock, listing, failRemove, failAdd, downs, ups);
            && (LastOffer(c'.events, id).Some? <==> id in c'.peers && id != c.self)
            && (id in c'.peers && id != c.self ==>
                  Mark(c.cmp, c'.peers[id]) == OfferMark(c.cmp, LastOffer(c'.events, id).value))
  {
    var removed, updated := Removed(c.self, c.peers, listing), Updated(c.cmp, c.self, c.peers, listing);
    SettleFacts(c.peers, listing, removed, updated, failRemove, failAdd, id);
    DeliveryAt(c, listing, failRemove, failAdd, downs, ups, id);
  }

  lemma MatchesHistoryStep(c: Client, clock: nat, listing: PeerMap, failRemove: set<NodeId>, failAdd: set<NodeId>,
                           downs: seq<PeerEvent>, ups: seq<PeerEvent>)
    requires MatchesHistory(c) && WellKeyed(listing)
    requires IsDelivery(c, listing, failRemove, failAdd, downs, ups)
    ensures MatchesHistory(Committed(c, clock, listing, failRemove, failAdd, downs, ups))
  {
    var removed, updated := Removed(c.self, c.peers, listing), Updated(c.cmp, c.self, c.peers, listing);
    OffersAvoid(downs, removed, true, failRemove, c.self);
    OffersAvoid(ups, updated, false, failAdd, c.self);
    KeptFacts(c.peers, listing, removed, updated, failRemove);
    SettledIsKeyed(listing + Failed(removed, failRemove), updated, failAdd);
    forall id {
      MatchesHistoryAt(c, clock, listing, failRemove, failAdd, downs, ups, id);
    }
  }

  /**
   The next diff is a function of the calls made so far and the listing: a removal is offered exactly
   for ids that were offered, not since removed, and are no longer listed; an update exactly for
   listed ids whose last offer carries another mark.
   */
  lemma DiffFromHistory(c: Client, listing: PeerMap, id: NodeId)
    requires MatchesHistory(c)
    ensures id in Removed(c.self, c.peers, listing) <==>
            LastOffer(c.events, id).Some? && id !in listing
    ensures id in Updated(c.cmp, c.self, c.peers, listing) <==>
            && id in listing && id != c.self
            && (|| LastOffer(c.events, id).None?
                || OfferMark(c.cmp, LastOffer(c.events, id).value) != Mark(c.cmp, listing[id]))
  {
  }

  /**
   The successful calls replay to the snapshot without self, except for ids all of whose updates since
   the last successful removal failed (and there was at least one).
   */
  lemma EventStreamRefinesSnapshot(c: Client, id: NodeId)
    requires MatchesHistory(c)
    ensures id in Replay(c.events) ==> id in c.peers && id != c.self
    ensures id in c.peers && id != c.self && id !in Replay(c.events) ==>
              && (exists i: nat :: AddedSince(c.events, id, i))
              && (forall i: nat :: AddedSince(c.events, id, i) ==> !c.events[i].ok)
  {
    ReplayCharacterised(c.events, id);
    LastOfferIsLatest(c.events, id);
  }

  // ---------------------------------------------------------------- no call is repeated

  /** Between two update calls for the same id and logical time, the id was removed or offered with another time. */
  ghost predicate NothingRepeated(evs: seq<PeerEvent>) {
    forall i, j :: 0 <= i < j < |evs| && SameOffer(evs[i], evs[j]) ==>
                     exists k :: i < k < j && Separates(evs[k], evs[i])
  }

  predicate SameOffer(a: PeerEvent, b: PeerEvent) {
    !a.removal && !b.removal && a.node.id == b.node.id && a.node.logicalTime == b.node.logicalTime
  }

  predicate Separates(e: PeerEvent, a: PeerEvent) {
    e.node.id == a.node.id && if e.removal then e.ok else e.node.logicalTime != a.node.logicalTime
  }

  /** The last offer for the id, if any, carried another logical time. */
  predicate IsNews(evs: seq<PeerEvent>, e: PeerEvent) {
    LastOffer(evs, e.node.id).None? || LastOffer(evs, e.node.id).value.node.logicalTime != e.node.logicalTime
  }

  /** A new offer is separated from every earlier one like it. */
  lemma SeparatedFromEarlier(evs: seq<PeerEvent>, e: PeerEvent, i: nat)
    requires i < |evs| && SameOffer(evs[i], e) && IsNews(evs, e)
    ensures exists k :: i < k < |evs| && Separates(evs[k], evs[i])
  {
    var id := e.node.id;
    LastOfferIsLatest(evs, id);
    if AddedSince(evs, id, i) {
      var m: nat :| AddedSince(evs, id, m) && evs[m] == LastOffer(evs, id).value && i <= m;
      assert Separates(evs[m], evs[i]);
    } else {
      var k :| i < k < |evs| && evs[k].node.id == id && evs[k].removal && evs[k].ok;
      assert Separates(evs[k], evs[i]);
    }
  }

  /** A call may be appended when it is a removal or differs from the last offer for its id. */
  lemma AppendNothingRepeated(evs: seq<PeerEvent>, e: PeerEvent)
    requires NothingRepeated(evs) && (e.removal || IsNews(evs, e))
    ensures NothingRepeated(evs + [e])
  {
    var more := evs + [e];
    forall i, j | 0 <= i < j < |more| && SameOffer(more[i], more[j])
      ensures exists k :: i < k < j && Separates(more[k], more[i])
    {
      if j == |evs| {
        SeparatedFromEarlier(evs, e, i);
      }
      var k :| i < k < j && Separates(evs[k], evs[i]);
      assert Separates(more[k], more[i]);
    }
  }

  lemma {:induction false} AppendDowns(evs: seq<PeerEvent>, downs: seq<PeerEvent>)
    requires NothingRepeated(evs) && forall k :: 0 <= k < |downs| ==> downs[k].removal
    ensures NothingRepeated(evs + downs)
  {
    if downs == [] {
      assert evs + downs == evs;
    } else {
      AppendDowns(evs, Front(downs));
      AppendNothingRepeated(evs + Front(downs), Last(downs));
      Associative(evs, Front(downs), [Last(downs)]);
      assert Front(downs) + [Last(downs)] == downs;
    }
  }

  lemma {:induction false} AppendUps(evs: seq<PeerEvent>, ups: seq<PeerEvent>)
    requires NothingRepeated(evs)
    requires forall j, k :: 0 <= j < k < |ups| ==> ups[j].node.id != ups[k].node.id
    requires forall k :: 0 <= k < |ups| ==> IsNews(evs, ups[k])
    ensures NothingRepeated(evs + ups)
  {
    if ups == [] {
      assert evs + ups == evs;
    } else {
      var front, last := Front(ups), Last(ups);
      AppendUps(evs, front);
      LastOfferSkips(evs, front, last.node.id);
      assert IsNews(evs + front, last);
      AppendNothingRepeated(evs + front, last);
      Associative(evs, front, [last]);
      assert front + [last] == ups;
    }
  }

  /** The loop as written never repeats an update call for an (id, logical time), whether it succeeded or failed. */
  lemma NothingRepeatedStep(c: Client, clock: nat, listing: PeerMap, failRemove: set<NodeId>, failAdd: set<NodeId>,
                            downs: seq<PeerEvent>, ups: seq<PeerEvent>)
    requires c.cmp.ByLogicalTime? && MatchesHistory(c) && WellKeyed(listing) && NothingRepeated(c.events)
    requires IsDelivery(c, listing, failRemove, failAdd, downs, ups)
    ensures NothingRepeated(Committed(c, clock, listing, failRemove, failAdd, downs, ups).events)
  {
    OffersFacts(downs, Removed(c.self, c.peers, listing), true, failRemove);
    OffersFacts(ups, Updated(c.cmp, c.self, c.peers, listing), false, failAdd);
    AppendDowns(c.events, downs);
    forall k | 0 <= k < |ups|
      ensures IsNews(c.events + downs, ups[k])
    {
      var id := ups[k].node.id;
      LastOfferSkips(c.events, downs, id);
      DiffFromHistory(c, listing, id);
    }
    AppendUps(c.events + downs, ups);
  }

  // ---------------------------------------------------------------- removals

  /** Removal calls are only made for ids that were offered and not removed since. */
  ghost predicate RemovalsKnown(evs: seq<PeerEvent>) {
    forall i :: 0 <= i < |evs| && evs[i].removal ==> LastOffer(evs[..i], evs[i].node.id).Some?
  }

  lemma RemovalsKnownStep(c: Client, clock: nat, listing: PeerMap, failRemove: set<NodeId>, failAdd: set<NodeId>,
                          downs: seq<PeerEvent>, ups: seq<PeerEvent>)
    requires MatchesHistory(c) && WellKeyed(listing) && RemovalsKnown(c.events)
    requires IsDelivery(c, listing, failRemove, failAdd, downs, ups)
    ensures RemovalsKnown(Committed(c, clock, listing, failRemove, failAdd, downs, ups).events)
  {
    var evs := c.events + downs + ups;
    OffersFacts(downs, Removed(c.self, c.peers, listing), true, failRemove);
    OffersFacts(ups, Updated(c.cmp, c.self, c.peers, listing), false, failAdd);
    forall i | 0 <= i < |evs| && evs[i].removal
      ensures LastOffer(evs[..i], evs[i].node.id).Some?
    {
      if i < |c.events| {
        assert evs[..i] == c.events[..i];
      } else {
        var k := i - |c.events|;
        assert evs[i] == downs[k] && evs[..i] == c.events + downs[..k];
        LastOfferSkips(c.events, downs[..k], evs[i].node.id);
        DiffFromHistory(c, listing, evs[i].node.id);
      }
    }
  }

  /** An id stays known from a failed removal on, as long as no removal of it succeeds. */
  lemma {:induction false} FailedRemovalStaysKnown(evs: seq<PeerEvent>, id: NodeId, i: nat)
    requires RemovalsKnown(evs)
    requires i < |evs| && evs[i].node.id == id && evs[i].removal && !evs[i].ok
    requires forall k :: i < k < |evs| ==> !(evs[k].node.id == id && evs[k].removal && evs[k].ok)
    ensures LastOffer(evs, id).Some?
  {
    if i == |evs| - 1 {
      assert Front(evs) == evs[..i];
    } else {
      assert forall j :: 0 <= j < |evs| - 1 ==> Front(evs)[..j] == evs[..j];
      FailedRemovalStaysKnown(Front(evs), id, i);
    }
  }
}
