/**
 What peer churn does to the routing table, over every sequence of peer events.

 A peer's models are meant to be merged into the table (pkg/proxy/proxy.go:142); the code as written replaces
 the whole route instead.  Both are described exactly, from the history of events alone.
 */
module Churn {
  import opened Basics
  import opened ModelTable

  /** What OnPeerUpdate does to the table: a peer's fetched models, or a peer's removal. */
  datatype Event = Added(p: PeerNode, models: Table) | Removed(id: NodeId)

  /** Fetched routes carry neither providers nor peers. */
  predicate FromWire(models: Table) {
    forall m :: m in models ==> models[m].providers == [] && models[m].peers == map[]
  }

  predicate AllFromWire(evs: seq<Event>) {
    forall i :: 0 <= i < |evs| && evs[i].Added? ==> FromWire(evs[i].models)
  }

  /** Neither fetched nor scanned routes list any peer. */
  ghost predicate NoPeers(evs: seq<Event>) {
    forall i, m :: 0 <= i < |evs| && Names(evs[i], m) ==> evs[i].models[m].peers == map[]
  }

  function AsWritten(t: Table, evs: seq<Event>): Table {
    if evs == [] then t
    else match Last(evs)
      case Added(p, models) => Overwrite(AsWritten(t, Front(evs)), p, models)
      case Removed(id) => Without(AsWritten(t, Front(evs)), id)
  }

  function AsMeant(t: Table, evs: seq<Event>): Table {
    if evs == [] then t
    else match Last(evs)
      case Added(p, models) => Merge(AsMeant(t, Front(evs)), p, models)
      case Removed(id) => Without(AsMeant(t, Front(evs)), id)
  }

  predicate Names(e: Event, m: Name) {
    e.Added? && m in e.models
  }

  predicate NamedBy(e: Event, m: Name, q: NodeId) {
    Names(e, m) && e.p.id == q
  }

  predicate RemovedAfter(evs: seq<Event>, i: int, q: NodeId) {
    exists k :: i < k < |evs| && 0 <= k && evs[k] == Removed(q)
  }

  lemma {:induction false} RemovedAfterStep(evs: seq<Event>, i: int, q: NodeId)
    requires evs != [] && i < |evs| - 1
    ensures RemovedAfter(evs, i, q) <==> RemovedAfter(Front(evs), i, q) || Last(evs) == Removed(q)
  {
    if Last(evs) == Removed(q) {
      assert evs[|evs| - 1] == Removed(q);
    } else if RemovedAfter(Front(evs), i, q) {
      var k :| i < k < |Front(evs)| && 0 <= k && Front(evs)[k] == Removed(q);
      assert evs[k] == Removed(q);
    }
  }

  // ---------------------------------------------------------------- as written: the last writer wins

  /** The event whose route is in the table: the last addition that names the model, or -1 for the initial one. */
  ghost predicate LastWriter(evs: seq<Event>, m: Name, i: int) {
    && -1 <= i < |evs|
    && (i >= 0 ==> Names(evs[i], m))
    && (forall k :: i < k < |evs| ==> !Names(evs[k], m))
  }

  function WrittenBy(t: Table, evs: seq<Event>, m: Name, i: int): Route
    requires -1 <= i < |evs| && (i >= 0 ==> Names(evs[i], m)) && (i < 0 ==> m in t)
  {
    if i < 0 then t[m] else WithPeer(evs[i].models[m], evs[i].p)
  }

  /**
   Last writer wins: a model's route is the one of the last addition naming it, whatever came before,
   less the peers removed since.  Nothing else ever makes a route appear, change or disappear.
   */
  lemma {:induction false} LastWriterWins(t: Table, evs: seq<Event>, m: Name, i: int)
    requires LastWriter(evs, m, i)
    ensures m in AsWritten(t, evs) <==> i >= 0 || m in t
    ensures m in AsWritten(t, evs) ==>
              var r, w := AsWritten(t, evs)[m], WrittenBy(t, evs, m, i);
              && r.info == w.info && r.providers == w.providers
              && (forall q :: q in r.peers <==> q in w.peers && !RemovedAfter(evs, i, q))
              && (forall q :: q in r.peers ==> r.peers[q] == w.peers[q])
  {
    if i < |evs| - 1 {
      var e := Last(evs);
      LastWriterWins(t, Front(evs), m, i);
      forall q {
        RemovedAfterStep(evs, i, q);
      }
      UnnamedStep(AsWritten(t, Front(evs)), e, m);
    }
  }

  /** An event that does not name a model leaves its route alone, but for a removed peer. */
  lemma UnnamedStep(t: Table, e: Event, m: Name)
    requires !Names(e, m)
    ensures var t' := match e case Added(p, models) => Overwrite(t, p, models) case Removed(id) => Without(t, id);
            && (m in t' <==> m in t)
            && (m in t ==> t'[m] == if e.Removed? then t[m].(peers := t[m].peers - {e.id}) else t[m])
  {
  }

  /** As written, local providers survive peer churn exactly when no peer ever announces the model. */
  lemma {:induction false} LocalProvidersSurviveAsWritten(t: Table, evs: seq<Event>, m: Name)
    requires AllFromWire(evs) && m in t && t[m].providers != []
    ensures m in AsWritten(t, evs)
    ensures AsWritten(t, evs)[m].providers == t[m].providers <==> forall k :: 0 <= k < |evs| ==> !Names(evs[k], m)
  {
    var i := FindLastWriter(evs, m);
    LastWriterWins(t, evs, m, i);
  }

  lemma {:induction false} FindLastWriter(evs: seq<Event>, m: Name) returns (i: int)
    ensures LastWriter(evs, m, i)
  {
    i := -1;
    if evs != [] {
      if Names(Last(evs), m) {
        i := |evs| - 1;
      } else {
        i := FindLastWriter(Front(evs), m);
      }
    }
  }

  /**
   A node advertises the models of all its providers together.  With a public and a private provider of one
   model, the one scanned last decides.
   */
  lemma AdvertisedExactly(scans: seq<Event>, m: Name)
    requires forall i :: 0 <= i < |scans| && Names(scans[i], m) ==> IsLocal(scans[i].models[m])
    ensures Exports(AsWritten(map[], scans), m) <==>
            exists i: nat :: LastWriter(scans, m, i) && !IsPrivate(scans[i].models[m])
  {
    var i := FindLastWriter(scans, m);
    LastWriterWins(map[], scans, m, i);
    if i >= 0 {
      assert LastWriter(scans, m, i);
    }
  }

  /** So a public and a private provider of one model: in one order of scanning it is advertised, in the other not. */
  lemma ScanOrderDecides(self: PeerNode, url: Url)
    ensures var open := map["m" := Route("", [Provider(false, "test", url, "")], map[])];
            var hidden := map["m" := Route("", [Provider(true, "test", url, "")], map[])];
            && Exports(AsWritten(map[], [Added(self, hidden), Added(self, open)]), "m")
            && !Exports(AsWritten(map[], [Added(self, open), Added(self, hidden)]), "m")
  {
    var open := map["m" := Route("", [Provider(false, "test", url, "")], map[])];
    var hidden := map["m" := Route("", [Provider(true, "test", url, "")], map[])];
    assert open["m"].providers[0].isPrivate == false && hidden["m"].providers[0].isPrivate;
    LastWriterWins(map[], [Added(self, hidden), Added(self, open)], "m", 1);
    LastWriterWins(map[], [Added(self, open), Added(self, hidden)], "m", 1);
  }

  /** As written, the order of two peers' additions decides who is listed. */
  lemma OrderMattersAsWritten()
    ensures var a, b, m := PeerNode("a", "A"), PeerNode("b", "B"), map["m" := Route("", [], map[])];
            && "a" !in AsWritten(map[], [Added(a, m), Added(b, m)])["m"].peers
            && "a" in AsWritten(map[], [Added(b, m), Added(a, m)])["m"].peers
  {
    var a, b, m := PeerNode("a", "A"), PeerNode("b", "B"), map["m" := Route("", [], map[])];
    LastWriterWins(map[], [Added(a, m), Added(b, m)], "m", 1);
    LastWriterWins(map[], [Added(b, m), Added(a, m)], "m", 1);
  }

  // ---------------------------------------------------------------- as meant: additions accumulate

  /** Peer `q` announced the model and has not been removed since. */
  ghost predicate Announced(evs: seq<Event>, m: Name, q: NodeId, i: nat) {
    i < |evs| && NamedBy(evs[i], m, q) && !RemovedAfter(evs, i, q)
  }

  ghost predicate Listed(t: Table, evs: seq<Event>, m: Name, q: NodeId) {
    || (exists i: nat :: Announced(evs, m, q, i))
    || (m in t && q in t[m].peers && !RemovedAfter(evs, -1, q))
  }

  /** One more event moves the listed peers as it should. */
  lemma ListedStep(t: Table, evs: seq<Event>, m: Name, q: NodeId)
    requires evs != []
    ensures var e := Last(evs);
            Listed(t, evs, m, q) <==> NamedBy(e, m, q) || (Listed(t, Front(evs), m, q) && e != Removed(q))
  {
    var p, e := Front(evs), Last(evs);
    forall i | -1 <= i < |p| {
      RemovedAfterStep(evs, i, q);
    }
    if NamedBy(e, m, q) {
      assert Announced(evs, m, q, |evs| - 1);
    } else {
      if i: nat :| Announced(evs, m, q, i) {
        assert Announced(p, m, q, i);
      }
      if i: nat :| Announced(p, m, q, i) && e != Removed(q) {
        assert Announced(evs, m, q, i);
      }
    }
  }

  lemma ListedIsNamed(t: Table, evs: seq<Event>, m: Name, q: NodeId)
    ensures Listed(t, evs, m, q) ==> m in t || exists i :: 0 <= i < |evs| && Names(evs[i], m)
  {
    if i: nat :| Announced(evs, m, q, i) {
      assert Names(evs[i], m);
    }
  }

  /** The first addition that names the model. */
  ghost predicate FirstNaming(evs: seq<Event>, m: Name, i: nat) {
    i < |evs| && Names(evs[i], m) && forall k :: 0 <= k < i ==> !Names(evs[k], m)
  }

  /** Where a merged route's description and providers come from: the initial table, or else the first addition. */
  ghost predicate Describes(t: Table, evs: seq<Event>, m: Name, r: Route) {
    if m in t then r.info == t[m].info && r.providers == t[m].providers
    else exists i: nat :: FirstNaming(evs, m, i) && r.info == evs[i].models[m].info
                          && r.providers == evs[i].models[m].providers
  }

  lemma DescribesLonger(t: Table, evs: seq<Event>, m: Name, r: Route)
    requires evs != [] && Describes(t, Front(evs), m, r)
    ensures Describes(t, evs, m, r)
  {
    if m !in t {
      var i: nat :| FirstNaming(Front(evs), m, i) && r.info == Front(evs)[i].models[m].info
                    && r.providers == Front(evs)[i].models[m].providers;
      assert forall k :: 0 <= k <= i ==> Front(evs)[k] == evs[k];
      assert FirstNaming(evs, m, i);
    }
  }

  /** One more event, merged. */
  lemma MergeStep(t: Table, e: Event, m: Name)
    requires Names(e, m) ==> e.models[m].peers == map[]
    ensures var t' := match e case Added(p, models) => Merge(t, p, models) case Removed(id) => Without(t, id);
            && (m in t' <==> m in t || Names(e, m))
            && (m in t ==> t'[m].info == t[m].info && t'[m].providers == t[m].providers)
            && (m !in t && Names(e, m) ==> t'[m].info == e.models[m].info && t'[m].providers == e.models[m].providers)
            && (m in t' ==> forall q :: q in t'[m].peers <==>
                  NamedBy(e, m, q) || (m in t && q in t[m].peers && e != Removed(q)))
  {
  }

  /**
   With additions merged, a route's peers are exactly those that announced it and were not removed since; its
   description and providers are the initial ones, or those of the first addition of a name that was not there.
   */
  lemma {:induction false} MergeAccumulates(t: Table, evs: seq<Event>, m: Name)
    requires NoPeers(evs)
    ensures m in AsMeant(t, evs) <==> m in t || exists i :: 0 <= i < |evs| && Names(evs[i], m)
    ensures m in AsMeant(t, evs) ==>
              && Describes(t, evs, m, AsMeant(t, evs)[m])
              && forall q :: q in AsMeant(t, evs)[m].peers <==> Listed(t, evs, m, q)
  {
    if evs != [] {
      var p, e := Front(evs), Last(evs);
      var was := AsMeant(t, p);
      assert forall i :: 0 <= i < |p| ==> p[i] == evs[i];
      MergeAccumulates(t, p, m);
      assert e == evs[|evs| - 1];
      MergeStep(was, e, m);
      forall q {
        ListedStep(t, evs, m, q);
      }
      if m in was {
        DescribesLonger(t, evs, m, AsMeant(t, evs)[m]);
      } else {
        forall q {
          ListedIsNamed(t, p, m, q);
        }
        if Names(e, m) {
          assert FirstNaming(evs, m, |evs| - 1);
        }
      }
    }
  }

  /** The same models with the same peers, and the same providers for those that were there at the start. */
  ghost predicate SamePeers(t: Table, a: Table, b: Table) {
    && a.Keys == b.Keys
    && forall m :: m in a ==>
                     && a[m].peers.Keys == b[m].peers.Keys
                     && (m in t ==> a[m].providers == b[m].providers && a[m].info == b[m].info)
  }

  /**
   With additions merged, who is listed for what does not depend on the order of the additions, nor do the providers
   if none came with them.
   */
  lemma OrderOfAdditionsIsImmaterial(t: Table, xs: seq<Event>, ys: seq<Event>)
    requires multiset(xs) == multiset(ys)
    requires NoPeers(xs) && forall i :: 0 <= i < |xs| ==> xs[i].Added?
    ensures SamePeers(t, AsMeant(t, xs), AsMeant(t, ys))
    ensures AllFromWire(xs) ==>
              forall m :: m in AsMeant(t, xs) ==> AsMeant(t, xs)[m].providers == AsMeant(t, ys)[m].providers
  {
    assert forall e :: e in xs <==> e in multiset(xs);
    assert forall e :: e in ys <==> e in multiset(ys);
    forall m {
      SameAnnouncements(t, xs, ys, m);
    }
  }

  lemma SameAnnouncements(t: Table, xs: seq<Event>, ys: seq<Event>, m: Name)
    requires forall e :: e in xs <==> e in ys
    requires NoPeers(xs) && forall i :: 0 <= i < |xs| ==> xs[i].Added?
    ensures m in AsMeant(t, xs) <==> m in AsMeant(t, ys)
    ensures m in AsMeant(t, xs) ==>
              var a, b := AsMeant(t, xs)[m], AsMeant(t, ys)[m];
              && a.peers.Keys == b.peers.Keys && (m in t ==> a.providers == b.providers && a.info == b.info)
              && (AllFromWire(xs) ==> a.providers == b.providers)
  {
    forall i | 0 <= i < |ys|
      ensures ys[i].Added? && (forall n :: n in ys[i].models ==> ys[i].models[n].peers == map[])
      ensures AllFromWire(xs) ==> FromWire(ys[i].models)
    {
      assert ys[i] in xs;
      var k :| 0 <= k < |xs| && xs[k] == ys[i];
      assert forall n :: n in xs[k].models ==> Names(xs[k], n);
    }
    MergeAccumulates(t, xs, m);
    MergeAccumulates(t, ys, m);
    AnnouncementsCarryOver(t, xs, ys, m);
    AnnouncementsCarryOver(t, ys, xs, m);
  }

  lemma AnnouncementsCarryOver(t: Table, xs: seq<Event>, ys: seq<Event>, m: Name)
    requires forall e :: e in xs ==> e in ys
    requires forall i :: 0 <= i < |ys| ==> ys[i].Added?
    ensures (exists i :: 0 <= i < |xs| && Names(xs[i], m)) ==> exists i :: 0 <= i < |ys| && Names(ys[i], m)
    ensures forall q :: Listed(t, xs, m, q) ==> Listed(t, ys, m, q)
  {
    if i :| 0 <= i < |xs| && Names(xs[i], m) {
      assert xs[i] in ys;
    }
    forall q | Listed(t, xs, m, q)
      ensures Listed(t, ys, m, q)
    {
      if i: nat :| Announced(xs, m, q, i) {
        assert xs[i] in ys;
        var k: nat :| k < |ys| && ys[k] == xs[i];
        assert Announced(ys, m, q, k);
      }
    }
  }
}
