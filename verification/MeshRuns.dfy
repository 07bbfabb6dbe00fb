/**
 Runs of many nodes exchanging their exported models.

 A node scans its own providers, asks a peer for the models that peer exports, puts an answer into
 its table whenever the answer arrives (late, or more than once), and forgets peers.  All of this
 interleaves freely.  The table operations are the ones as written, for meshes in which no model is
 named by a node id (ModelTable shows what happens otherwise).
 */
module MeshRuns {
  import opened Basics
  import opened ModelTable

  datatype Answer = Answer(to: NodeId, from: PeerNode, models: Table)

  datatype Action =
    | Scan(n: PeerNode, routes: Table)
    | Fetch(a: NodeId, p: PeerNode)
    | Deliver(r: Answer)
    | Forget(a: NodeId, id: NodeId)

  datatype Mesh = Mesh(tables: map<NodeId, Table>, answers: set<Answer>)

  function TableOf(s: Mesh, n: NodeId): Table {
    if n in s.tables then s.tables[n] else map[]
  }

  /** `ids` are the node ids of the mesh; none of them names a model, and discovery never offers a node to itself. */
  predicate Enabled(ids: set<NodeId>, s: Mesh, x: Action) {
    match x
    case Scan(n, routes) =>
      && n.id in ids && routes.Keys !! ids
      && forall m :: m in routes ==> routes[m].providers != [] && routes[m].peers == map[]
    case Fetch(a, p) => a in ids && p.id in ids && a != p.id
    case Deliver(r) => r in s.answers
    case Forget(a, id) => a in ids
  }

  function Apply(s: Mesh, x: Action): Mesh {
    match x
    case Scan(n, routes) => s.(tables := s.tables[n.id := Overwrite(TableOf(s, n.id), n, routes)])
    case Fetch(a, p) => s.(answers := s.answers + {Answer(a, p, Fetched(TableOf(s, p.id)))})
    case Deliver(r) => s.(tables := s.tables[r.to := Overwrite(TableOf(s, r.to), r.from, r.models)])
    case Forget(a, id) => s.(tables := s.tables[a := Without(TableOf(s, a), id)])
  }

  function After(run: seq<Action>): Mesh {
    if run == [] then Mesh(map[], {}) else Apply(After(Front(run)), Last(run))
  }

  predicate Valid(ids: set<NodeId>, run: seq<Action>) {
    run == [] || (Valid(ids, Front(run)) && Enabled(ids, After(Front(run)), Last(run)))
  }

  /** Step `i` fetched from `p` on behalf of `a`, and `p` was exporting `m` at that moment. */
  ghost predicate ExportedAt(run: seq<Action>, a: NodeId, p: NodeId, m: Name, i: nat) {
    i < |run| && run[i].Fetch? && run[i].a == a && run[i].p.id == p && Exports(TableOf(After(run[..i]), p), m)
  }

  lemma ExportedStays(run: seq<Action>, a: NodeId, p: NodeId, m: Name)
    requires run != [] && exists i: nat :: ExportedAt(Front(run), a, p, m, i)
    ensures exists i: nat :: ExportedAt(run, a, p, m, i)
  {
    var i: nat :| ExportedAt(Front(run), a, p, m, i);
    assert Front(run)[..i] == run[..i];
    assert ExportedAt(run, a, p, m, i);
  }

  /** An answer in flight says only what its sender was exporting when it was fetched, and carries nothing local. */
  lemma {:induction false} AnswersAreGenuine(ids: set<NodeId>, run: seq<Action>, r: Answer, m: Name)
    requires Valid(ids, run) && r in After(run).answers
    ensures r.to != r.from.id
    ensures m in r.models ==>
              && r.models[m].providers == [] && r.models[m].peers == map[]
              && exists i: nat :: ExportedAt(run, r.to, r.from.id, m, i)
  {
    var p, x := Front(run), Last(run);
    if r in After(p).answers {
      AnswersAreGenuine(ids, p, r, m);
      if m in r.models {
        ExportedStays(run, r.to, r.from.id, m);
      }
    } else if m in r.models {
      assert run[..|run| - 1] == p;
      assert ExportedAt(run, x.a, x.p.id, m, |run| - 1);
    }
  }

  /** The answer is in flight, from `p` to `a`, and names the model with the description `r`. */
  ghost predicate Told(s: Mesh, a: NodeId, p: NodeId, m: Name, info: string, r: Answer) {
    r in s.answers && r.to == a && r.from.id == p && m in r.models && r.models[m].info == info
  }

  /** A fetch tells everything its sender is exporting, with the description it has, and the answer is never lost. */
  lemma {:induction false} FetchTellsAll(ids: set<NodeId>, run: seq<Action>, a: NodeId, p: NodeId, m: Name, i: nat)
    requires Valid(ids, run) && ExportedAt(run, a, p, m, i)
    ensures exists r :: Told(After(run), a, p, m, TableOf(After(run[..i]), p)[m].info, r)
  {
    var q, x := Front(run), Last(run);
    if i == |run| - 1 {
      assert run[..i] == q;
      var t := TableOf(After(q), p);
      assert Told(After(run), a, p, m, t[m].info, Answer(a, x.p, Fetched(t)));
    } else {
      assert q[..i] == run[..i] && ExportedAt(q, a, p, m, i);
      FetchTellsAll(ids, q, a, p, m, i);
      var r :| Told(After(q), a, p, m, TableOf(After(run[..i]), p)[m].info, r);
      assert Told(After(run), a, p, m, TableOf(After(run[..i]), p)[m].info, r);
    }
  }

  /** The step gives `a` a route for the model. */
  predicate NamesAt(x: Action, a: NodeId, m: Name) {
    (x.Scan? && x.n.id == a && m in x.routes) || (x.Deliver? && x.r.to == a && m in x.r.models)
  }

  /** Step `j` delivered `p`'s models to `a`, and nothing has replaced the route or forgotten `p` since. */
  ghost predicate ListsSince(run: seq<Action>, a: NodeId, m: Name, p: NodeId, j: nat) {
    && j < |run| && run[j].Deliver? && NamesAt(run[j], a, m) && run[j].r.from.id == p
    && forall k :: j < k < |run| ==> !NamesAt(run[k], a, m) && run[k] != Forget(a, p)
  }

  /** One step's effect on who is listed. */
  lemma ListedStep(ids: set<NodeId>, run: seq<Action>, a: NodeId, m: Name, p: NodeId)
    requires Valid(ids, run) && run != [] && p != a
    ensures var t, t', x := TableOf(After(Front(run)), a), TableOf(After(run), a), Last(run);
            && (m in t' <==> m in t || NamesAt(x, a, m))
            && (NamesAt(x, a, m) ==> (p in t'[m].peers <==> x.Deliver? && x.r.from.id == p))
            && (NamesAt(x, a, m) && x.Deliver? ==> t'[m] == WithPeer(x.r.models[m], x.r.from))
            && (m in t && !NamesAt(x, a, m) ==>
                  && (p in t'[m].peers <==> p in t[m].peers && x != Forget(a, p))
                  && t'[m].info == t[m].info && (p in t'[m].peers ==> t'[m].peers[p] == t[m].peers[p]))
  {
    var s, x := After(Front(run)), Last(run);
    var t := TableOf(s, a);
    match x
    case Scan(n, routes) =>
      OverwriteAt(t, n, routes, m);
    case Deliver(r) =>
      AnswersAreGenuine(ids, Front(run), r, m);
      OverwriteAt(t, r.from, r.models, m);
    case Fetch(_, _) =>
    case Forget(b, id) =>
      WithoutAt(t, id, m);
  }

  lemma OverwriteAt(t: Table, p: PeerNode, models: Table, m: Name)
    ensures var t' := Overwrite(t, p, models);
            && (m in t' <==> m in t || m in models)
            && (m in t' ==> t'[m] == if m in models then WithPeer(models[m], p) else t[m])
  {
  }

  lemma WithoutAt(t: Table, id: NodeId, m: Name)
    ensures var t' := Without(t, id);
            (m in t' <==> m in t) && (m in t ==> t'[m] == t[m].(peers := t[m].peers - {id}))
  {
  }

  /**
   A node lists another for a model exactly when it received the other's models, the model among them, and has
   since neither entered the model anew nor forgotten the other.  The route is then the one it was told.
   */
  lemma {:induction false} ListedExactly(ids: set<NodeId>, run: seq<Action>, a: NodeId, m: Name, p: NodeId)
    requires Valid(ids, run) && p != a
    ensures m in TableOf(After(run), a) && p in TableOf(After(run), a)[m].peers <==>
            exists j: nat :: ListsSince(run, a, m, p, j)
    ensures forall j: nat :: ListsSince(run, a, m, p, j) ==>
              && m in TableOf(After(run), a) && p in TableOf(After(run), a)[m].peers
              && TableOf(After(run), a)[m].peers[p] == run[j].r.from
              && TableOf(After(run), a)[m].info == run[j].r.models[m].info
  {
    if run != [] {
      var q, x := Front(run), Last(run);
      ListedExactly(ids, q, a, m, p);
      ListedStep(ids, run, a, m, p);
      ListsSinceStep(run, a, m, p);
      assert forall j :: 0 <= j < |q| ==> q[j] == run[j];
      if NamesAt(x, a, m) {
        assert x.Deliver? && x.r.from.id == p ==> ListsSince(run, a, m, p, |run| - 1);
      } else if x != Forget(a, p) {
        if j: nat :| ListsSince(q, a, m, p, j) {
          assert ListsSince(run, a, m, p, j);
        }
      }
    }
  }

  /** Step `j` is the last that gave `a` a route for the model. */
  ghost predicate NamedSince(run: seq<Action>, a: NodeId, m: Name, j: nat) {
    j < |run| && NamesAt(run[j], a, m) && forall k :: j < k < |run| ==> !NamesAt(run[k], a, m)
  }

  /** The route the step brought, before anybody is listed on it. */
  function Brought(x: Action, m: Name): Route
    requires (x.Scan? && m in x.routes) || (x.Deliver? && m in x.r.models)
  {
    if x.Scan? then x.routes[m] else x.r.models[m]
  }

  /**
   A node has a route for a model exactly when it scanned it or was told of it, and providers and description are
   those of the last time: its own after a scan, none after an answer.
   */
  lemma {:induction false} RouteExactly(ids: set<NodeId>, run: seq<Action>, a: NodeId, m: Name)
    requires Valid(ids, run)
    ensures m in TableOf(After(run), a) <==> exists j: nat :: NamedSince(run, a, m, j)
    ensures forall j: nat :: NamedSince(run, a, m, j) ==>
              && m in TableOf(After(run), a)
              && TableOf(After(run), a)[m].providers == Brought(run[j], m).providers
              && TableOf(After(run), a)[m].info == Brought(run[j], m).info
              && (IsLocal(TableOf(After(run), a)[m]) <==> run[j].Scan?)
  {
    if run != [] {
      var q, x := Front(run), Last(run);
      RouteExactly(ids, q, a, m);
      RouteStep(ids, run, a, m);
      NamedSinceStep(run, a, m);
      if NamesAt(x, a, m) {
        assert NamedSince(run, a, m, |run| - 1);
      } else if j: nat :| NamedSince(q, a, m, j) {
        assert NamedSince(run, a, m, j);
      }
    }
  }

  lemma NamedSinceStep(run: seq<Action>, a: NodeId, m: Name)
    requires run != []
    ensures NamesAt(Last(run), a, m) ==> forall j: nat :: NamedSince(run, a, m, j) <==> j == |run| - 1
    ensures !NamesAt(Last(run), a, m) ==>
              forall j: nat :: NamedSince(run, a, m, j) <==> NamedSince(Front(run), a, m, j)
    ensures forall j: nat :: NamedSince(run, a, m, j) && j < |run| - 1 ==> run[j] == Front(run)[j]
  {
    var q := Front(run);
    assert forall k :: 0 <= k < |q| ==> q[k] == run[k];
    assert run[|run| - 1] == Last(run);
  }

  lemma RouteStep(ids: set<NodeId>, run: seq<Action>, a: NodeId, m: Name)
    requires Valid(ids, run) && run != []
    ensures var t, t', x := TableOf(After(Front(run)), a), TableOf(After(run), a), Last(run);
            && (m in t' <==> m in t || NamesAt(x, a, m))
            && (NamesAt(x, a, m) ==>
                  && t'[m].providers == Brought(x, m).providers && t'[m].info == Brought(x, m).info
                  && (IsLocal(t'[m]) <==> x.Scan?))
            && (m in t && !NamesAt(x, a, m) ==> t'[m].providers == t[m].providers && t'[m].info == t[m].info)
  {
    var s, x := After(Front(run)), Last(run);
    var t := TableOf(s, a);
    match x
    case Scan(n, routes) =>
      OverwriteAt(t, n, routes, m);
    case Deliver(r) =>
      AnswersAreGenuine(ids, Front(run), r, m);
      OverwriteAt(t, r.from, r.models, m);
    case Fetch(_, _) =>
    case Forget(b, id) =>
      WithoutAt(t, id, m);
  }

  lemma ListsSinceStep(run: seq<Action>, a: NodeId, m: Name, p: NodeId)
    requires run != []
    ensures var x := Last(run);
            && (NamesAt(x, a, m) && x.Deliver? && x.r.from.id == p ==>
                  forall j: nat :: ListsSince(run, a, m, p, j) <==> j == |run| - 1)
            && (NamesAt(x, a, m) && !(x.Deliver? && x.r.from.id == p) ==> forall j: nat :: !ListsSince(run, a, m, p, j))
            && (x == Forget(a, p) ==> forall j: nat :: !ListsSince(run, a, m, p, j))
            && (!NamesAt(x, a, m) && x != Forget(a, p) ==>
                  forall j: nat :: ListsSince(run, a, m, p, j) <==> ListsSince(Front(run), a, m, p, j))
  {
    var q, x := Front(run), Last(run);
    assert forall k :: 0 <= k < |q| ==> q[k] == run[k];
    assert run[|run| - 1] == x;
  }

  /**
   Provenance: if a node lists another peer for a model, that peer itself was exporting the model, from
   providers of its own and none of them private, at the moment of a fetch by this node.
   */
  lemma {:induction false} Provenance(ids: set<NodeId>, run: seq<Action>, a: NodeId, m: Name, p: NodeId)
    requires Valid(ids, run)
    requires m in TableOf(After(run), a) && p in TableOf(After(run), a)[m].peers && p != a
    ensures exists i: nat :: ExportedAt(run, a, p, m, i)
  {
    var q, x := Front(run), Last(run);
    if m in TableOf(After(q), a) && p in TableOf(After(q), a)[m].peers {
      Provenance(ids, q, a, m, p);
      ExportedStays(run, a, p, m);
    } else {
      assert x.Deliver?;
      AnswersAreGenuine(ids, q, x.r, m);
      ExportedStays(run, a, p, m);
    }
  }

  /** Step `i` scanned `m` among the node's own providers. */
  ghost predicate ScannedAt(run: seq<Action>, a: NodeId, m: Name, i: nat) {
    i < |run| && run[i].Scan? && run[i].n.id == a && m in run[i].routes
  }

  /** A route with providers comes from the node's own scan, never from a peer. */
  lemma {:induction false} ProvidersAreScanned(ids: set<NodeId>, run: seq<Action>, a: NodeId, m: Name)
    requires Valid(ids, run)
    requires m in TableOf(After(run), a) && IsLocal(TableOf(After(run), a)[m])
    ensures exists i: nat :: ScannedAt(run, a, m, i) &&
                             run[i].routes[m].providers == TableOf(After(run), a)[m].providers
  {
    var q, x := Front(run), Last(run);
    if x.Scan? && x.n.id == a && m in x.routes {
      assert ScannedAt(run, a, m, |run| - 1);
    } else {
      if x.Deliver? {
        AnswersAreGenuine(ids, q, x.r, m);
      }
      ProvidersAreScanned(ids, q, a, m);
      var i: nat :| ScannedAt(q, a, m, i) && q[i].routes[m].providers == TableOf(After(q), a)[m].providers;
      assert ScannedAt(run, a, m, i);
    }
  }

  lemma {:induction false} ValidPrefix(ids: set<NodeId>, run: seq<Action>, i: nat)
    requires Valid(ids, run) && i <= |run|
    ensures Valid(ids, run[..i])
  {
    if i == |run| {
      assert run[..i] == run;
    } else {
      ValidPrefix(ids, Front(run), i);
      assert Front(run)[..i] == run[..i];
    }
  }

  /** Models are never re-exported: whoever is listed for a model scanned it from its own providers. */
  lemma ListedPeersServeThemselves(ids: set<NodeId>, run: seq<Action>, a: NodeId, m: Name, p: NodeId)
    requires Valid(ids, run)
    requires m in TableOf(After(run), a) && p in TableOf(After(run), a)[m].peers && p != a
    ensures exists j: nat :: ScannedAt(run, p, m, j)
  {
    Provenance(ids, run, a, m, p);
    var i: nat :| ExportedAt(run, a, p, m, i);
    ValidPrefix(ids, run, i);
    ProvidersAreScanned(ids, run[..i], p, m);
    var j: nat :| ScannedAt(run[..i], p, m, j);
    assert ScannedAt(run, p, m, j);
  }

  /** A node lists itself only where it has providers, and every listed peer is stored under its own id. */
  lemma {:induction false} SelfOnlyWithProviders(ids: set<NodeId>, run: seq<Action>, a: NodeId, m: Name)
    requires Valid(ids, run) && m in TableOf(After(run), a)
    ensures a in TableOf(After(run), a)[m].peers ==> IsLocal(TableOf(After(run), a)[m])
    ensures forall q :: q in TableOf(After(run), a)[m].peers ==> TableOf(After(run), a)[m].peers[q].id == q
  {
    var q, x := Front(run), Last(run);
    if x.Deliver? {
      AnswersAreGenuine(ids, q, x.r, m);
    }
    if m in TableOf(After(q), a) {
      SelfOnlyWithProviders(ids, q, a, m);
    }
  }

  /** In every run no node's id names a model, in a table or in an answer. */
  lemma {:induction false} NodesNameNoModels(ids: set<NodeId>, run: seq<Action>)
    requires Valid(ids, run)
    ensures forall a :: TableOf(After(run), a).Keys !! ids
    ensures forall r :: r in After(run).answers ==> r.models.Keys !! ids && r.from.id in ids
  {
    if run != [] {
      var s, x := After(Front(run)), Last(run);
      NodesNameNoModels(ids, Front(run));
      forall a
        ensures TableOf(Apply(s, x), a).Keys !! ids
      {
        assert TableOf(s, a).Keys !! ids;
      }
      assert x.Fetch? ==> Fetched(TableOf(s, x.p.id)).Keys <= TableOf(s, x.p.id).Keys;
    }
  }

  /**
   So entering an answer overwrites: these are the runs of the router's AddPeerModels, whatever shares its peer maps.
   */
  lemma DeliveryIsAddPeerModels(ids: set<NodeId>, run: seq<Action>, r: Answer, sharers: set<Name>, early: set<Name>,
                                t: Table)
    requires Valid(ids, run) && r in After(run).answers
    requires Entered(TableOf(After(run), r.to), r.from, r.models, sharers, early, t)
    ensures t == TableOf(Apply(After(run), Deliver(r)), r.to)
  {
    NodesNameNoModels(ids, run);
    OrderIsImmaterial(TableOf(After(run), r.to), r.from, r.models, sharers, early, t);
  }
}
