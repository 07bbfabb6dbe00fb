/**
 One run of everything: the admin, the polling proxies, their routing tables and the models they exchange.

 The steps of DiscoveryRuns are joined by scans of a proxy's own providers and by fetches of what another proxy
 exports.  A poll's successful handler calls change the proxy's table, in order, by answers fetched before.
 `scanned` remembers who scanned what.
 */
module WholeMesh {
  import opened Basics
  import opened ModelTable
  import opened Churn
  import opened EndToEnd
  import Proxy
  import D = Discovery
  import R = DiscoveryRuns
  import Admin = Membership

  datatype Answer = Answer(to: R.ProcId, p: PeerNode, models: Table)

  datatype State = State(sys: R.System, tables: map<R.ProcId, Table>, answers: set<Answer>,
                         scanned: set<(NodeId, Name)>)

  datatype Action =
    | Discover(a: R.Action)
    | Scan(k: R.ProcId, name: string, routes: Table)
    | Fetch(k: R.ProcId, j: R.ProcId, p: PeerNode)
    | Commit(a: R.Action, evs: seq<Event>)

  function TableOf(s: State, k: R.ProcId): Table {
    if k in s.tables then s.tables[k] else map[]
  }

  function SelfOf(s: State, k: R.ProcId): NodeId
    requires k in s.sys.procs
  {
    s.sys.procs[k].client.self
  }

  /** `ids` are the ids of the mesh's nodes, and no model is called like one of them. */
  ghost predicate Enabled(ids: set<NodeId>, s: State, x: Action) {
    match x
    case Discover(a) => !a.Commit? && R.Enabled(s.sys, a)
    case Scan(k, _, routes) => k in s.sys.procs && SelfOf(s, k) in ids && routes.Keys !! ids && IsScan(routes)
    case Fetch(k, j, p) => k in s.sys.procs && j in s.sys.procs && SelfOf(s, j) == p.id && p.id in ids
    case Commit(a, evs) =>
      && a.Commit? && R.Enabled(s.sys, a) && Handled(a.downs + a.ups, evs)
      && forall i :: 0 <= i < |evs| && evs[i].Added? ==> Answer(a.k, evs[i].p, evs[i].models) in s.answers
  }

  ghost function Apply(ids: set<NodeId>, s: State, x: Action): State
    requires Enabled(ids, s, x)
  {
    match x
    case Discover(a) => s.(sys := R.Step(s.sys, a))
    case Scan(k, name, routes) =>
      s.(tables := s.tables[k := Overwrite(TableOf(s, k), PeerNode(SelfOf(s, k), name), routes)],
         scanned := s.scanned + set m | m in routes :: (SelfOf(s, k), m))
    case Fetch(k, j, p) => s.(answers := s.answers + {Answer(k, p, Fetched(TableOf(s, j)))})
    case Commit(a, evs) => s.(sys := R.Step(s.sys, a), tables := s.tables[a.k := AsWritten(TableOf(s, a.k), evs)])
  }

  ghost predicate Valid(ids: set<NodeId>, sys0: R.System, run: seq<Action>)
    decreases |run|, 0
  {
    run == [] || (Valid(ids, sys0, Front(run)) && Enabled(ids, After(ids, sys0, Front(run)), Last(run)))
  }

  ghost function After(ids: set<NodeId>, sys0: R.System, run: seq<Action>): State
    requires Valid(ids, sys0, run)
    decreases |run|, 1
  {
    if run == [] then State(sys0, map[], {}, {}) else Apply(ids, After(ids, sys0, Front(run)), Last(run))
  }

  // ---------------------------------------------------------------- the discovery inside

  function DiscoveryOf(run: seq<Action>): seq<R.Action> {
    if run == [] then []
    else match Last(run)
      case Discover(a) => DiscoveryOf(Front(run)) + [a]
      case Commit(a, _) => DiscoveryOf(Front(run)) + [a]
      case _ => DiscoveryOf(Front(run))
  }

  /** Leaving out tables and answers gives a run of the discovery protocol. */
  lemma {:induction false} Projects(ids: set<NodeId>, sys0: R.System, run: seq<Action>)
    requires Valid(ids, sys0, run)
    ensures R.Valid(sys0, DiscoveryOf(run)) && R.After(sys0, DiscoveryOf(run)) == After(ids, sys0, run).sys
  {
    if run != [] {
      Projects(ids, sys0, Front(run));
      if Last(run).Discover? || Last(run).Commit? {
        var longer := R.Grow(sys0, DiscoveryOf(Front(run)), Last(run).a);
      }
    }
  }

  // ---------------------------------------------------------------- the tables

  /**
   What one route may say: peers sit under their own ids; the node itself is listed only where it has providers,
   everybody else only while `replay` has them; and whoever is listed for a model, or has providers of it here,
   scanned it.
   */
  ghost predicate RouteOk(m: Name, r: Route, self: NodeId, replay: set<NodeId>, scanned: set<(NodeId, Name)>) {
    && (IsLocal(r) ==> (self, m) in scanned)
    && forall q :: q in r.peers ==>
                     r.peers[q].id == q && if q == self then IsLocal(r) else q in replay && (q, m) in scanned
  }

  ghost predicate TableOk(ids: set<NodeId>, t: Table, self: NodeId, replay: set<NodeId>, scanned: set<(NodeId, Name)>) {
    t.Keys !! ids && forall m :: m in t ==> RouteOk(m, t[m], self, replay, scanned)
  }

  ghost predicate AnswerOk(ids: set<NodeId>, r: Answer, scanned: set<(NodeId, Name)>) {
    FromWire(r.models) && r.models.Keys !! ids && forall m :: m in r.models ==> (r.p.id, m) in scanned
  }

  lemma AddedOk(ids: set<NodeId>, t: Table, self: NodeId, replay: set<NodeId>, scanned: set<(NodeId, Name)>, r: Answer)
    requires TableOk(ids, t, self, replay, scanned) && AnswerOk(ids, r, scanned) && r.p.id != self
    ensures TableOk(ids, Overwrite(t, r.p, r.models), self, replay + {r.p.id}, scanned)
  {
    var t' := Overwrite(t, r.p, r.models);
    forall m | m in t'
      ensures RouteOk(m, t'[m], self, replay + {r.p.id}, scanned)
    {
      assert m in r.models ==> t'[m] == WithPeer(r.models[m], r.p);
    }
  }

  lemma RemovedOk(ids: set<NodeId>, t: Table, self: NodeId, replay: set<NodeId>, scanned: set<(NodeId, Name)>,
                  id: NodeId)
    requires TableOk(ids, t, self, replay, scanned)
    ensures TableOk(ids, Without(t, id), self, replay - {id}, scanned)
  {
  }

  lemma ScannedOk(ids: set<NodeId>, t: Table, self: PeerNode, replay: set<NodeId>, scanned: set<(NodeId, Name)>,
                  routes: Table)
    requires TableOk(ids, t, self.id, replay, scanned) && IsScan(routes) && routes.Keys !! ids
    ensures TableOk(ids, Overwrite(t, self, routes), self.id, replay, scanned + set m | m in routes :: (self.id, m))
  {
    var t', scanned' := Overwrite(t, self, routes), scanned + set m | m in routes :: (self.id, m);
    forall m | m in t'
      ensures RouteOk(m, t'[m], self.id, replay, scanned')
    {
      assert m in routes ==> t'[m] == WithPeer(routes[m], self) && (self.id, m) in scanned';
    }
  }

  /** A poll's successful calls keep the table in step with the replay. */
  lemma {:induction false} CallsOk(ids: set<NodeId>, t: Table, self: NodeId, prior: seq<D.PeerEvent>,
                                   calls: seq<D.PeerEvent>, evs: seq<Event>, k: R.ProcId, answers: set<Answer>,
                                   scanned: set<(NodeId, Name)>)
    requires TableOk(ids, t, self, D.Replay(prior), scanned) && Handled(calls, evs)
    requires forall i :: 0 <= i < |calls| ==> calls[i].node.id != self
    requires forall r :: r in answers ==> AnswerOk(ids, r, scanned)
    requires forall i :: 0 <= i < |evs| && evs[i].Added? ==> Answer(k, evs[i].p, evs[i].models) in answers
    ensures TableOk(ids, AsWritten(t, evs), self, D.Replay(prior + calls), scanned)
  {
    if calls == [] {
      assert prior + calls == prior;
    } else {
      var e := Last(calls);
      var rest := if e.ok then Front(evs) else evs;
      CallsOk(ids, t, self, prior, Front(calls), rest, k, answers, scanned);
      assert Front(prior + calls) == prior + Front(calls);
      var before, replay := AsWritten(t, rest), D.Replay(prior + Front(calls));
      if e.ok {
        var x := Last(evs);
        if e.removal {
          RemovedOk(ids, before, self, replay, scanned, e.node.id);
        } else {
          assert x == evs[|evs| - 1];
          AddedOk(ids, before, self, replay, scanned, Answer(k, x.p, x.models));
        }
      }
    }
  }

  // ---------------------------------------------------------------- every run

  ghost predicate Ok(ids: set<NodeId>, s: State) {
    && (forall k :: k in s.sys.procs ==>
          TableOk(ids, TableOf(s, k), SelfOf(s, k), D.Replay(s.sys.procs[k].client.events), s.scanned))
    && (forall r :: r in s.answers ==> AnswerOk(ids, r, s.scanned))
  }

  lemma FetchedOk(ids: set<NodeId>, t: Table, self: NodeId, replay: set<NodeId>, scanned: set<(NodeId, Name)>,
                  r: Answer)
    requires TableOk(ids, t, self, replay, scanned) && r.p.id == self && r.models == Fetched(t)
    ensures AnswerOk(ids, r, scanned)
  {
  }

  lemma MoreScanned(ids: set<NodeId>, t: Table, self: NodeId, replay: set<NodeId>, scanned: set<(NodeId, Name)>,
                    more: set<(NodeId, Name)>)
    requires TableOk(ids, t, self, replay, scanned)
    ensures TableOk(ids, t, self, replay, scanned + more)
  {
  }

  lemma DiscoverStep(ids: set<NodeId>, s: State, a: R.Action)
    requires Ok(ids, s) && Enabled(ids, s, Discover(a))
    ensures Ok(ids, Apply(ids, s, Discover(a)))
  {
  }

  lemma ScanStep(ids: set<NodeId>, s: State, x: Action)
    requires Ok(ids, s) && x.Scan? && Enabled(ids, s, x)
    ensures Ok(ids, Apply(ids, s, x))
  {
    var s' := Apply(ids, s, x);
    var self := SelfOf(s, x.k);
    var more := set m | m in x.routes :: (self, m);
    forall k | k in s.sys.procs
      ensures TableOk(ids, TableOf(s', k), SelfOf(s', k), D.Replay(s'.sys.procs[k].client.events), s'.scanned)
    {
      var replay := D.Replay(s.sys.procs[k].client.events);
      if k == x.k {
        ScannedOk(ids, TableOf(s, k), PeerNode(self, x.name), replay, s.scanned, x.routes);
      } else {
        MoreScanned(ids, TableOf(s, k), SelfOf(s, k), replay, s.scanned, more);
      }
    }
  }

  lemma CommitStep(ids: set<NodeId>, s: State, x: Action)
    requires R.Ok(s.sys) && Ok(ids, s) && x.Commit? && Enabled(ids, s, x)
    ensures Ok(ids, Apply(ids, s, x))
  {
    var s' := Apply(ids, s, x);
    CommitOwn(ids, s, x);
    forall k | k in s'.sys.procs
      ensures TableOk(ids, TableOf(s', k), SelfOf(s', k), D.Replay(s'.sys.procs[k].client.events), s'.scanned)
    {
      assert k != x.a.k ==> s'.sys.procs[k] == s.sys.procs[k] && TableOf(s', k) == TableOf(s, k);
    }
  }

  lemma CommitOwn(ids: set<NodeId>, s: State, x: Action)
    requires R.Ok(s.sys) && Ok(ids, s) && x.Commit? && Enabled(ids, s, x)
    ensures var s', k := Apply(ids, s, x), x.a.k;
            TableOk(ids, TableOf(s', k), SelfOf(s', k), D.Replay(s'.sys.procs[k].client.events), s.scanned)
  {
    var k := x.a.k;
    var p := s.sys.procs[k];
    var c, calls := p.client, x.a.downs + x.a.ups;
    NotAboutSelf(c, p.phase.listing, x.a.failRemove, x.a.failAdd, x.a.downs, x.a.ups);
    CallsOk(ids, TableOf(s, k), c.self, c.events, calls, x.evs, k, s.answers, s.scanned);
    Associative(c.events, x.a.downs, x.a.ups);
  }

  lemma NotAboutSelf(c: D.Client, listing: D.PeerMap, failRemove: set<NodeId>, failAdd: set<NodeId>,
                     downs: seq<D.PeerEvent>, ups: seq<D.PeerEvent>)
    requires D.IsDelivery(c, listing, failRemove, failAdd, downs, ups)
    ensures forall i :: 0 <= i < |downs + ups| ==> (downs + ups)[i].node.id != c.self
  {
    D.OffersAvoid(downs, D.Removed(c.self, c.peers, listing), true, failRemove, c.self);
    D.OffersAvoid(ups, D.Updated(c.cmp, c.self, c.peers, listing), false, failAdd, c.self);
  }

  lemma {:induction false} AlwaysOk(ids: set<NodeId>, cmp: D.Compare, sys0: R.System, run: seq<Action>)
    requires R.IsStart(sys0, cmp) && Valid(ids, sys0, run)
    ensures Ok(ids, After(ids, sys0, run))
  {
    if run != [] {
      var s, x := After(ids, sys0, Front(run)), Last(run);
      AlwaysOk(ids, cmp, sys0, Front(run));
      match x
      case Discover(a) => DiscoverStep(ids, s, a);
      case Scan(_, _, _) => ScanStep(ids, s, x);
      case Fetch(k, j, p) =>
        FetchedOk(ids, TableOf(s, j), p.id, D.Replay(s.sys.procs[j].client.events), s.scanned,
                  Answer(k, p, Fetched(TableOf(s, j))));
      case Commit(_, _) =>
        Projects(ids, sys0, Front(run));
        R.AlwaysOk(cmp, sys0, DiscoveryOf(Front(run)));
        CommitStep(ids, s, x);
    }
  }

  /** Step `i` is a scan by the node `q` that found the model. */
  ghost predicate ScannedAt(ids: set<NodeId>, sys0: R.System, run: seq<Action>, q: NodeId, m: Name, i: nat) {
    && i < |run| && run[i].Scan? && m in run[i].routes
    && Valid(ids, sys0, run[..i]) && run[i].k in After(ids, sys0, run[..i]).sys.procs
    && SelfOf(After(ids, sys0, run[..i]), run[i].k) == q
  }

  lemma {:induction false} ScannedWasScanned(ids: set<NodeId>, sys0: R.System, run: seq<Action>, q: NodeId, m: Name)
    returns (i: nat)
    requires Valid(ids, sys0, run) && (q, m) in After(ids, sys0, run).scanned
    ensures ScannedAt(ids, sys0, run, q, m, i)
  {
    var p := Front(run);
    if (q, m) in After(ids, sys0, p).scanned {
      i := ScannedWasScanned(ids, sys0, p, q, m);
    } else {
      i := |run| - 1;
    }
    assert run[..i] == p[..i];
  }

  /** A forward goes to somebody the table lists. */
  lemma ForwardedIsReplayed(ids: set<NodeId>, t: Table, self: NodeId, replay: set<NodeId>, scanned: set<(NodeId, Name)>,
                            path: string, requested: string, d: Proxy.Decision)
    requires TableOk(ids, t, self, replay, scanned) && Proxy.Handles(t, path, false, requested, d) && d.Forward?
    ensures d.dest.id in replay && (d.dest.id, Proxy.ToLower(requested)) in scanned
  {
    var m := Proxy.ToLower(requested);
    assert RouteOk(m, t[m], self, replay, scanned);
  }

  /**
   Over every run of everything together, as the code is written: an up-to-date proxy forwards a request only to
   another node, registered with the admin at that moment, that scanned the requested model from providers of
   its own.
   */
  lemma ForwardsReachScanners(ids: set<NodeId>, cmp: D.Compare, sys0: R.System, run: seq<Action>, k: R.ProcId,
                              path: string, requested: string, d: Proxy.Decision) returns (i: nat)
    requires R.IsStart(sys0, cmp) && Valid(ids, sys0, run) && k in After(ids, sys0, run).sys.procs
    requires var s := After(ids, sys0, run).sys;
             var c := s.procs[k].client;
             Admin.Holds(s.admin.server, c.self, c.token) && c.last == s.admin.server.clock
    requires Proxy.Handles(TableOf(After(ids, sys0, run), k), path, false, requested, d) && d.Forward?
    ensures var s := After(ids, sys0, run).sys;
            d.dest.id in s.admin.server.nodes && d.dest.id != s.procs[k].client.self
    ensures ScannedAt(ids, sys0, run, d.dest.id, Proxy.ToLower(requested), i)
  {
    var s := After(ids, sys0, run);
    var c := s.sys.procs[k].client;
    AlwaysOk(ids, cmp, sys0, run);
    ForwardedIsReplayed(ids, TableOf(s, k), c.self, D.Replay(c.events), s.scanned, path, requested, d);
    Projects(ids, sys0, run);
    ReplayedIsRegistered(cmp, sys0, DiscoveryOf(run), k, d.dest.id);
    i := ScannedWasScanned(ids, sys0, run, d.dest.id, Proxy.ToLower(requested));
  }

  // ---------------------------------------------------------------- what the tables must say

  /** Everything that entered or left a proxy's table, in order. */
  ghost function History(ids: set<NodeId>, sys0: R.System, run: seq<Action>, k: R.ProcId): seq<Event>
    requires Valid(ids, sys0, run)
  {
    if run == [] then []
    else
      var before, s := History(ids, sys0, Front(run), k), After(ids, sys0, Front(run));
      match Last(run)
      case Scan(j, name, routes) => if j == k then before + [Added(PeerNode(SelfOf(s, k), name), routes)] else before
      case Commit(a, evs) => if a.k == k then before + evs else before
      case _ => before
  }

  lemma {:induction false} AsWrittenConcat(t: Table, xs: seq<Event>, ys: seq<Event>)
    ensures AsWritten(t, xs + ys) == AsWritten(AsWritten(t, xs), ys)
  {
    if ys == [] {
      assert xs + ys == xs;
    } else {
      AsWrittenConcat(t, xs, Front(ys));
      assert Front(xs + ys) == xs + Front(ys);
    }
  }

  /** A proxy's table is made of its scans and its handler calls, so LastWriterWins says exactly what is in it. */
  lemma {:induction false} TableIsHistory(ids: set<NodeId>, sys0: R.System, run: seq<Action>, k: R.ProcId)
    requires Valid(ids, sys0, run)
    ensures TableOf(After(ids, sys0, run), k) == AsWritten(map[], History(ids, sys0, run, k))
  {
    if run != [] {
      var p, x := Front(run), Last(run);
      TableIsHistory(ids, sys0, p, k);
      var before := History(ids, sys0, p, k);
      if x.Scan? && x.k == k {
        var added := Added(PeerNode(SelfOf(After(ids, sys0, p), k), x.name), x.routes);
        assert Front(before + [added]) == before;
      } else if x.Commit? && x.a.k == k {
        AsWrittenConcat(map[], before, x.evs);
      }
    }
  }

  /** A fetch brings an answer with exactly the models its sender has providers of and none of them private. */
  lemma FetchAnswers(ids: set<NodeId>, s: State, k: R.ProcId, j: R.ProcId, p: PeerNode) returns (r: Answer)
    requires Enabled(ids, s, Fetch(k, j, p))
    ensures r in Apply(ids, s, Fetch(k, j, p)).answers && s.answers <= Apply(ids, s, Fetch(k, j, p)).answers
    ensures r.to == k && r.p == p && FromWire(r.models)
    ensures var t := TableOf(s, j);
            && (forall m :: m in r.models <==> m in t && t[m].providers != [] && !IsPrivate(t[m]))
            && (forall m :: m in r.models ==> r.models[m].info == t[m].info)
  {
    r := Answer(k, p, Fetched(TableOf(s, j)));
  }

  // ---------------------------------------------------------------- a forward

  lemma Grow(ids: set<NodeId>, sys0: R.System, run: seq<Action>, x: Action) returns (longer: seq<Action>)
    requires Valid(ids, sys0, run) && Enabled(ids, After(ids, sys0, run), x)
    ensures longer == run + [x] && Valid(ids, sys0, longer)
    ensures After(ids, sys0, longer) == Apply(ids, After(ids, sys0, run), x)
  {
    longer := run + [x];
    assert Front(longer) == run;
  }

  /** Discovery runs that commit nothing are runs of everything. */
  lemma {:induction false} Embed(ids: set<NodeId>, sys0: R.System, dis: seq<R.Action>) returns (run: seq<Action>)
    requires R.Valid(sys0, dis) && forall i :: 0 <= i < |dis| ==> !dis[i].Commit?
    ensures Valid(ids, sys0, run) && After(ids, sys0, run) == State(R.After(sys0, dis), map[], {}, {})
  {
    run := [];
    if dis != [] {
      run := Embed(ids, sys0, Front(dis));
      run := Grow(ids, sys0, run, Discover(Last(dis)));
    }
  }

  const A := Admin.Node("a", "A", 1, 1)
  const B := Admin.Node("b", "B", 2, 2)
  const SYS := R.System(R.M.START, map[0 := R.Proc(D.NewClient(D.ByLogicalTime, "a"), R.Joining),
                                       1 := R.Proc(D.NewClient(D.ByLogicalTime, "b"), R.Joining)])

  /** "a" is in, with nothing offered to it yet, and the admin lists "a" and "b". */
  ghost predicate Ready(s: R.System) {
    && s.procs.Keys == {0, 1} && s.procs[1].client.self == "b"
    && s.procs[0] == R.Proc(D.NewClient(D.ByLogicalTime, "a").(token := "ta"), R.Idle)
    && s.admin.server.clock == 2 && Admin.Holds(s.admin.server, "a", "ta")
    && Admin.Listing(s.admin.server) == map["a" := A, "b" := B]
  }

  lemma FirstIn() returns (dis: seq<R.Action>)
    ensures R.Valid(SYS, dis) && forall i :: 0 <= i < |dis| ==> !dis[i].Commit?
    ensures var s := R.After(SYS, dis);
            && s.procs == SYS.procs[0 := R.Proc(D.NewClient(D.ByLogicalTime, "a").(token := "ta"), R.Idle)]
            && s.admin.server == Admin.Server(map["a" := Admin.NodeRef(A, "ta", 1)], 1, 1, {"a", "b"})
            && s.admin.checked == map[1 := ("b", "B")] && s.admin.issued == {"ta"}
  {
    dis := R.BothChecked(SYS);
    dis := R.Grow(SYS, dis, R.Register(0, R.M.InsertNode(0, "a", "A", "ta", 1)));
    dis := R.Grow(SYS, dis, R.Install(0));
  }

  lemma BothIn() returns (dis: seq<R.Action>)
    ensures R.Valid(SYS, dis) && (forall i :: 0 <= i < |dis| ==> !dis[i].Commit?) && Ready(R.After(SYS, dis))
  {
    dis := FirstIn();
    dis := R.Grow(SYS, dis, R.Register(1, R.M.InsertNode(1, "b", "B", "tb", 2)));
  }

  const IDS: set<NodeId> := {"a", "b"}
  const ROUTES: Table := map["m" := Route("info", [Provider(false, "ollama", Url("http://b", true), "")], map[])]
  const MODELS: Table := map["m" := Route("info", [], map[])]
  const PEER := PeerNode("b", "B")

  lemma ScannedModels()
    ensures IsScan(ROUTES) && ROUTES.Keys !! IDS && Fetched(Overwrite(map[], PEER, ROUTES)) == MODELS
  {
    var t := Overwrite(map[], PEER, ROUTES);
    assert t == map["m" := WithPeer(ROUTES["m"], PEER)];
    assert !IsPrivate(t["m"]);
  }

  /** "b" scans its providers and "a" asks it for its models. */
  lemma Exchanged() returns (run: seq<Action>)
    ensures Valid(IDS, SYS, run) && Ready(After(IDS, SYS, run).sys)
    ensures TableOf(After(IDS, SYS, run), 0) == map[] && Answer(0, PEER, MODELS) in After(IDS, SYS, run).answers
  {
    var dis := BothIn();
    ScannedModels();
    run := Embed(IDS, SYS, dis);
    run := Grow(IDS, SYS, run, Scan(1, "B", ROUTES));
    run := Grow(IDS, SYS, run, Fetch(0, 1, PEER));
  }

  const OFFER := [D.PeerEvent(B, false, true)]

  /** "a" refreshes and lists, and is about to offer "b". */
  lemma Polled() returns (run: seq<Action>)
    ensures Valid(IDS, SYS, run) && TableOf(After(IDS, SYS, run), 0) == map[]
    ensures Answer(0, PEER, MODELS) in After(IDS, SYS, run).answers
    ensures var s := After(IDS, SYS, run).sys;
            && 0 in s.procs && s.admin.server.clock == 2 && Admin.Holds(s.admin.server, "a", "ta")
            && s.procs[0] == R.Proc(D.NewClient(D.ByLogicalTime, "a").(token := "ta"),
                                    R.Listed(2, map["a" := A, "b" := B]))
  {
    run := Exchanged();
    var s := After(IDS, SYS, run).sys;
    R.M.RefreshIsInvisible(s.admin, "a", "ta", 9);
    run := Grow(IDS, SYS, run, Discover(R.RefreshValid(0, 9)));
    R.Lists(s, 0, 9);
    run := Grow(IDS, SYS, run, Discover(R.ListPeers(0)));
  }

  lemma OffersB(c: D.Client)
    requires c == D.NewClient(D.ByLogicalTime, "a").(token := "ta")
    ensures D.IsDelivery(c, map["a" := A, "b" := B], {}, {}, [], OFFER) && D.AllOk([] + OFFER)
    ensures Handled([] + OFFER, [Added(PEER, MODELS)])
  {
    assert D.Updated(D.ByLogicalTime, "a", map[], map["a" := A, "b" := B]) == map["b" := B];
    assert D.Removed("a", map[], map["a" := A, "b" := B]) == map[];
    assert Front(OFFER) == [] && [] + OFFER == OFFER && Front([Added(PEER, MODELS)]) == [];
  }

  lemma Delivered() returns (run: seq<Action>)
    ensures Valid(IDS, SYS, run) && TableOf(After(IDS, SYS, run), 0) == AsWritten(map[], [Added(PEER, MODELS)])
    ensures var s := After(IDS, SYS, run).sys;
            && 0 in s.procs && s.admin.server.clock == 2 && Admin.Holds(s.admin.server, "a", "ta")
            && s.procs[0].client.self == "a" && s.procs[0].client.token == "ta" && s.procs[0].client.last == 2
  {
    run := Polled();
    var s := After(IDS, SYS, run).sys;
    var c := s.procs[0].client;
    OffersB(c);
    D.ClockCommits(c, 2, s.procs[0].phase.listing, {}, {}, [], OFFER);
    run := Grow(IDS, SYS, run, Commit(R.Commit(0, {}, {}, [], OFFER), [Added(PEER, MODELS)]));
  }

  /** The mesh works: a run from the start in which an up-to-date proxy forwards a model to the node that scanned it. */
  lemma ForwardHappens() returns (run: seq<Action>)
    ensures R.IsStart(SYS, D.ByLogicalTime) && Valid(IDS, SYS, run)
    ensures var s := After(IDS, SYS, run);
            && 0 in s.sys.procs
            && var c := s.sys.procs[0].client;
            && Admin.Holds(s.sys.admin.server, c.self, c.token) && c.last == s.sys.admin.server.clock
            && Proxy.Handles(TableOf(s, 0), "/v1/responses", false, "M", Proxy.Forward(PEER))
  {
    run := Delivered();
    ForwardsToPeer();
  }

  lemma ForwardsToPeer()
    ensures Proxy.Handles(AsWritten(map[], [Added(PEER, MODELS)]), "/v1/responses", false, "M", Proxy.Forward(PEER))
  {
    assert Front([Added(PEER, MODELS)]) == [];
    assert Proxy.ToLower("M") == "m" by {
      assert Proxy.IsUpper('M');
    }
    var t := Overwrite(map[], PEER, MODELS);
    assert t["m"] == WithPeer(MODELS["m"], PEER) && t["m"].peers["b"] == PEER;
  }
}
