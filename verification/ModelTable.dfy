/**
 The model routing table (pkg/proxy/modeldex).

 A `ModelRoute` is a Go struct: copying it copies the reference to its peer map, not the map.  The
 router is therefore modelled with the peer maps as objects of their own, and `Means` says what the
 table means.  The functions on `Table` say what each operation does to that meaning.
 */
module ModelTable {
  import opened Basics

  type NodeId = string
  type Name = string

  datatype PeerNode = PeerNode(id: NodeId, name: string)

  /** A configured address and whether url.Parse accepts it. */
  datatype Url = Url(text: string, parses: bool)

  datatype Provider = Provider(isPrivate: bool, kind: string, baseUrl: Url, token: string)

  /** What a route means; `info` stands for the descriptive fields (capabilities, context length, owner, date). */
  datatype Route = Route(info: string, providers: seq<Provider>, peers: map<NodeId, PeerNode>)

  type Table = map<Name, Route>

  predicate IsLocal(r: Route) {
    r.providers != []
  }

  predicate IsPrivate(r: Route) {
    exists i :: 0 <= i < |r.providers| && r.providers[i].isPrivate
  }

  predicate Exports(t: Table, m: Name) {
    m in t && IsLocal(t[m]) && !IsPrivate(t[m])
  }

  function Strip(r: Route, id: NodeId): Route {
    r.(peers := r.peers - {id})
  }

  function WithPeer(r: Route, p: PeerNode): Route {
    r.(peers := r.peers[p.id := p])
  }

  /** AddPeerModels as written, for a node whose id names no model: every named route is replaced. */
  function Overwrite(t: Table, p: PeerNode, models: Table): Table {
    t + map m | m in models :: WithPeer(models[m], p)
  }

  function At(t: Table, m: Name): Option<Route> {
    if m in t then Some(t[m]) else None
  }

  /**
   The route under `m` after AddPeerModels, as written, entered `names` for the node `p`.  When the node's id
   names a model already, that model's route goes to every name, and `sharers`, the names whose entries hold
   its very peer map, list the peer from then on, too.  When the id is itself among the incoming names, the
   names taken after it get its route instead of their own; `early` are those taken before.
   */
  function EntryAt(t: Table, p: PeerNode, models: Table, names: set<Name>, sharers: set<Name>, early: set<Name>,
                   m: Name): Option<Route>
  {
    if p.id in t && m in names then Some(WithPeer(t[p.id], p))
    else if p.id in t && m in sharers && m in t && names != {} then Some(WithPeer(t[m], p))
    else if p.id !in t && m in names && m in models then
      Some(WithPeer(if m !in early && p.id in models then models[p.id] else models[m], p))
    else At(t, m)
  }

  ghost predicate EnteredSoFar(t: Table, p: PeerNode, models: Table, names: set<Name>, sharers: set<Name>,
                               early: set<Name>, t': Table)
  {
    && (p.id in early ==> p.id in t)
    && forall m :: At(t', m) == EntryAt(t, p, models, names, sharers, early, m)
  }

  /** What AddPeerModels, as written, makes of a table. */
  ghost predicate Entered(t: Table, p: PeerNode, models: Table, sharers: set<Name>, early: set<Name>, t': Table) {
    EnteredSoFar(t, p, models, models.Keys, sharers, early, t')
  }

  /**
   A node whose id names no model, in the table or among the incoming ones, overwrites the routes it names in any
   order.
   */
  lemma OrderIsImmaterial(t: Table, p: PeerNode, models: Table, sharers: set<Name>, early: set<Name>, t': Table)
    requires Entered(t, p, models, sharers, early, t') && p.id !in t && p.id !in models
    ensures t' == Overwrite(t, p, models)
  {
    forall m
      ensures At(t', m) == At(Overwrite(t, p, models), m)
    {
    }
    SameEverywhere(t', Overwrite(t, p, models));
  }

  lemma SameEverywhere(a: Table, b: Table)
    requires forall m :: At(a, m) == At(b, m)
    ensures a == b
  {
    forall m
      ensures m in a <==> m in b
      ensures m in a ==> a[m] == b[m]
    {
      assert At(a, m) == At(b, m);
    }
  }

  lemma TwiceIsOnce(r: Route, p: PeerNode)
    ensures WithPeer(WithPeer(r, p), p) == WithPeer(r, p)
  {
    assert r.peers[p.id := p][p.id := p] == r.peers[p.id := p];
  }

  /** One more name, while the node's id names a model whose map `sharing` hold. */
  ghost predicate Shares(t: Table, p: PeerNode, name: Name, sharing: set<Name>, t': Table) {
    p.id in t && forall m :: At(t', m) == if m == name then Some(WithPeer(t[p.id], p))
                                          else if m in sharing && m in t then Some(WithPeer(t[m], p))
                                          else At(t, m)
  }

  lemma SharesOneMore(t: Table, p: PeerNode, models: Table, names: set<Name>, sharers: set<Name>, early: set<Name>,
                      t1: Table, name: Name, sharing: set<Name>, t2: Table)
    requires EnteredSoFar(t, p, models, names, sharers, early, t1) && Shares(t1, p, name, sharing, t2)
    requires names <= models.Keys && name in models && name !in names && early <= names
    requires p.id in t ==> p.id in sharers
    requires if p.id in t then sharing == sharers + names else p.id in names && p.id !in early && sharing <= names
    ensures EnteredSoFar(t, p, models, names + {name}, sharers, early, t2)
  {
    forall m
      ensures At(t2, m) == EntryAt(t, p, models, names + {name}, sharers, early, m)
    {
      assert At(t1, m) == EntryAt(t, p, models, names, sharers, early, m);
      assert At(t1, p.id) == EntryAt(t, p, models, names, sharers, early, p.id);
      assert name in names + {name};
      if p.id in t { TwiceIsOnce(t[p.id], p); }
      if m in t { TwiceIsOnce(t[m], p); }
      if m in models { TwiceIsOnce(models[m], p); }
      if p.id in models { TwiceIsOnce(models[p.id], p); }
    }
  }

  lemma OwnOneMore(t: Table, p: PeerNode, models: Table, names: set<Name>, sharers: set<Name>, early: set<Name>,
                   t1: Table, name: Name)
    requires EnteredSoFar(t, p, models, names, sharers, early, t1)
    requires name in models && p.id !in t && early <= names && name !in names && p.id !in names
    ensures EnteredSoFar(t, p, models, names + {name}, sharers, if name == p.id then early else early + {name},
                         t1[name := WithPeer(models[name], p)])
  {
    var early' := if name == p.id then early else early + {name};
    forall m
      ensures At(t1[name := WithPeer(models[name], p)], m) == EntryAt(t, p, models, names + {name}, sharers, early', m)
    {
      assert At(t1, m) == EntryAt(t, p, models, names, sharers, early, m);
    }
  }

  /** AddPeerModels as meant: a model already in the table keeps its route and gains the peer. */
  function Merge(t: Table, p: PeerNode, models: Table): Table {
    t + map m | m in models :: WithPeer(if m in t then t[m] else models[m], p)
  }

  /** RemovePeer: every route loses the peer, no route disappears. */
  function Without(t: Table, id: NodeId): Table {
    t + map m | m in t :: Strip(t[m], id)
  }

  /** What a peer receives of a route: providers and peers never cross the wire. */
  function OnTheWire(r: Route): Route {
    Route(r.info, [], map[])
  }

  /** ListExportedModels as fetched by GetModelsMesh. */
  function Fetched(t: Table): Table {
    map[] + map m | m in (set n | n in t && Exports(t, n)) :: OnTheWire(t[m])
  }

  /** On the way there: routes named in `todo` may still list the peer. */
  ghost predicate PartlyWithout(t: Table, id: NodeId, todo: set<Name>, t': Table) {
    && t'.Keys == t.Keys
    && forall m :: m in t ==> t'[m] == Strip(t[m], id) || (m in todo && t'[m] == t[m])
  }

  lemma StripTwice(r: Route, id: NodeId)
    ensures Strip(Strip(r, id), id) == Strip(r, id)
  {
    assert r.peers - {id} - {id} == r.peers - {id};
  }

  /** One route and those in `others` have lost the peer since. */
  lemma PartlyWithoutStep(t: Table, id: NodeId, todo: set<Name>, t1: Table, t2: Table, name: Name, others: set<Name>)
    requires PartlyWithout(t, id, todo, t1) && t2.Keys == t1.Keys && name in others
    requires forall m :: m in t2 ==> t2[m] == if m in others then Strip(t1[m], id) else t1[m]
    ensures PartlyWithout(t, id, todo - {name}, t2)
  {
    forall m | m in t
      ensures t2[m] == Strip(t[m], id) || (m in todo - {name} && t2[m] == t[m])
    {
      StripTwice(t[m], id);
    }
  }

  lemma AllWithout(t: Table, id: NodeId, t': Table)
    requires PartlyWithout(t, id, {}, t')
    ensures t' == Without(t, id)
  {
  }

  /** Entering a node's models makes every one of them list the node, and touches no other name's route otherwise. */
  lemma EnteredLists(t: Table, p: PeerNode, models: Table, sharers: set<Name>, early: set<Name>, t': Table, m: Name)
    requires Entered(t, p, models, sharers, early, t')
    ensures m in t' <==> m in t || m in models
    ensures m in models ==> p.id in t'[m].peers && t'[m].peers[p.id] == p
    ensures m in t && m !in models ==>
              && t'[m].info == t[m].info && t'[m].providers == t[m].providers
              && (t'[m].peers == t[m].peers || (p.id in t && m in sharers && t'[m].peers == t[m].peers[p.id := p]))
    ensures m in models && p.id !in t && p.id !in models ==>
              && t'[m].info == models[m].info && t'[m].providers == models[m].providers
              && t'[m].peers == models[m].peers[p.id := p]
  {
    assert At(t', m) == EntryAt(t, p, models, models.Keys, sharers, early, m);
    if m in models {
      assert models.Keys != {};
    }
  }

  // ---------------------------------------------------------------- the router object

  class PeersRef {
    var m: map<NodeId, PeerNode>

    constructor (m: map<NodeId, PeerNode>)
      ensures this.m == m
    {
      this.m := m;
    }
  }

  /** A table entry; AddPeer has given every entry a peer map. */
  datatype ModelRoute = ModelRoute(info: string, providers: seq<Provider>, peers: PeersRef)

  ghost function Value(r: ModelRoute): Route
    reads r.peers
  {
    Route(r.info, r.providers, r.peers.m)
  }

  /** No two entries share a peer map. */
  ghost predicate Separate(models: map<Name, ModelRoute>) {
    forall a, b :: a in models && b in models && a != b ==> models[a].peers != models[b].peers
  }

  ghost function RefsOf(models: map<Name, ModelRoute>): set<PeersRef> {
    set m | m in models :: models[m].peers
  }

  /** The names whose entries hold the peer map of the entry called `id`. */
  ghost function Sharing(models: map<Name, ModelRoute>, id: NodeId): set<Name> {
    set m | m in models && id in models && models[m].peers == models[id].peers
  }

  /** Which entries AddPeerModels has touched so far, and whose peer maps those hold. */
  ghost predicate Touched(models0: map<Name, ModelRoute>, models: map<Name, ModelRoute>, id: NodeId, done: set<Name>) {
    && models.Keys == models0.Keys + done
    && (forall m :: m in models && m !in done ==> models[m] == models0[m])
    && (id in models0 ==> models[id] == models0[id] && forall m :: m in done ==> models[m] == models0[id])
    && (id !in models0 ==> forall m :: m in done ==> models[m].peers !in RefsOf(models0))
  }

  lemma TouchedStep(models0: map<Name, ModelRoute>, models: map<Name, ModelRoute>, id: NodeId, done: set<Name>,
                    name: Name, entry: ModelRoute)
    requires Touched(models0, models, id, done)
    requires if id in models then entry == models[id] else entry.peers !in RefsOf(models0)
    ensures Touched(models0, models[name := entry], id, done + {name})
  {
  }

  lemma SharingNow(models0: map<Name, ModelRoute>, models: map<Name, ModelRoute>, id: NodeId, done: set<Name>)
    requires Touched(models0, models, id, done) && id in models
    ensures if id in models0 then Sharing(models, id) == Sharing(models0, id) + done
            else id in done && Sharing(models, id) <= done
  {
  }

  lemma MoveOne(all: set<Name>, done: set<Name>, todo: set<Name>, name: Name)
    requires done + todo == all && done !! todo && name in todo
    ensures (done + {name}) + (todo - {name}) == all && (done + {name}) !! (todo - {name})
  {
  }

  lemma SeparateStep(models: map<Name, ModelRoute>, name: Name, entry: ModelRoute)
    requires Separate(models) && entry.peers !in RefsOf(models)
    ensures Separate(models[name := entry])
  {
  }

  /** From the entries `models0` meaning `t0` to `models` meaning `t`, with `done` entered. */
  ghost predicate Progress(models0: map<Name, ModelRoute>, t0: Table, models: map<Name, ModelRoute>, t: Table,
                           p: PeerNode, incoming: Table, done: set<Name>, early: set<Name>)
  {
    && early <= done <= incoming.Keys && models0.Keys == t0.Keys && Touched(models0, models, p.id, done)
    && EnteredSoFar(t0, p, incoming, done, Sharing(models0, p.id), early, t)
    && (Separate(models0) && p.id !in models0 && p.id !in incoming ==> Separate(models))
  }

  /** One iteration, as AddPeerModel leaves it. */
  ghost predicate Iteration(models1: map<Name, ModelRoute>, t1: Table, models2: map<Name, ModelRoute>, t2: Table,
                            p: PeerNode, name: Name, route: Route)
  {
    && name in models2 && models2 == models1[name := models2[name]]
    && if p.id in models1 then models2[name] == models1[p.id] && Shares(t1, p, name, Sharing(models1, p.id), t2)
       else models2[name].peers !in RefsOf(models1) && t2 == t1[name := WithPeer(route, p)]
  }

  lemma ProgressStep(models0: map<Name, ModelRoute>, t0: Table, models1: map<Name, ModelRoute>, t1: Table,
                     models2: map<Name, ModelRoute>, t2: Table, p: PeerNode, incoming: Table, done: set<Name>,
                     early: set<Name>, name: Name)
    returns (early': set<Name>)
    requires Progress(models0, t0, models1, t1, p, incoming, done, early) && name in incoming && name !in done
    requires Iteration(models1, t1, models2, t2, p, name, incoming[name])
    requires p.id !in models1 ==> models2[name].peers !in RefsOf(models0)
    ensures Progress(models0, t0, models2, t2, p, incoming, done + {name}, early')
    ensures p.id in models1 ==> models2[p.id] == models1[p.id]
  {
    TouchedStep(models0, models1, p.id, done, name, models2[name]);
    if p.id in models1 {
      early' := early;
      SharingNow(models0, models1, p.id, done);
      SharesOneMore(t0, p, incoming, done, Sharing(models0, p.id), early, t1, name, Sharing(models1, p.id), t2);
    } else {
      early' := if name == p.id then early else early + {name};
      OwnOneMore(t0, p, incoming, done, Sharing(models0, p.id), early, t1, name);
      if Separate(models1) {
        SeparateStep(models1, name, models2[name]);
      }
    }
  }

  class ModelRouter {
    var models: map<Name, ModelRoute>

    constructor ()
      ensures Separate(models) && models == map[]
    {
      models := map[];
    }

    ghost function Refs(): set<PeersRef>
      reads this
    {
      RefsOf(models)
    }

    /** `t` is what the table means. */
    ghost predicate Means(t: Table)
      reads this, Refs()
    {
      models.Keys == t.Keys && forall m :: m in models ==> Value(models[m]) == t[m]
    }

    ghost function Current(): (t: Table)
      reads this, Refs()
      ensures Means(t)
    {
      map[] + map m | m in models :: Value(models[m])
    }

    /**
     One iteration of AddPeerModels.  The route it starts from is looked up under the node's id, not under
     the model's name; only when there is none does the incoming route, which nobody else holds, enter the table.
     */
    method AddPeerModel(node: PeerNode, name: Name, incoming: Route, ghost before: Table) returns (ghost t: Table)
      requires Means(before)
      modifies this, if node.id in models then {models[node.id].peers} else {}
      ensures Means(t) && Iteration(old(models), before, models, t, node, name, incoming)
      ensures node.id !in old(models) ==> fresh(models[name].peers)
    {
      var route;
      if node.id in models {
        route := models[node.id];
      } else {
        var peers := new PeersRef(incoming.peers);
        route := ModelRoute(incoming.info, incoming.providers, peers);
      }
      route.peers.m := route.peers.m[node.id := node];
      models := models[name := route];
      t := if node.id in old(models) then Current() else before[name := WithPeer(incoming, node)];
    }

    /**
     AddPeerModels.  When the node's id names no model, every named route is replaced and the table's peer
     maps stay apart.  When it does name one, that model's route, and its peer map, goes to every added name.
     */
    method AddPeerModels(node: PeerNode, incoming: Table, ghost before: Table)
      returns (ghost early: set<Name>, ghost t: Table)
      requires Means(before)
      modifies this, Refs()
      ensures Means(t) && Entered(before, node, incoming, Sharing(old(models), node.id), early, t)
      ensures old(Separate(models)) && node.id !in old(models) && node.id !in incoming ==> Separate(models)
      ensures node.id in old(models) ==> forall m :: m in incoming ==> m in models && models[m] == old(models)[node.id]
    {
      early, t := {}, before;
      ghost var models0, done: set<Name> := models, {};
      var todo := incoming.Keys;
      while todo != {}
        invariant done + todo == incoming.Keys && done !! todo
        invariant Means(t) && Progress(models0, before, models, t, node, incoming, done, early)
        invariant node.id in models && node.id !in models0 ==> fresh(models[node.id].peers)
      {
        var name :| name in todo;
        ghost var models1, t1 := models, t;
        t := AddPeerModel(node, name, incoming[name], t1);
        early := ProgressStep(models0, before, models1, t1, models, t, node, incoming, done, early, name);
        MoveOne(incoming.Keys, done, todo, name);
        todo, done := todo - {name}, done + {name};
      }
    }

    /** One iteration of RemovePeer works on a copy of the route, but the copy shares the peer map. */
    method RemoveFrom(name: Name, node: PeerNode, ghost before: Table) returns (ghost t: Table)
      requires Means(before) && name in models
      modifies models[name].peers
      ensures models == old(models) && Means(t) && t.Keys == before.Keys
      ensures forall m :: m in t ==> t[m] == if m in Sharing(models, name) then Strip(before[m], node.id) else before[m]
    {
      var model := models[name];
      model.peers.m := model.peers.m - {node.id};
      t := Current();
    }

    method RemovePeer(node: PeerNode, ghost before: Table)
      requires Means(before)
      modifies Refs()
      ensures models == old(models) && Means(Without(before, node.id))
    {
      ghost var t := before;
      var todo := models.Keys;
      while todo != {}
        invariant todo <= models.Keys && models == old(models)
        invariant Means(t) && PartlyWithout(before, node.id, todo, t)
      {
        var name :| name in todo;
        ghost var t1 := t;
        t := RemoveFrom(name, node, t1);
        PartlyWithoutStep(before, node.id, todo, t1, t, name, Sharing(models, name));
        todo := todo - {name};
      }
      AllWithout(before, node.id, t);
    }

    /** ListExportedModels: the names a peer will be told about. */
    method ListExportedModels(ghost t: Table) returns (local: seq<Name>)
      requires Means(t)
      ensures forall m :: m in local <==> m in t && t[m].providers != [] && !IsPrivate(t[m])
      ensures forall i, j :: 0 <= i < j < |local| ==> local[i] != local[j]
    {
      local := [];
      var todo := models.Keys;
      while todo != {}
        invariant todo <= models.Keys
        invariant forall m :: m in local <==> m in t && t[m].providers != [] && !IsPrivate(t[m]) && m !in todo
        invariant forall i, j :: 0 <= i < j < |local| ==> local[i] != local[j]
      {
        var name :| name in todo;
        todo := todo - {name};
        var model := models[name];
        var secret := HasPrivate(model.providers);
        if model.providers != [] && !secret {
          local := local + [name];
        }
      }
    }
  }

  /**
   A fetch: what `router` exports, as the answer decodes it and as GetModelsMesh keys it.  Every local, public
   model is there, whoever else its route lists, with its description and nothing that stays at home.
   */
  method FetchModels(router: ModelRouter, ghost t: Table) returns (models: Table)
    requires router.Means(t)
    ensures forall m :: m in models <==> m in t && t[m].providers != [] && !IsPrivate(t[m])
    ensures forall m :: m in models ==> models[m] == Route(t[m].info, [], map[])
    ensures models == Fetched(t)
  {
    var exported := router.ListExportedModels(t);
    models := map[];
    for i := 0 to |exported|
      invariant forall k :: 0 <= k < i ==> exported[k] in models
      invariant forall m :: m in models ==> m in exported && m in t && models[m] == Route(t[m].info, [], map[])
    {
      assert exported[i] in exported;
      models := models[exported[i] := Route(router.models[exported[i]].info, [], map[])];
    }
  }

  /** IsPrivate: one private provider hides the model. */
  method HasPrivate(providers: seq<Provider>) returns (secret: bool)
    ensures secret <==> exists i :: 0 <= i < |providers| && providers[i].isPrivate
  {
    for i := 0 to |providers|
      invariant forall j :: 0 <= j < i ==> !providers[j].isPrivate
    {
      if providers[i].isPrivate {
        return true;
      }
    }
    return false;
  }

  // ---------------------------------------------------------------- a provider's own models

  datatype ModelConfig = ModelConfig(model: Name, isPrivate: bool, capabilities: string)

  /** The entries for one model, in order. */
  function Configured(entries: seq<ModelConfig>, m: Name): seq<ModelConfig> {
    if entries == [] then []
    else if Last(entries).model == m then Configured(Front(entries), m) + [Last(entries)]
    else Configured(Front(entries), m)
  }

  lemma {:induction false} ConfiguredIn(entries: seq<ModelConfig>, m: Name)
    ensures forall e :: e in Configured(entries, m) <==> e in entries && e.model == m
    ensures Configured(entries, m) != [] <==> exists e :: e in entries && e.model == m
  {
    if entries != [] {
      ConfiguredIn(Front(entries), m);
      assert entries == Front(entries) + [Last(entries)];
    }
    if Configured(entries, m) != [] {
      assert Configured(entries, m)[0] in entries;
    }
  }

  /** It keeps their order: entries one after the other. */
  lemma {:induction false} ConfiguredInOrder(a: seq<ModelConfig>, b: seq<ModelConfig>, e: ModelConfig, m: Name)
    ensures Configured(a + b, m) == Configured(a, m) + Configured(b, m)
    ensures Configured([e], m) == if e.model == m then [e] else []
  {
    assert Front([e]) == [];
    if b == [] {
      assert a + b == a;
    } else {
      ConfiguredInOrder(a, Front(b), e, m);
      assert Front(a + b) == a + Front(b);
    }
  }

  lemma ConfiguredStep(entries: seq<ModelConfig>, i: nat, m: Name)
    requires i < |entries|
    ensures Configured(entries[..i + 1], m) ==
            if entries[i].model == m then Configured(entries[..i], m) + [entries[i]] else Configured(entries[..i], m)
  {
    assert Front(entries[..i + 1]) == entries[..i];
  }

  /** One provider per entry, in order; the description is the first entry's. */
  ghost predicate IsConfigured(r: Route, c: seq<ModelConfig>, kind: string, baseUrl: Url, token: string) {
    && c != [] && r.info == c[0].capabilities && r.peers == map[] && |r.providers| == |c|
    && forall i :: 0 <= i < |c| ==> r.providers[i] == Provider(c[i].isPrivate, kind, baseUrl, token)
  }

  ghost predicate Yields(t: Table, entries: seq<ModelConfig>, kind: string, baseUrl: Url, token: string) {
    && (forall m :: m in t <==> Configured(entries, m) != [])
    && (forall m :: m in t ==> IsConfigured(t[m], Configured(entries, m), kind, baseUrl, token))
  }

  function OneMoreProvider(t: Table, e: ModelConfig, p: Provider): Table {
    var route := if e.model in t then t[e.model] else Route(e.capabilities, [], map[]);
    t[e.model := route.(providers := route.providers + [p])]
  }

  lemma YieldsOneMore(t: Table, entries: seq<ModelConfig>, i: nat, kind: string, baseUrl: Url, token: string)
    requires i < |entries| && Yields(t, entries[..i], kind, baseUrl, token)
    ensures var p := Provider(entries[i].isPrivate, kind, baseUrl, token);
            Yields(OneMoreProvider(t, entries[i], p), entries[..i + 1], kind, baseUrl, token)
  {
    var e := entries[i];
    var t' := OneMoreProvider(t, e, Provider(e.isPrivate, kind, baseUrl, token));
    forall m
      ensures m in t' <==> Configured(entries[..i + 1], m) != []
      ensures m in t' ==> IsConfigured(t'[m], Configured(entries[..i + 1], m), kind, baseUrl, token)
    {
      ConfiguredStep(entries, i, m);
    }
  }

  /** modelsFromWhitelist. */
  method ModelsFromWhitelist(entries: seq<ModelConfig>, kind: string, baseUrl: Url, token: string) returns (t: Table)
    ensures forall m :: m in t <==> exists e :: e in entries && e.model == m
    ensures forall m :: m in t ==> IsConfigured(t[m], Configured(entries, m), kind, baseUrl, token)
  {
    t := map[];
    for i := 0 to |entries|
      invariant Yields(t, entries[..i], kind, baseUrl, token)
    {
      var e := entries[i];
      YieldsOneMore(t, entries, i, kind, baseUrl, token);
      var route := if e.model in t then t[e.model] else Route(e.capabilities, [], map[]);
      t := t[e.model := route.(providers := route.providers + [Provider(e.isPrivate, kind, baseUrl, token)])];
    }
    assert entries[..|entries|] == entries;
    forall m {
      ConfiguredIn(entries, m);
    }
  }

  /** So every route it yields is local, nobody's peer yet, and private exactly when one of its entries is. */
  lemma ConfiguredRoute(r: Route, entries: seq<ModelConfig>, m: Name, kind: string, baseUrl: Url, token: string)
    requires IsConfigured(r, Configured(entries, m), kind, baseUrl, token)
    ensures IsLocal(r) && r.peers == map[]
    ensures forall p :: p in r.providers ==> p.kind == kind && p.baseUrl == baseUrl && p.token == token
    ensures IsPrivate(r) <==> exists e :: e in entries && e.model == m && e.isPrivate
  {
    var c := Configured(entries, m);
    ConfiguredIn(entries, m);
    if i :| 0 <= i < |r.providers| && r.providers[i].isPrivate {
      assert c[i] in entries;
    }
    if e :| e in entries && e.model == m && e.isPrivate {
      assert e in c;
      var i :| 0 <= i < |c| && c[i] == e;
      assert r.providers[i].isPrivate;
    }
  }
}
