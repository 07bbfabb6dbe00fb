/**
 Where a model request goes (pkg/proxy/proxy.go).

 Which of several peers a request is forwarded to is whatever the map yields, so decisions are a
 relation.  A journey lets every node decide on any table whatsoever: tables may be stale, cyclic,
 and change between hops.
 */
module Proxy {
  import opened Basics
  import opened ModelTable
  import Churn
  import MeshRuns

  /**
   OnPeerUpdate: a removal always succeeds, an update succeeds when the peer's models could be fetched, and
   the table changes by exactly the successful calls.
   */
  method OnPeerUpdate(router: ModelRouter, peer: PeerNode, remove: bool, fetched: Option<Table>, ghost before: Table)
    returns (ok: bool, ghost early: set<Name>, ghost t: Table)
    requires router.Means(before)
    modifies router, router.Refs()
    ensures ok <==> remove || fetched.Some?
    ensures router.Means(t)
    ensures !ok ==> t == before
    ensures ok && remove ==> t == Churn.AsWritten(before, [Churn.Removed(peer.id)])
    ensures ok && !remove ==> Entered(before, peer, fetched.value, Sharing(old(router.models), peer.id), early, t)
    ensures ok && !remove && peer.id !in before && peer.id !in fetched.value ==>
              t == Churn.AsWritten(before, [Churn.Added(peer, fetched.value)])
  {
    early, t := {}, before;
    if remove {
      router.RemovePeer(peer, before);
      t := Without(before, peer.id);
      assert Front([Churn.Removed(peer.id)]) == [];
      return true, early, t;
    }
    if fetched.None? {
      return false, early, t;
    }
    ghost var sharers := Sharing(router.models, peer.id);
    early, t := router.AddPeerModels(peer, fetched.value, before);
    if peer.id !in before && peer.id !in fetched.value {
      OrderIsImmaterial(before, peer, fetched.value, sharers, early, t);
      assert Front([Churn.Added(peer, fetched.value)]) == [];
    }
    return true, early, t;
  }

  datatype Decision =
    | ServeLocal(baseUrl: string, token: string)
    | Forward(dest: PeerNode)
    | NotFound
    | Mux // the ordinary handlers, which know no model path

  const RELAYED: set<string> := {"/api/chat", "/v1/chat/completions", "/v1/responses"}
  const FROM_MESH: set<string> := {"/v1/chat/completions", "/v1/responses", "/v1/embeddings", "/v1/messages"}

  /** strings.ToLower for ASCII. */
  function ToLower(s: string): (r: string)
    ensures |r| == |s|
    ensures forall i :: 0 <= i < |s| ==> r[i] == if IsUpper(s[i]) then (s[i] as int + 32) as char else s[i]
  {
    if s == "" then "" else ToLower(Front(s)) + [if IsUpper(Last(s)) then (Last(s) as int + 32) as char else Last(s)]
  }

  predicate IsUpper(c: char) {
    'A' <= c <= 'Z'
  }

  lemma UpperIsThese(c: char)
    ensures IsUpper(c) <==> c in "ABCDEFGHIJKLMNOPQRSTUVWXYZ"
  {
    var i := c as int - 'A' as int;
    if IsUpper(c) {
      assert "ABCDEFGHIJKLMNOPQRSTUVWXYZ"[i] == c;
    }
  }

  lemma LoweredExample()
    ensures ToLower("Qwen") == "qwen"
  {
    assert IsUpper('Q') && !IsUpper('w') && !IsUpper('e') && !IsUpper('n');
  }

  lemma LoweredHasNoUpper(s: string)
    ensures forall i :: 0 <= i < |ToLower(s)| ==> !IsUpper(ToLower(s)[i])
  {
  }

  /** proxyModelRequest's decision for the name that peekModel made of the request. */
  predicate Routes(t: Table, model: Name, noRelay: bool, d: Decision) {
    if model !in t then d == NotFound
    else if t[model].providers != [] then
      var Provider(_, _, url, token) := t[model].providers[0];
      d == if url.parses then ServeLocal(url.text, token) else NotFound
    else if noRelay || t[model].peers == map[] then d == NotFound
    else d.Forward? && exists id :: id in t[model].peers && t[model].peers[id] == d.dest
  }

  /** `requested` is the body's model field, empty when the body is not JSON. */
  method ProxyModelRequest(t: Table, requested: string, noRelay: bool) returns (d: Decision)
    ensures Routes(t, ToLower(requested), noRelay, d)
    ensures var m := ToLower(requested);
            && (d.ServeLocal? <==> m in t && t[m].providers != [] && t[m].providers[0].baseUrl.parses)
            && (d.ServeLocal? ==>
                  d.baseUrl == t[m].providers[0].baseUrl.text && d.token == t[m].providers[0].token)
            && (d.Forward? <==> !noRelay && m in t && t[m].providers == [] && t[m].peers != map[])
            && (d.Forward? ==> d.dest in t[m].peers.Values)
            && !d.Mux?
  {
    var model := ToLower(requested);
    if model !in t {
      return NotFound;
    }
    var route := t[model];
    if route.providers != [] {
      var local := route.providers[0];
      if !local.baseUrl.parses {
        return NotFound;
      }
      return ServeLocal(local.baseUrl.text, local.token);
    }
    if noRelay {
      return NotFound;
    }
    if route.peers == map[] {
      return NotFound;
    }
    assert route.peers.Keys != {};
    var id :| id in route.peers;
    return Forward(route.peers[id]);
  }

  /** ServeHTTP and MeshServeHTTP. */
  predicate Handles(t: Table, path: string, viaMesh: bool, requested: string, d: Decision) {
    if viaMesh then
      if path in FROM_MESH then Routes(t, ToLower(requested), true, d) else d == Mux
    else
      if path in RELAYED then Routes(t, ToLower(requested), false, d) else d == Mux
  }

  /** ServeHTTP, the entry for local clients. */
  method ServeHTTP(t: Table, path: string, requested: string) returns (d: Decision)
    ensures Handles(t, path, false, requested, d)
    ensures d.Mux? <==> path != "/api/chat" && path != "/v1/chat/completions" && path != "/v1/responses"
  {
    if path == "/api/chat" || path == "/v1/chat/completions" || path == "/v1/responses" {
      d := ProxyModelRequest(t, requested, false);
    } else {
      d := Mux;
    }
  }

  /** MeshServeHTTP, the entry for peers: never forwards. */
  method MeshServeHTTP(t: Table, path: string, requested: string) returns (d: Decision)
    ensures Handles(t, path, true, requested, d)
    ensures d.Mux? <==>
            && path != "/v1/chat/completions" && path != "/v1/responses"
            && path != "/v1/embeddings" && path != "/v1/messages"
    ensures !d.Forward?
  {
    var handled := ["/v1/chat/completions", "/v1/responses", "/v1/embeddings", "/v1/messages"];
    if path in handled {
      d := ProxyModelRequest(t, requested, true);
    } else {
      d := Mux;
    }
  }

  /** Where an answer from the table goes: to the model's first provider and with its token, or to a listed peer. */
  lemma AnsweredWhere(t: Table, path: string, viaMesh: bool, requested: string, d: Decision)
    requires Handles(t, path, viaMesh, requested, d) && !d.Mux?
    ensures var m := ToLower(requested);
            && (d.ServeLocal? ==>
                  && m in t && t[m].providers != [] && t[m].providers[0].baseUrl.parses
                  && d.baseUrl == t[m].providers[0].baseUrl.text && d.token == t[m].providers[0].token)
            && (d.Forward? ==> !viaMesh && m in t && t[m].providers == [] && d.dest in t[m].peers.Values)
            && (d.NotFound? ==>
                  || m !in t
                  || (t[m].providers != [] && !t[m].providers[0].baseUrl.parses)
                  || (t[m].providers == [] && (viaMesh || t[m].peers == map[])))
  {
  }

  /** The route can answer some request: from a provider with a usable address, or through a peer. */
  predicate Answers(r: Route) {
    if r.providers != [] then r.providers[0].baseUrl.parses else r.peers != map[]
  }

  /** Taking the entry out of the table changes the answer to some request. */
  ghost predicate Matters(t: Table, m: Name) {
    exists path, viaMesh, requested, d ::
      Handles(t, path, viaMesh, requested, d) && !Handles(t - {m}, path, viaMesh, requested, d)
  }

  /**
   Requested names are lower-cased and the table's are not: an entry that could answer, exported to peers or
   not, is of any use exactly when its name has no upper-case letter.
   */
  lemma RoutableExactly(t: Table, m: Name)
    requires m in t && Answers(t[m])
    ensures Matters(t, m) <==> forall i :: 0 <= i < |m| ==> !IsUpper(m[i])
  {
    if forall i :: 0 <= i < |m| ==> !IsUpper(m[i]) {
      assert ToLower(m) == m;
      var d := if t[m].providers != [] then ServeLocal(t[m].providers[0].baseUrl.text, t[m].providers[0].token)
               else assert t[m].peers.Keys != {}; var id :| id in t[m].peers; Forward(t[m].peers[id]);
      assert Handles(t, "/v1/responses", false, m, d) && !Handles(t - {m}, "/v1/responses", false, m, d);
    } else {
      forall requested: string {
        LoweredHasNoUpper(requested);
      }
    }
  }

  datatype Visit = Visit(node: NodeId, viaMesh: bool, table: Table, decision: Decision)

  /** A request's whole way: it enters locally and follows every forward into the destination's mesh entry. */
  ghost predicate Journey(path: string, requested: string, vs: seq<Visit>) {
    && vs != [] && !vs[0].viaMesh
    && (forall i :: 0 <= i < |vs| ==> Handles(vs[i].table, path, vs[i].viaMesh, requested, vs[i].decision))
    && (forall i :: 0 < i < |vs| ==> ForwardedTo(vs[i - 1], vs[i]))
  }

  predicate ForwardedTo(from: Visit, to: Visit) {
    from.decision.Forward? && from.decision.dest.id == to.node && to.viaMesh
  }

  /** Whatever the tables say, a request crosses the mesh at most once, and not at all when it can be served locally. */
  lemma OneHop(path: string, requested: string, vs: seq<Visit>)
    requires Journey(path, requested, vs)
    ensures |vs| <= 2
    ensures |vs| == 2 ==> !vs[1].decision.Forward?
    ensures var model := ToLower(requested);
            && (model in vs[0].table && vs[0].table[model].providers != [] ==> |vs| == 1 && !vs[0].decision.Forward?)
            && (|vs| == 2 ==>
                  && model in vs[0].table
                  && var peers := vs[0].table[model].peers;
                  vs[1].node in set id | id in peers :: peers[id].id)
  {
    assert |vs| > 2 ==> ForwardedTo(vs[2 - 1], vs[2]);
    if |vs| >= 2 {
      assert ForwardedTo(vs[1 - 1], vs[1]);
      assert Handles(vs[0].table, path, false, requested, vs[0].decision);
      assert Handles(vs[1].table, path, true, requested, vs[1].decision);
    }
  }

  /**
   A forwarded request reaches a provider exactly when its path is known on both sides and the destination has one it
   can address.
   */
  lemma ForwardedRequestIsServed(path: string, requested: string, vs: seq<Visit>)
    requires Journey(path, requested, vs) && |vs| == 2
    ensures var model := ToLower(requested);
            vs[1].decision.ServeLocal? <==>
            && path != "/api/chat" && model in vs[1].table && vs[1].table[model].providers != []
            && vs[1].table[model].providers[0].baseUrl.parses
  {
    assert ForwardedTo(vs[1 - 1], vs[1]);
    assert Handles(vs[0].table, path, false, requested, vs[0].decision);
    assert Handles(vs[1].table, path, true, requested, vs[1].decision);
  }

  /** A request for "/api/chat" is forwarded to a peer that has the model and does not answer from it. */
  lemma ChatIsForwardedInVain() returns (vs: seq<Visit>)
    ensures Journey("/api/chat", "m", vs) && |vs| == 2 && vs[1].decision == Mux
    ensures "m" in vs[1].table && Answers(vs[1].table["m"])
  {
    var b := PeerNode("b", "B");
    var here: Table := map["m" := Route("", [], map["b" := b])];
    var there: Table := map["m" := Route("", [Provider(false, "ollama", Url("http://localhost", true), "")], map[])];
    assert ToLower("m") == "m";
    assert here["m"].peers["b"] == b;
    vs := [Visit("a", false, here, Forward(b)), Visit("b", true, there, Mux)];
  }

  /** In every reachable mesh, a node never forwards to itself. */
  lemma NeverToSelf(ids: set<NodeId>, run: seq<MeshRuns.Action>, a: NodeId, path: string, requested: string,
                    viaMesh: bool, d: Decision)
    requires MeshRuns.Valid(ids, run)
    requires Handles(MeshRuns.TableOf(MeshRuns.After(run), a), path, viaMesh, requested, d) && d.Forward?
    ensures d.dest.id != a
  {
    MeshRuns.SelfOnlyWithProviders(ids, run, a, ToLower(requested));
  }
}
