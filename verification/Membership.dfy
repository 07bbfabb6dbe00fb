/**
 The admin server's node table (pkg/admin/api_node.go, pkg/admin/api_admin.go).

 A `Server` value is what the admin keeps in memory.  Each function below is one section of a
 handler that runs under a single lock; handlers that take the lock for part of their work only are
 sequences of these sections, which is how MembershipRuns interleaves them.
 */
module Membership {

  type NodeId = string
  type Token = string

  /** core.PeerNode; `lastUpdate == 0` is Go's zero time. */
  datatype Node = Node(id: NodeId, name: string, logicalTime: nat, lastUpdate: nat)

  datatype NodeRef = NodeRef(node: Node, token: Token, lastPing: nat)

  datatype Server = Server(nodes: map<NodeId, NodeRef>, clock: nat, lastUpdate: nat, acl: set<NodeId>)

  const EMPTY := Server(map[], 0, 0, {})

  /** The locked section of apiNodeRegister. */
  function Insert(s: Server, id: NodeId, name: string, token: Token, now: nat): Server {
    s.(nodes := s.nodes[id := NodeRef(Node(id, name, s.clock + 1, now), token, now)],
    clock := s.clock + 1,
    lastUpdate := now)
  }

  /** The locked section shared by apiNodeUnregister and adminDeleteNode. */
  function Evict(s: Server, id: NodeId, now: nat): Server {
    if id in s.nodes then
      s.(nodes := s.nodes - {id}, clock := s.clock + 1, lastUpdate := now)
    else s
  }

  /** A refresh is accepted: the presented token is the one stored for the id. */
  predicate Holds(s: Server, id: NodeId, token: Token) {
    token != "" && id in s.nodes && s.nodes[id].token == token
  }

  /** The locked section of apiNodeRefresh. */
  function Ping(s: Server, id: NodeId, token: Token, now: nat): Server {
    if Holds(s, id, token) then
      s.(nodes := s.nodes[id := s.nodes[id].(lastPing := now)])
    else s
  }

  function Allow(s: Server, id: NodeId): Server {
    s.(acl := s.acl + {id})
  }

  function Disallow(s: Server, id: NodeId): Server {
    s.(acl := s.acl - {id})
  }

  /** What apiNodeList returns, keyed the way GetPeerMap keys it. */
  function Listing(s: Server): map<NodeId, Node> {
    map id | id in s.nodes :: s.nodes[id].node
  }

  /** The listed node together with the token that refreshes it. */
  function Entries(s: Server): map<NodeId, (Node, Token)> {
    map id | id in s.nodes :: (s.nodes[id].node, s.nodes[id].token)
  }

  datatype Status = Ok | BadRequest | NotFound | Conflict

  datatype Reply = Reply(node: Node, token: Token, clock: nat, lastUpdate: nat)

  /**
   The admin object with its handlers run one at a time.  Random tokens and the wall clock are
   parameters.  `Guarded` is what whole handlers keep; MembershipRuns shows when interleaved ones
   do not.
   */
  class AdminServer {
    var nodes: map<NodeId, NodeRef>
    var logicalTime: nat
    var lastUpdate: nat
    var allow: set<NodeId>

    constructor (allow: set<NodeId>)
      ensures View() == EMPTY.(acl := allow)
      ensures Guarded()
    {
      nodes, logicalTime, lastUpdate, this.allow := map[], 0, 0, allow;
    }

    ghost function View(): Server
      reads this
    {
      Server(nodes, logicalTime, lastUpdate, allow)
    }

    /** Every registered node is on the allow list. */
    ghost predicate Guarded()
      reads this
    {
      nodes.Keys <= allow
    }

    method Authorize(id: NodeId) returns (st: Status)
      modifies this
      ensures st == if id == "" then BadRequest else Ok
      ensures View() == if st.Ok? then Allow(old(View()), id) else old(View())
      ensures st.Ok? ==> allow == old(allow) + {id} && nodes == old(nodes) && logicalTime == old(logicalTime)
      ensures old(Guarded()) ==> Guarded()
    {
      if id == "" {
        return BadRequest;
      }
      allow := allow + {id};
      return Ok;
    }

    method Register(name: string, id: NodeId, token: Token, now: nat) returns (st: Status, reply: Reply)
      modifies this
      ensures st == if name == "" || id == "" || id !in old(allow) then BadRequest else Ok
      ensures st.Ok? ==>
                && View() == Insert(old(View()), id, name, token, now)
                && Holds(View(), id, token) == (token != "")
                && logicalTime == old(logicalTime) + 1 && lastUpdate == now && allow == old(allow)
                && nodes == old(nodes)[id := NodeRef(Node(id, name, logicalTime, now), token, now)]
                && reply == Reply(Node(id, name, logicalTime, now), token, logicalTime, now)
      ensures !st.Ok? ==> View() == old(View())
      ensures old(Guarded()) ==> Guarded()
    {
      reply := Reply(Node(id, name, 0, 0), "", 0, 0);
      if name == "" {
        return BadRequest, reply;
      }
      if id == "" {
        return BadRequest, reply;
      }
      if id !in allow {
        return BadRequest, reply;
      }
      lastUpdate := now;
      logicalTime := logicalTime + 1;
      var node := Node(id, name, logicalTime, lastUpdate);
      reply := Reply(node, token, logicalTime, lastUpdate);
      nodes := nodes[id := NodeRef(node, token, now)];
      return Ok, reply;
    }

    method Refresh(pathId: NodeId, id: NodeId, token: Token, now: nat) returns (st: Status, clock: nat)
      modifies this
      ensures st == if pathId == "" || id != pathId then BadRequest
                    else if Holds(old(View()), id, token) then Ok else Conflict
      ensures st.Ok? ==> clock == old(View()).clock
      ensures View() == if st.Ok? then Ping(old(View()), id, token, now) else old(View())
      ensures st.Ok? <==>
                pathId != "" && id == pathId && token != "" && id in old(nodes) && old(nodes[id].token) == token
      ensures nodes == if st.Ok? then old(nodes)[id := old(nodes)[id].(lastPing := now)] else old(nodes)
      ensures Listing(View()) == Listing(old(View())) && logicalTime == old(logicalTime)
      ensures old(Guarded()) ==> Guarded()
    {
      if pathId == "" {
        return BadRequest, 0;
      }
      if id != pathId {
        return BadRequest, 0;
      }
      clock := logicalTime;
      if token == "" || pathId !in nodes || nodes[pathId].token != token {
        return Conflict, clock;
      }
      nodes := nodes[pathId := nodes[pathId].(lastPing := now)];
      return Ok, clock;
    }

    method Unregister(id: NodeId, now: nat) returns (st: Status)
      modifies this
      ensures st == if id == "" then BadRequest else if id in old(nodes) then Ok else NotFound
      ensures View() == if id == "" then old(View()) else Disallow(Evict(old(View()), id, now), id)
      ensures id != "" ==> nodes == old(nodes) - {id} && allow == old(allow) - {id}
      ensures logicalTime == old(logicalTime) + (if id != "" && id in old(nodes) then 1 else 0)
      ensures lastUpdate == if id != "" && id in old(nodes) then now else old(lastUpdate)
      ensures old(Guarded()) ==> Guarded()
    {
      if id == "" {
        return BadRequest;
      }
      var known := id in nodes;
      if known {
        lastUpdate := now;
        logicalTime := logicalTime + 1;
      }
      nodes := nodes - {id};
      allow := allow - {id};
      return if known then Ok else NotFound;
    }

    /** adminDeleteNode's effect on the table; `stored` tells whether the database had keys for the id. */
    method DeleteNode(id: NodeId, stored: bool, now: nat) returns (st: Status)
      modifies this
      ensures st == if id == "" then BadRequest
                    else if stored || id in old(nodes) then Ok else NotFound
      ensures View() == if id == "" then old(View()) else Disallow(Evict(old(View()), id, now), id)
      ensures id != "" ==> nodes == old(nodes) - {id} && allow == old(allow) - {id}
      ensures logicalTime == old(logicalTime) + (if id != "" && id in old(nodes) then 1 else 0)
      ensures lastUpdate == if id != "" && id in old(nodes) then now else old(lastUpdate)
      ensures old(Guarded()) ==> Guarded()
    {
      if id == "" {
        return BadRequest;
      }
      var registered := id in nodes;
      if registered {
        lastUpdate := now;
        logicalTime := logicalTime + 1;
        nodes := nodes - {id};
      }
      allow := allow - {id};
      return if stored || registered then Ok else NotFound;
    }

    /** apiNodeList: the table's nodes in whatever order the map yields them. */
    method List() returns (reply: seq<Node>)
      requires forall id :: id in nodes ==> nodes[id].node.id == id
      ensures |reply| == |nodes|
      ensures forall n :: n in reply <==> n.id in nodes && nodes[n.id].node == n
    {
      reply := [];
      var todo := nodes.Keys;
      while todo != {}
        invariant todo <= nodes.Keys
        invariant |reply| + |todo| == |nodes|
        invariant forall n :: n in reply <==> n.id in nodes && n.id !in todo && nodes[n.id].node == n
      {
        var id :| id in todo;
        todo := todo - {id};
        reply := reply + [nodes[id].node];
      }
    }
  }

  /** How one call over the network went: answered, or lost before or after the server acted, with some error text. */
  datatype Call = Answered | Lost(reached: bool, error: string)

  predicate Mentions409(text: string) {
    exists i :: 0 <= i < |text| - 2 && text[i] == '4' && text[i + 1] == '0' && text[i + 2] == '9'
  }

  lemma MentionsExactly(text: string)
    ensures Mentions409(text) <==> exists a, b :: text == a + "409" + b
  {
    if i :| 0 <= i < |text| - 2 && text[i] == '4' && text[i + 1] == '0' && text[i + 2] == '9' {
      assert text == text[..i] + "409" + text[i + 3..];
    }
    if a, b :| text == a + "409" + b {
      assert text[|a|] == '4' && text[|a| + 1] == '0' && text[|a| + 2] == '9';
    }
  }

  /** The client's error text for an answer other than 200: the status line, then the body. */
  function ErrorText(st: Status, body: string): string {
    (match st
     case Ok => "200 OK: "
     case BadRequest => "400 Bad Request: "
     case NotFound => "404 Not Found: "
     case Conflict => "409 Conflict: ") + body
  }

  lemma ConflictMentions409(body: string)
    ensures Mentions409(ErrorText(Conflict, body))
  {
    var text := "409 Conflict: " + body;
    assert text[0] == '4' && text[0 + 1] == '0' && text[0 + 2] == '9';
  }

  /** The client's side of a registration (api/client_mesh.go). */
  class Registration {
    const id: NodeId
    var token: Token

    constructor (id: NodeId, token: Token)
      ensures this.id == id && this.token == token
    {
      this.id, this.token := id, token;
    }

    /**
     Refresh: valid exactly when the server holds the token and its answer arrives.  A conflict is reported as
     "invalid, clock 0" and never as an error, so a proxy that registers again after it compares against clock
     0.  So is every other error whose text happens to mention 409.
     */
    method Refresh(server: AdminServer, call: Call, body: string, now: nat)
      returns (valid: bool, clock: nat, failed: bool)
      requires server as object != this
      modifies this, server
      ensures valid <==> call.Answered? && id != "" && Holds(old(server.View()), id, old(token))
      ensures clock == if valid then old(server.logicalTime) else 0
      ensures call.Lost? ==> (failed <==> !Mentions409(call.error))
      ensures call.Answered? ==> (failed <==> id == "" && !Mentions409(ErrorText(BadRequest, body)))
      ensures token == old(token)
      ensures Listing(server.View()) == old(Listing(server.View())) && server.logicalTime == old(server.logicalTime)
    {
      var error: string;
      if call == Answered || call.reached {
        var st, serverClock := server.Refresh(id, id, token, now);
        if call.Answered? && st.Ok? {
          return true, serverClock, false;
        }
        error := ErrorText(st, body);
        ConflictMentions409(body);
      }
      if call.Lost? {
        error := call.error;
      }
      if Mentions409(error) {
        return false, 0, false;
      }
      return false, 0, true;
    }
  }

  /** GetPeerMap over any order of the listed nodes rebuilds exactly the table's listing. */
  method GetPeerMap(peers: seq<Node>, ghost s: Server)
    returns (peerMap: map<NodeId, Node>)
    requires forall id :: id in s.nodes ==> s.nodes[id].node.id == id
    requires forall n :: n in peers <==> n.id in s.nodes && s.nodes[n.id].node == n
    ensures peerMap == Listing(s)
  {
    peerMap := map[];
    for i := 0 to |peers|
      invariant forall id :: id in peerMap <==> exists k :: 0 <= k < i && peers[k].id == id
      invariant forall id :: id in peerMap ==> id in s.nodes && peerMap[id] == s.nodes[id].node
    {
      assert peers[i] in peers;
      peerMap := peerMap[peers[i].id := peers[i]];
    }
    forall id | id in s.nodes
      ensures id in peerMap
    {
      assert s.nodes[id].node in peers;
    }
  }
}
