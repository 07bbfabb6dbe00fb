/**
 Every run of the admin server at lock granularity.

 A run is the history of the locked sections, in the order the locks were granted.  `apiNodeRegister`
 is two sections (the allow-list check, then the table insert), and so are `apiNodeUnregister` and
 `adminDeleteNode` (the table delete, then the allow-list removal); the sections of different handlers
 interleave freely.  A restart loses the table, the clock and the handlers in flight.
 */
module MembershipRuns {
  import opened Basics
  import opened Membership

  type Op = nat // one handler invocation

  datatype Event =
    | Authorize(id: NodeId)
    | CheckAcl(op: Op, id: NodeId, name: string)
    | InsertNode(op: Op, id: NodeId, name: string, token: Token, now: nat)
    | RefreshNode(id: NodeId, token: Token, now: nat)
    | EvictNode(op: Op, id: NodeId, now: nat)
    | RemoveAcl(op: Op, id: NodeId)
    | Restart(acl: set<NodeId>)

  /** The server with the handlers in flight; `ops` and `issued` are all invocations and tokens so far. */
  datatype State = State(server: Server,
                         checked: map<Op, (NodeId, string)>,
                         evicting: map<Op, NodeId>,
                         ops: set<Op>,
                         issued: set<Token>)

  const START := State(EMPTY, map[], map[], {}, {})

  predicate Enabled(s: State, e: Event) {
    match e
    case Authorize(id) => id != ""
    case CheckAcl(op, id, name) => op !in s.ops && id != "" && name != "" && id in s.server.acl
    case InsertNode(op, id, name, token, now) =>
      op in s.checked && s.checked[op] == (id, name) && token != "" && token !in s.issued && 0 < now
    case RefreshNode(_, _, _) => true
    case EvictNode(op, id, now) => op !in s.ops && id != ""
    case RemoveAcl(op, id) => op in s.evicting && s.evicting[op] == id
    case Restart(_) => true
  }

  function Apply(s: State, e: Event): State {
    match e
    case Authorize(id) => s.(server := Allow(s.server, id))
    case CheckAcl(op, id, name) => s.(checked := s.checked[op := (id, name)], ops := s.ops + {op})
    case InsertNode(op, id, name, token, now) =>
      s.(server := Insert(s.server, id, name, token, now),
      checked := s.checked - {op},
      issued := s.issued + {token})
    case RefreshNode(id, token, now) => s.(server := Ping(s.server, id, token, now))
    case EvictNode(op, id, now) =>
      s.(server := Evict(s.server, id, now), evicting := s.evicting[op := id], ops := s.ops + {op})
    case RemoveAcl(op, id) => s.(server := Disallow(s.server, id), evicting := s.evicting - {op})
    case Restart(acl) => s.(server := EMPTY.(acl := acl), checked := map[], evicting := map[])
  }

  function After(log: seq<Event>): State {
    if log == [] then START else Apply(After(Front(log)), Last(log))
  }

  predicate Valid(log: seq<Event>) {
    log == [] || (Valid(Front(log)) && Enabled(After(Front(log)), Last(log)))
  }

  lemma {:induction false} At(log: seq<Event>, i: nat)
    requires Valid(log) && i < |log|
    ensures Valid(log[..i]) && Enabled(After(log[..i]), log[i])
    ensures Valid(log[..i + 1]) && After(log[..i + 1]) == Apply(After(log[..i]), log[i])
  {
    assert Front(log[..i + 1]) == log[..i];
    if i == |log| - 1 {
      assert log[..i + 1] == log;
    } else {
      At(Front(log), i);
      assert Front(log)[..i] == log[..i] && Front(log)[..i + 1] == log[..i + 1];
    }
  }

  lemma Grow(log: seq<Event>, e: Event) returns (longer: seq<Event>)
    requires Valid(log) && Enabled(After(log), e)
    ensures longer == log + [e] && Valid(longer) && After(longer) == Apply(After(log), e)
  {
    longer := log + [e];
    assert Front(longer) == log;
  }

  // ---------------------------------------------------------------- whole handlers

  /** Undisturbed, registering is two sections, possible exactly for a named request that the list allows. */
  lemma RegisterIsTwoSections(s: State, op: Op, id: NodeId, name: string, token: Token, now: nat)
    requires op !in s.ops && token != "" && token !in s.issued && 0 < now
    ensures Enabled(s, CheckAcl(op, id, name)) <==> id != "" && name != "" && id in s.server.acl
    ensures Enabled(s, CheckAcl(op, id, name)) ==>
              var s1 := Apply(s, CheckAcl(op, id, name));
              && s1.server == s.server && Enabled(s1, InsertNode(op, id, name, token, now))
              && var s2 := Apply(s1, InsertNode(op, id, name, token, now));
              && Holds(s2.server, id, token) && s2.server.clock == s.server.clock + 1
              && s2.server.nodes[id].node == Node(id, name, s.server.clock + 1, now)
              && s2.server.nodes - {id} == s.server.nodes - {id} && s2.server.acl == s.server.acl
  {
  }

  /** Undisturbed, unregistering and deleting take entry and permission, and tick the clock for a known id. */
  lemma RemovalIsTwoSections(s: State, op: Op, id: NodeId, now: nat)
    requires op !in s.ops && id != ""
    ensures Enabled(s, EvictNode(op, id, now)) && Enabled(Apply(s, EvictNode(op, id, now)), RemoveAcl(op, id))
    ensures var s2 := Apply(Apply(s, EvictNode(op, id, now)), RemoveAcl(op, id));
            && s2.server.nodes == s.server.nodes - {id} && s2.server.acl == s.server.acl - {id}
            && s2.server.clock == s.server.clock + (if id in s.server.nodes then 1 else 0)
  {
  }

  // ---------------------------------------------------------------- what every section keeps

  /** Keys are the nodes' own ids, times lie in 1..clock and are pairwise distinct, tokens were issued. */
  ghost predicate Good(s: State) {
    && (forall id :: id in s.server.nodes ==>
                       && s.server.nodes[id].node.id == id
                       && 1 <= s.server.nodes[id].node.logicalTime <= s.server.clock
                       && 0 < s.server.nodes[id].node.lastUpdate
                       && s.server.nodes[id].token in s.issued)
    && (forall a, b :: a in s.server.nodes && b in s.server.nodes && a != b ==>
                         s.server.nodes[a].node.logicalTime != s.server.nodes[b].node.logicalTime)
    && "" !in s.issued
  }

  lemma GoodStep(s: State, e: Event)
    requires Good(s) && Enabled(s, e)
    ensures Good(Apply(s, e))
  {
  }

  lemma {:induction false} AlwaysGood(log: seq<Event>)
    requires Valid(log)
    ensures Good(After(log))
  {
    if log != [] {
      AlwaysGood(Front(log));
      GoodStep(After(Front(log)), Last(log));
    }
  }

  ghost predicate SameLifetime(log: seq<Event>, i: nat, j: nat)
    requires i <= j <= |log|
  {
    forall k :: i <= k < j ==> !log[k].Restart?
  }

  /** Outside restarts the clock never goes back, and a section that does not move it leaves the entries alone. */
  lemma ClockStep(s: State, e: Event)
    requires Good(s) && Enabled(s, e) && !e.Restart?
    ensures s.server.clock <= Apply(s, e).server.clock
    ensures s.server.clock == Apply(s, e).server.clock ==> Entries(s.server) == Entries(Apply(s, e).server)
  {
  }

  lemma {:induction false} ClockMonotone(log: seq<Event>, i: nat, j: nat)
    requires Valid(log) && i <= j <= |log| && SameLifetime(log, i, j)
    ensures After(log[..i]).server.clock <= After(log[..j]).server.clock
    decreases j
  {
    if i < j {
      ClockMonotone(log, i, j - 1);
      At(log, j - 1);
      AlwaysGood(log[..j - 1]);
      ClockStep(After(log[..j - 1]), log[j - 1]);
    }
  }

  /** The clock characterises membership: equal clocks within one lifetime mean the same table. */
  lemma {:induction false} ClockCharacterisesMembership(log: seq<Event>, i: nat, j: nat)
    requires Valid(log) && i <= j <= |log| && SameLifetime(log, i, j)
    requires After(log[..i]).server.clock == After(log[..j]).server.clock
    ensures Entries(After(log[..i]).server) == Entries(After(log[..j]).server)
    ensures Listing(After(log[..i]).server) == Listing(After(log[..j]).server)
    decreases j
  {
    if i < j {
      ClockMonotone(log, i, j - 1);
      At(log, j - 1);
      AlwaysGood(log[..j - 1]);
      ClockStep(After(log[..j - 1]), log[j - 1]);
      ClockCharacterisesMembership(log, i, j - 1);
      EntriesDetermineListing(After(log[..i]).server, After(log[..j]).server);
    }
  }

  lemma EntriesDetermineListing(a: Server, b: Server)
    requires Entries(a) == Entries(b)
    ensures Listing(a) == Listing(b)
  {
    assert a.nodes.Keys == Entries(a).Keys && b.nodes.Keys == Entries(b).Keys;
    forall id | id in a.nodes
      ensures a.nodes[id].node == b.nodes[id].node
    {
      assert Entries(a)[id] == Entries(b)[id];
    }
  }

  /** The entry of `id` at `j` has been in the table, unchanged, ever since `i`. */
  ghost predicate HeldSince(log: seq<Event>, i: nat, j: nat, id: NodeId)
    requires i <= j <= |log| && id in After(log[..j]).server.nodes
  {
    forall k :: i <= k <= j ==>
                  && id in Entries(After(log[..k]).server)
                  && Entries(After(log[..k]).server)[id] == Entries(After(log[..j]).server)[id]
  }

  lemma EntryStep(s: State, e: Event, id: NodeId)
    requires Enabled(s, e) && !(e.InsertNode? && e.id == id) && id in Apply(s, e).server.nodes
    ensures id in s.server.nodes && Entries(s.server)[id] == Entries(Apply(s, e).server)[id]
  {
  }

  lemma HeldLonger(log: seq<Event>, i: nat, j: nat, id: NodeId)
    requires i < j <= |log| && id in After(log[..j]).server.nodes && id in After(log[..j - 1]).server.nodes
    requires Entries(After(log[..j - 1]).server)[id] == Entries(After(log[..j]).server)[id]
    requires HeldSince(log, i, j - 1, id)
    ensures HeldSince(log, i, j, id)
  {
  }

  /** Over a stretch without restarts an entry is either the very same one or carries a later time. */
  lemma {:induction false} EntryKeptOrNewer(log: seq<Event>, i: nat, j: nat, id: NodeId)
    requires Valid(log) && i <= j <= |log| && SameLifetime(log, i, j)
    requires id in After(log[..j]).server.nodes
    ensures After(log[..i]).server.clock < After(log[..j]).server.nodes[id].node.logicalTime || HeldSince(log, i, j, id)
    decreases j
  {
    if i < j {
      At(log, j - 1);
      ClockMonotone(log, i, j - 1);
      var s, e := After(log[..j - 1]), log[j - 1];
      if !(e.InsertNode? && e.id == id) {
        EntryStep(s, e, id);
        EntryKeptOrNewer(log, i, j - 1, id);
        assert Entries(After(log[..j]).server)[id].0.logicalTime == Entries(s.server)[id].0.logicalTime;
        if HeldSince(log, i, j - 1, id) {
          HeldLonger(log, i, j, id);
        }
      }
    }
  }

  /**
   Within one lifetime of the server, comparing (id, LogicalTime) detects every re-registration: the same
   time at two moments means the same registration, held without a gap.  OfferHistory shows what a restart
   in between does.
   */
  lemma SameTimeSameRegistration(log: seq<Event>, i: nat, j: nat, id: NodeId)
    requires Valid(log) && i <= j <= |log| && SameLifetime(log, i, j)
    requires id in After(log[..i]).server.nodes && id in After(log[..j]).server.nodes
    requires After(log[..i]).server.nodes[id].node.logicalTime == After(log[..j]).server.nodes[id].node.logicalTime
    ensures HeldSince(log, i, j, id)
  {
    assert Valid(log[..i]) by {
      if i < |log| { At(log, i); } else { assert log[..i] == log; }
    }
    AlwaysGood(log[..i]);
    EntryKeptOrNewer(log, i, j, id);
  }

  // ---------------------------------------------------------------- refresh validity

  /** The sections that change what the table says about `id`. */
  predicate Touches(e: Event, id: NodeId) {
    || (e.InsertNode? && e.id == id)
    || (e.EvictNode? && e.id == id)
    || e.Restart?
  }

  /**
   Position `i` is the latest section of the run that touches `id`, and it is the registration that issued `token`.
   */
  ghost predicate LatestIsRegistration(log: seq<Event>, id: NodeId, token: Token, i: nat) {
    && i < |log|
    && log[i].InsertNode? && log[i].id == id && log[i].token == token
    && (forall k :: i < k < |log| ==> !Touches(log[k], id))
  }

  /**
   A refresh is accepted exactly when the latest thing that happened to the id is the registration that issued the
   token.
   */
  lemma {:induction false} RefreshValidity(log: seq<Event>, id: NodeId, token: Token)
    requires Valid(log)
    ensures Holds(After(log).server, id, token) <==> exists i: nat :: LatestIsRegistration(log, id, token, i)
  {
    if log != [] {
      var p, e := Front(log), Last(log);
      RefreshValidity(p, id, token);
      AlwaysGood(p);
      if Touches(e, id) {
        if e.InsertNode? && e.token == token {
          assert LatestIsRegistration(log, id, token, |log| - 1);
        }
      } else {
        assert Holds(After(log).server, id, token) <==> Holds(After(p).server, id, token);
        if i: nat :| LatestIsRegistration(p, id, token, i) {
          assert LatestIsRegistration(log, id, token, i);
        }
        if i: nat :| LatestIsRegistration(log, id, token, i) {
          assert LatestIsRegistration(p, id, token, i);
        }
      }
    }
  }

  /** Refreshing, accepted or not, moves neither the clock nor the listed table nor anybody's token. */
  lemma RefreshIsInvisible(s: State, id: NodeId, token: Token, now: nat)
    ensures var t := Apply(s, RefreshNode(id, token, now));
            && t.server.clock == s.server.clock
            && t.server.acl == s.server.acl
            && Listing(t.server) == Listing(s.server)
            && forall i, tok :: Holds(t.server, i, tok) <==> Holds(s.server, i, tok)
  {
  }

  // ---------------------------------------------------------------- registered implies allowed, up to one race

  /** `c` is the allow-list check and `i` the table insert of the registration behind the current entry of `id`. */
  ghost predicate CurrentRegistration(log: seq<Event>, id: NodeId, c: nat, i: nat) {
    && c < i < |log|
    && log[c].CheckAcl? && log[c].id == id
    && log[i].InsertNode? && log[i].id == id && log[i].op == log[c].op
    && (forall k :: i < k < |log| ==> !Touches(log[k], id))
  }

  /**
   A removal of `id`, its table delete at `d` and its allow-list removal at `r`, that nothing has made up for since.
   */
  ghost predicate Removal(log: seq<Event>, id: NodeId, d: nat, r: nat) {
    && d < r < |log|
    && log[d].EvictNode? && log[d].id == id
    && log[r].RemoveAcl? && log[r].id == id && log[r].op == log[d].op
    && (forall k :: r < k < |log| ==> log[k] != Authorize(id) && !log[k].Restart?)
  }

  /** The removal deleted the table entry too early and took the permission away too late. */
  ghost predicate Race(log: seq<Event>, id: NodeId, c: nat, i: nat, d: nat, r: nat) {
    Removal(log, id, d, r) && d < i && c < r
  }

  ghost predicate CheckedAt(log: seq<Event>, op: Op, id: NodeId, c: nat) {
    c < |log| && log[c].CheckAcl? && log[c].op == op && log[c].id == id
  }

  ghost predicate RemovedSince(log: seq<Event>, id: NodeId, c: nat, d: nat, r: nat) {
    Removal(log, id, d, r) && c < r
  }

  ghost predicate EvictedAt(log: seq<Event>, op: Op, id: NodeId, d: nat) {
    d < |log| && log[d].EvictNode? && log[d].op == op && log[d].id == id
  }

  /** Handlers in flight left their first section in the history. */
  lemma {:induction false} EvictingHistory(log: seq<Event>, op: Op)
    requires Valid(log) && op in After(log).evicting
    ensures exists d: nat :: EvictedAt(log, op, After(log).evicting[op], d)
  {
    var p, e := Front(log), Last(log);
    if e.EvictNode? && e.op == op {
      assert EvictedAt(log, op, e.id, |log| - 1);
    } else {
      EvictingHistory(p, op);
      var d: nat :| EvictedAt(p, op, After(p).evicting[op], d);
      assert EvictedAt(log, op, After(log).evicting[op], d);
    }
  }

  /** A handler that passed the check may have lost the permission since, but only to a removal after the check. */
  lemma {:induction false} CheckedHistory(log: seq<Event>, op: Op)
    requires Valid(log) && op in After(log).checked
    ensures exists c: nat :: && CheckedAt(log, op, After(log).checked[op].0, c)
                        && (|| After(log).checked[op].0 in After(log).server.acl
                            || exists d: nat, r: nat :: RemovedSince(log, After(log).checked[op].0, c, d, r))
  {
    var p, e := Front(log), Last(log);
    var id := After(log).checked[op].0;
    if e.CheckAcl? && e.op == op {
      assert CheckedAt(log, op, id, |log| - 1);
    } else {
      CheckedHistory(p, op);
      var c: nat :| CheckedAt(p, op, id, c)
                    && (id in After(p).server.acl || exists d: nat, r: nat :: RemovedSince(p, id, c, d, r));
      assert CheckedAt(log, op, id, c);
      if e == Authorize(id) {
      } else if d: nat, r: nat :| RemovedSince(p, id, c, d, r) {
        assert RemovedSince(log, id, c, d, r);
      } else if e.RemoveAcl? && e.id == id {
        EvictingHistory(p, e.op);
        var d: nat :| EvictedAt(p, e.op, id, d);
        assert RemovedSince(log, id, c, d, |log| - 1);
      }
    }
  }

  /** A registration that survives one more section stays allowed, or has lost a race by then. */
  lemma RegistrationStep(log: seq<Event>, id: NodeId, c: nat, i: nat)
    requires log != [] && Valid(log) && id in After(log).server.nodes && !Touches(Last(log), id)
    requires CurrentRegistration(Front(log), id, c, i)
    requires id in After(Front(log)).server.acl || exists d: nat, r: nat :: Race(Front(log), id, c, i, d, r)
    ensures CurrentRegistration(log, id, c, i)
    ensures id in After(log).server.acl || exists d: nat, r: nat :: Race(log, id, c, i, d, r)
  {
    var p, e := Front(log), Last(log);
    if e == Authorize(id) {
    } else if d: nat, r: nat :| Race(p, id, c, i, d, r) {
      RaceLasts(log, id, c, i, d, r);
    } else if e.RemoveAcl? && e.id == id {
      var d := RaceNow(log, id, c, i);
    }
  }

  lemma RaceLasts(log: seq<Event>, id: NodeId, c: nat, i: nat, d: nat, r: nat)
    requires log != [] && Race(Front(log), id, c, i, d, r) && Last(log) != Authorize(id) && !Last(log).Restart?
    ensures Race(log, id, c, i, d, r)
  {
  }

  lemma RaceNow(log: seq<Event>, id: NodeId, c: nat, i: nat) returns (d: nat)
    requires log != [] && Valid(log) && Last(log).RemoveAcl? && Last(log).id == id
    requires CurrentRegistration(Front(log), id, c, i)
    ensures Race(log, id, c, i, d, |log| - 1)
  {
    var p := Front(log);
    EvictingHistory(p, Last(log).op);
    d :| EvictedAt(p, Last(log).op, id, d);
    assert Touches(p[d], id);
  }

  /** Every entry of the table has its registration in the history, and is allowed or the loser of a race. */
  lemma {:induction false} RegisteredHistory(log: seq<Event>, id: NodeId)
    requires Valid(log) && id in After(log).server.nodes
    ensures exists c: nat, i: nat :: && CurrentRegistration(log, id, c, i)
                                     && (|| id in After(log).server.acl
                                         || exists d: nat, r: nat :: Race(log, id, c, i, d, r))
  {
    var p, e := Front(log), Last(log);
    if e.InsertNode? && e.id == id {
      CheckedHistory(p, e.op);
      var c: nat :| CheckedAt(p, e.op, id, c)
                    && (id in After(p).server.acl || exists d: nat, r: nat :: RemovedSince(p, id, c, d, r));
      assert CurrentRegistration(log, id, c, |log| - 1);
      if d: nat, r: nat :| RemovedSince(p, id, c, d, r) {
        assert Race(log, id, c, |log| - 1, d, r);
      }
    } else {
      RegisteredHistory(p, id);
      var c: nat, i: nat :| CurrentRegistration(p, id, c, i)
                            && (id in After(p).server.acl || exists d: nat, r: nat :: Race(p, id, c, i, d, r));
      RegistrationStep(log, id, c, i);
    }
  }

  lemma {:induction false} RemovedStaysOff(log: seq<Event>, id: NodeId, d: nat, r: nat)
    requires Valid(log) && Removal(log, id, d, r)
    ensures id !in After(log).server.acl
  {
    if r < |log| - 1 {
      assert Removal(Front(log), id, d, r);
      RemovedStaysOff(Front(log), id, d, r);
    }
  }

  /**
   A registered id is off the allow list exactly when some removal, not made up for since, deleted
   the table entry before the registration's insert and removed the permission after its check.
   */
  lemma RegisteredOffTheListMeansRace(log: seq<Event>, id: NodeId)
    requires Valid(log) && id in After(log).server.nodes
    ensures id !in After(log).server.acl <==>
            exists c: nat, i: nat, d: nat, r: nat :: CurrentRegistration(log, id, c, i) && Race(log, id, c, i, d, r)
  {
    if c: nat, i: nat, d: nat, r: nat :| CurrentRegistration(log, id, c, i) && Race(log, id, c, i, d, r) {
      RemovedStaysOff(log, id, d, r);
    }
    if id !in After(log).server.acl {
      RegisteredHistory(log, id);
      var c: nat, i: nat :| CurrentRegistration(log, id, c, i) && exists d: nat, r: nat :: Race(log, id, c, i, d, r);
      var d: nat, r: nat :| Race(log, id, c, i, d, r);
      assert CurrentRegistration(log, id, c, i) && Race(log, id, c, i, d, r);
    }
  }

  /** The race is real: a registration slips between the two halves of an unregister. */
  lemma RaceHappens() returns (log: seq<Event>)
    ensures Valid(log) && "n" in After(log).server.nodes && "n" !in After(log).server.acl
  {
    log := [];
    log := Grow(log, Authorize("n"));
    log := Grow(log, CheckAcl(0, "n", "node"));
    log := Grow(log, EvictNode(1, "n", 1));
    log := Grow(log, InsertNode(0, "n", "node", "t", 2));
    log := Grow(log, RemoveAcl(1, "n"));
  }
}
