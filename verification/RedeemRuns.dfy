/**
 Histories of the invite and node handlers cut at every operation on the store and on the allow list
 (pkg/admin/api_admin.go).

 Redeeming holds no lock: it reads the invite, compares its expiry with the clock, allows the node, writes its
 record and only then deletes a one-time invite.  Listing deletes afterwards what it saw expired.  Deleting a
 node collects its keys, takes its permission and then deletes the keys one by one.  Any number of these run
 at once.  `InviteRuns` is the special case in which every handler runs undisturbed.
 */
module RedeemRuns {
  import opened Basics
  import opened Invites

  type InviteValue = v: Value | v.Invite? witness Invite(false, 0, "")

  /** How far a redemption has come. */
  datatype Stage =
    | Fetched(id: string, found: Option<InviteValue>)
    | Accepted(id: string, invite: InviteValue, node: string)
    | Allowed(id: string, invite: InviteValue, node: string)
    | Written(id: string)
    | Done

  type ParsedKey = k: string | ParseNodeKey(k).Some? witness (ParsePrinted("m", "n"); NodeKey("m", "n"))

  /** A node deletion: the keys it collected and has not deleted yet, and whether it has taken the permission. */
  datatype Deletion = Deletion(id: string, keys: set<ParsedKey>, forbidden: bool)

  /** `doomed` are the invites somebody saw expired and will delete. */
  datatype State = State(kv: Store, acl: set<string>, stages: map<nat, Stage>, deletions: map<nat, Deletion>,
                         doomed: set<string>, clock: nat)

  const START := State(map[], {}, map[], map[], {}, 0)

  datatype Event =
    | Tick(now: nat)
    | Create(id: string, oneTime: bool, lifetime: UInt64, inviteAs: string, now: nat)
    | Read(op: nat, id: string)
    | Check(op: nat, node: string)
    | Allow(op: nat, node: string)
    | Put(op: nat, node: string, name: string, secret: string)
    | Finish(op: nat, id: string)
    | Revoke(id: string)
    | SeeExpired(id: string, seen: nat)
    | Purge(id: string)
    | Collect(d: nat, id: string)
    | Forbid(d: nat, id: string)
    | Erase(d: nat, key: string)
    | Permit(id: string)   // authorizing, outside redemptions
    | Withdraw(id: string) // unregistering, outside deletions

  function Lookup(kv: Store, id: string): Option<InviteValue> {
    if id != "" && HasInvite(kv, id) then Some(kv[InviteKey(id)]) else None
  }

  /**
   The clock never goes back, and a time read earlier is not later than it.  `seen` is read before the listing starts.
   */
  predicate Enabled(s: State, e: Event) {
    match e
    case Tick(now) => s.clock <= now
    case Create(id, _, _, _, now) => id != "" && now <= s.clock
    case Read(op, _) => op !in s.stages
    case Check(op, _) => op in s.stages && s.stages[op].Fetched?
    case Allow(op, node) => op in s.stages && s.stages[op].Accepted? && s.stages[op].node == node
    case Put(op, node, _, _) => op in s.stages && s.stages[op].Allowed? && s.stages[op].node == node
    case Finish(op, id) => op in s.stages && s.stages[op] == Written(id)
    case Revoke(id) => id != ""
    case SeeExpired(id, seen) =>
      seen <= s.clock && id != "" && HasInvite(s.kv, id) && Expired(s.kv[InviteKey(id)], seen)
    case Purge(id) => id in s.doomed
    case Collect(d, id) => d !in s.deletions && id != ""
    case Forbid(d, id) => d in s.deletions && s.deletions[d].id == id && !s.deletions[d].forbidden
    case Erase(d, key) => d in s.deletions && s.deletions[d].forbidden && key in s.deletions[d].keys
    case Permit(id) => id != ""
    case Withdraw(id) => id != ""
  }

  /** meshKeysForNode, one snapshot of the store. */
  function KeysOf(kv: Store, id: string): set<ParsedKey> {
    set key | key in kv && BelongsTo(kv, key, id)
  }

  function Recorded(invite: InviteValue, node: string, name: string, secret: string): Value {
    Record(node, if name == "" then invite.inviteAs else name, invite.inviteAs, secret)
  }

  /** The branches between reading the invite and writing the record. */
  function Checked(found: Option<InviteValue>, id: string, node: string, clock: nat): Stage {
    if found.None? || Expired(found.value, clock) || node == "" then Done
    else Accepted(id, found.value, node)
  }

  function Apply(s: State, e: Event): State
    requires Enabled(s, e)
  {
    match e
    case Tick(now) => s.(clock := now)
    case Create(id, oneTime, lifetime, inviteAs, now) => s.(kv := Created(s.kv, id, oneTime, lifetime, inviteAs, now))
    case Read(op, id) => s.(stages := s.stages[op := Fetched(id, Lookup(s.kv, id))])
    case Check(op, node) =>
      var Fetched(id, found) := s.stages[op];
      s.(stages := s.stages[op := Checked(found, id, node, s.clock)],
         doomed := if found.Some? && Expired(found.value, s.clock) then s.doomed + {id} else s.doomed)
    case Allow(op, node) =>
      var Accepted(id, invite, _) := s.stages[op];
      s.(acl := s.acl + {node}, stages := s.stages[op := Allowed(id, invite, node)])
    case Put(op, node, name, secret) =>
      var Allowed(id, invite, _) := s.stages[op];
      s.(kv := s.kv[NodeKey("default", node) := Recorded(invite, node, name, secret)],
         stages := s.stages[op := if invite.oneTime then Written(id) else Done])
    case Finish(op, id) => s.(kv := s.kv - {InviteKey(id)}, stages := s.stages[op := Done])
    case Revoke(id) => s.(kv := Revoked(s.kv, id))
    case SeeExpired(id, _) => s.(doomed := s.doomed + {id})
    case Purge(id) => s.(kv := s.kv - {InviteKey(id)})
    case Collect(d, id) => s.(deletions := s.deletions[d := Deletion(id, KeysOf(s.kv, id), false)])
    case Forbid(d, id) => s.(acl := s.acl - {id}, deletions := s.deletions[d := s.deletions[d].(forbidden := true)])
    case Erase(d, key) =>
      s.(kv := s.kv - {key}, deletions := s.deletions[d := s.deletions[d].(keys := s.deletions[d].keys - {key})])
    case Permit(id) => s.(acl := s.acl + {id})
    case Withdraw(id) => s.(acl := s.acl - {id})
  }

  predicate CreatedIn(log: seq<Event>, id: string) {
    exists i :: 0 <= i < |log| && log[i].Create? && log[i].id == id
  }

  /** Histories from the empty store with fresh invite ids. */
  predicate Valid(log: seq<Event>)
    decreases |log|, 0
  {
    log == [] || (
      && Valid(Front(log)) && Enabled(After(Front(log)), Last(log))
      && (Last(log).Create? ==> !CreatedIn(Front(log), Last(log).id)))
  }

  function After(log: seq<Event>): State
    requires Valid(log)
    decreases |log|, 1
  {
    if log == [] then START else Apply(After(Front(log)), Last(log))
  }

  lemma {:induction false} ValidPrefix(log: seq<Event>, i: nat)
    requires Valid(log) && i <= |log|
    ensures Valid(log[..i]) && After(log[..i]).clock <= After(log).clock
    ensures i < |log| ==> Enabled(After(log[..i]), log[i])
  {
    if i == |log| {
      assert log[..i] == log;
    } else {
      ValidPrefix(Front(log), i);
      assert Front(log)[..i] == log[..i];
    }
  }

  /** Step `i` of a history. */
  lemma {:induction false} StepAt(log: seq<Event>, i: nat)
    requires Valid(log) && i < |log|
    ensures Valid(log[..i]) && Valid(log[..i + 1])
    ensures Enabled(After(log[..i]), log[i]) && After(log[..i + 1]) == Apply(After(log[..i]), log[i])
    ensures log[i].Create? ==> log[i].id != "" && !CreatedIn(log[..i], log[i].id)
  {
    if i == |log| - 1 {
      assert log[..i] == Front(log) && log[..i + 1] == log;
    } else {
      StepAt(Front(log), i);
      assert Front(log)[..i] == log[..i] && Front(log)[..i + 1] == log[..i + 1];
    }
  }

  lemma ClockRises(log: seq<Event>, i: nat, j: nat)
    requires Valid(log) && i <= j <= |log|
    ensures Valid(log[..i]) && Valid(log[..j]) && After(log[..i]).clock <= After(log[..j]).clock
  {
    ValidPrefix(log, j);
    ValidPrefix(log[..j], i);
    assert log[..j][..i] == log[..i];
  }

  // ---------------------------------------------------------------- one invite

  /** The invite as created by step `c`. */
  function Terms(log: seq<Event>, c: nat): InviteValue
    requires c < |log| && log[c].Create?
  {
    Invite(log[c].oneTime, ExpiresAt(log[c].lifetime, log[c].now), log[c].inviteAs)
  }

  /** Deletions that do not wait for the expiry: after one use, or by an admin. */
  predicate Removes(e: Event, id: string) {
    (e.Finish? || e.Revoke?) && e.id == id
  }

  predicate RemovedBetween(log: seq<Event>, id: string, c: nat, i: nat) {
    exists k :: c < k < i && k < |log| && Removes(log[k], id)
  }

  /** Nothing in the state speaks of the id. */
  ghost predicate Unknown(s: State, id: string) {
    && !HasInvite(s.kv, id) && id !in s.doomed
    && (forall op :: op in s.stages && s.stages[op].Fetched? && s.stages[op].id == id ==> s.stages[op].found.None?)
    && (forall op :: op in s.stages && (s.stages[op].Accepted? || s.stages[op].Allowed?) ==> s.stages[op].id != id)
  }

  /**
   Store, pending deletions and running redemptions agree with the terms `v`; `removed` says whether it was deleted on
   purpose.
   */
  ghost predicate Follows(s: State, id: string, v: InviteValue, removed: bool)
  {
    && (HasInvite(s.kv, id) ==> s.kv[InviteKey(id)] == v && !removed)
    && (!HasInvite(s.kv, id) ==> removed || Expired(v, s.clock))
    && (id in s.doomed ==> Expired(v, s.clock))
    && (forall op :: op in s.stages && s.stages[op].Fetched? && s.stages[op].id == id && s.stages[op].found.Some? ==>
                       s.stages[op].found.value == v)
    && (forall op :: op in s.stages && (s.stages[op].Accepted? || s.stages[op].Allowed?) && s.stages[op].id == id ==>
                       s.stages[op].invite == v)
  }

  /** No store operation but those on its own key concerns an invite. */
  lemma InviteStep(s: State, e: Event, id: string)
    requires Enabled(s, e) && id != ""
    ensures Lookup(Apply(s, e).kv, id) ==
            if e.Create? && e.id == id then Some(Invite(e.oneTime, ExpiresAt(e.lifetime, e.now), e.inviteAs))
            else if Removes(e, id) || e == Purge(id) then None
            else Lookup(s.kv, id)
  {
    match e
    case Create(i, _, _, _, _) => InviteKeyInjective(i, id);
    case Put(_, node, _, _) => KeysDiffer(id, "default", node);
    case Erase(_, key) => InviteKeysDoNotParse(id);
    case Finish(_, i) => InviteKeyInjective(i, id);
    case Revoke(i) => InviteKeyInjective(i, id);
    case Purge(i) => InviteKeyInjective(i, id);
    case _ =>
  }

  lemma UnknownStep(s: State, e: Event, id: string)
    requires Enabled(s, e) && id != "" && Unknown(s, id) && !(e.Create? && e.id == id)
    ensures Unknown(Apply(s, e), id)
  {
    InviteStep(s, e, id);
  }

  lemma FollowsStep(s: State, e: Event, id: string, v: InviteValue, removed: bool)
    requires Enabled(s, e) && id != "" && Follows(s, id, v, removed) && !(e.Create? && e.id == id)
    ensures Follows(Apply(s, e), id, v, removed || Removes(e, id))
  {
    InviteStep(s, e, id);
  }

  lemma {:induction false} UnknownBeforeCreation(log: seq<Event>, id: string)
    requires Valid(log) && id != "" && !CreatedIn(log, id)
    ensures Unknown(After(log), id)
  {
    if log != [] {
      var p := Front(log);
      assert forall i :: 0 <= i < |p| ==> p[i] == log[i];
      UnknownBeforeCreation(p, id);
      UnknownStep(After(p), Last(log), id);
    }
  }

  lemma RemovedOneMore(log: seq<Event>, id: string, c: nat)
    requires log != [] && c < |log| - 1
    ensures RemovedBetween(log, id, c, |log|) <==>
            RemovedBetween(Front(log), id, c, |log| - 1) || Removes(Last(log), id)
  {
    var p := Front(log);
    if RemovedBetween(p, id, c, |p|) {
      var k :| c < k < |p| && Removes(p[k], id);
      assert Removes(log[k], id);
    }
    if k :| c < k < |log| && Removes(log[k], id) {
      assert k < |p| ==> Removes(p[k], id);
    }
  }

  /** From its creation on, everything follows the invite's terms. */
  lemma {:induction false} AlwaysFollows(log: seq<Event>, c: nat)
    requires Valid(log) && c < |log| && log[c].Create?
    ensures Follows(After(log), log[c].id, Terms(log, c), RemovedBetween(log, log[c].id, c, |log|))
    ensures log[c].id != ""
  {
    var p, e, id := Front(log), Last(log), log[c].id;
    if c == |log| - 1 {
      UnknownBeforeCreation(p, id);
      InviteStep(After(p), e, id);
    } else {
      AlwaysFollows(p, c);
      assert p[c] == log[c];
      FollowsStep(After(p), e, id, Terms(log, c), RemovedBetween(p, id, c, |p|));
      RemovedOneMore(log, id, c);
    }
  }

  // ---------------------------------------------------------------- what a redemption finds

  /** Step `i` lets its redemption through: the record will be written. */
  predicate Accepts(log: seq<Event>, i: nat)
    requires Valid(log)
  {
    i < |log| && log[i].Check? && Valid(log[..i + 1]) && After(log[..i + 1]).stages[log[i].op].Accepted?
  }

  /** A redemption waits for its check with what its read found. */
  lemma {:induction false} StageOfRead(log: seq<Event>, r: nat, op: nat)
    requires Valid(log) && r < |log| && log[r].Read? && log[r].op == op
    ensures Valid(log[..r]) && op in After(log).stages
    ensures After(log).stages[op].Fetched? ==>
            After(log).stages[op] == Fetched(log[r].id, Lookup(After(log[..r]).kv, log[r].id))
  {
    if r == |log| - 1 {
      assert log[..r] == Front(log);
    } else {
      StageOfRead(Front(log), r, op);
      assert Front(log)[..r] == log[..r];
    }
  }

  lemma CheckOutcome(log: seq<Event>, r: nat, q: nat)
    requires Valid(log) && r < q < |log| && log[r].Read? && log[q].Check? && log[r].op == log[q].op
    ensures Valid(log[..r]) && Valid(log[..q])
    ensures var found := Lookup(After(log[..r]).kv, log[r].id);
            Accepts(log, q) <==> found.Some? && !Expired(found.value, After(log[..q]).clock) && log[q].node != ""
  {
    StepAt(log, q);
    assert log[..q][r] == log[r] && log[..q][..r] == log[..r];
    StageOfRead(log[..q], r, log[r].op);
  }

  lemma RemovedInPrefix(log: seq<Event>, id: string, c: nat, i: nat)
    requires i <= |log|
    ensures RemovedBetween(log[..i], id, c, i) <==> RemovedBetween(log, id, c, i)
  {
    if k :| c < k < i && Removes(log[k], id) {
      assert log[..i][k] == log[k];
    }
  }

  /** The id of the last creation is in no earlier state. */
  lemma FreshUntil(log: seq<Event>, c: nat, r: nat)
    requires Valid(log) && r <= c < |log| && log[c].Create?
    ensures Valid(log[..r]) && Unknown(After(log[..r]), log[c].id) && log[c].id != ""
  {
    ValidPrefix(log, r);
    StepAt(log, c);
    assert forall i :: 0 <= i < r ==> log[..r][i] == log[..c][i];
    UnknownBeforeCreation(log[..r], log[c].id);
  }

  /** What a read before step `r` finds. */
  lemma FoundAt(log: seq<Event>, c: nat, r: nat)
    requires Valid(log) && c < |log| && r <= |log| && log[c].Create?
    ensures Valid(log[..r])
    ensures match Lookup(After(log[..r]).kv, log[c].id)
            case Some(v) => v == Terms(log, c) && c < r && !RemovedBetween(log, log[c].id, c, r)
            case None => c < r ==> RemovedBetween(log, log[c].id, c, r) || Expired(Terms(log, c), After(log[..r]).clock)
  {
    ValidPrefix(log, r);
    if c < r {
      assert log[..r][c] == log[c];
      AlwaysFollows(log[..r], c);
      RemovedInPrefix(log, log[c].id, c, r);
    } else {
      FreshUntil(log, c, r);
    }
  }

  /**
   A redemption is let through exactly when its invite had been created and neither used up nor revoked at the
   moment of its read, and is not expired at the moment of its check.  What happens to the invite after the
   read makes no difference, and neither does purging at any moment.
   */
  lemma AcceptedExactly(log: seq<Event>, c: nat, r: nat, q: nat)
    requires Valid(log) && c < |log| && r < q < |log|
    requires log[c].Create? && log[r].Read? && log[q].Check?
    requires log[r].id == log[c].id && log[r].op == log[q].op
    ensures Valid(log[..q])
    ensures Accepts(log, q) <==>
            && c < r && !RemovedBetween(log, log[c].id, c, r)
            && !Expired(Terms(log, c), After(log[..q]).clock) && log[q].node != ""
    ensures log[c].lifetime <= LONGEST ==>
              (Expired(Terms(log, c), After(log[..q]).clock) <==>
               !InTime(log[c].lifetime, log[c].now, After(log[..q]).clock))
  {
    if log[c].lifetime <= LONGEST {
      ValidPrefix(log, q);
      PromiseIsKept(log[c].lifetime, log[c].now, After(log[..q]).clock, log[c].oneTime, log[c].inviteAs);
    }
    CheckOutcome(log, r, q);
    ClockRises(log, r, q);
    FoundAt(log, c, r);
  }

  /**
   So a second redemption of a one-time invite, or one after a revocation, is let through iff it read before the first
   deletion `d`.
   */
  lemma SecondRedemption(log: seq<Event>, c: nat, d: nat, r: nat, q: nat)
    requires Valid(log) && c < d < |log| && r < q < |log|
    requires log[c].Create? && log[r].Read? && log[q].Check?
    requires log[r].id == log[c].id && log[r].op == log[q].op
    requires Removes(log[d], log[c].id) && !RemovedBetween(log, log[c].id, c, d)
    ensures Valid(log[..q])
    ensures Accepts(log, q) <==> c < r < d && !Expired(Terms(log, c), After(log[..q]).clock) && log[q].node != ""
  {
    AcceptedExactly(log, c, r, q);
    assert RemovedBetween(log, log[c].id, c, r) <==> d < r;
  }

  lemma AcceptsLonger(log: seq<Event>, q: nat)
    requires log != [] && Valid(log) && Accepts(Front(log), q)
    ensures Accepts(log, q)
  {
    assert Front(log)[..q + 1] == log[..q + 1];
  }

  lemma {:induction false} AcceptedWasChecked(log: seq<Event>, op: nat) returns (q: nat)
    requires Valid(log) && op in After(log).stages && After(log).stages[op].Accepted?
    ensures Accepts(log, q) && log[q].op == op && log[q].node == After(log).stages[op].node
  {
    var p, e := Front(log), Last(log);
    if e.Check? && e.op == op {
      q := |log| - 1;
      assert log[..|log|] == log;
    } else {
      q := AcceptedWasChecked(p, op);
      AcceptsLonger(log, q);
    }
  }

  lemma {:induction false} AllowedWasAllowed(log: seq<Event>, op: nat) returns (q: nat, a: nat)
    requires Valid(log) && op in After(log).stages && After(log).stages[op].Allowed?
    ensures q < a < |log| && Accepts(log, q) && log[q].op == op && log[a] == Allow(op, After(log).stages[op].node)
    ensures log[q].node == After(log).stages[op].node
  {
    var p, e := Front(log), Last(log);
    if e.Allow? && e.op == op {
      q := AcceptedWasChecked(p, op);
      a := |log| - 1;
    } else {
      q, a := AllowedWasAllowed(p, op);
    }
    AcceptsLonger(log, q);
  }

  /** A record is written by a redemption that was let through, and after it allowed the node. */
  lemma PutWasAccepted(log: seq<Event>, w: nat) returns (q: nat, a: nat)
    requires Valid(log) && w < |log| && log[w].Put?
    ensures q < a < w && Accepts(log, q) && log[q].op == log[w].op && log[q].node == log[w].node
    ensures log[a] == Allow(log[w].op, log[w].node)
  {
    StepAt(log, w);
    q, a := AllowedWasAllowed(log[..w], log[w].op);
    assert log[..w][..q + 1] == log[..q + 1];
  }

  // ---------------------------------------------------------------- undisturbed redemptions

  lemma Grow(log: seq<Event>, e: Event) returns (longer: seq<Event>)
    requires Valid(log) && Enabled(After(log), e) && (e.Create? ==> !CreatedIn(log, e.id))
    ensures longer == log + [e] && Valid(longer) && After(longer) == Apply(After(log), e)
  {
    longer := log + [e];
    assert Front(longer) == log;
  }

  lemma AcceptedInARow(log: seq<Event>, op: nat, name: string, secret: string) returns (longer: seq<Event>)
    requires Valid(log) && op in After(log).stages && After(log).stages[op].Accepted?
    ensures Valid(longer) && log <= longer && After(longer).clock == After(log).clock
    ensures op in After(longer).stages && After(longer).stages[op].Done?
    ensures var Accepted(id, invite, node) := After(log).stages[op];
            var stored := After(log).kv[NodeKey("default", node) := Recorded(invite, node, name, secret)];
            && After(longer).kv == (if invite.oneTime then stored - {InviteKey(id)} else stored)
            && After(longer).acl == After(log).acl + {node}
  {
    var Accepted(id, _, node) := After(log).stages[op];
    longer := Grow(log, Allow(op, node));
    longer := Grow(longer, Put(op, node, name, secret));
    if After(longer).stages[op].Written? {
      longer := Grow(longer, Finish(op, id));
    }
  }

  lemma CheckedInARow(log: seq<Event>, op: nat, id: string, node: string) returns (longer: seq<Event>)
    requires Valid(log) && op !in After(log).stages
    ensures Valid(longer) && log <= longer
    ensures var s, s' := After(log), After(longer);
            var found := Lookup(s.kv, id);
            && s'.kv == s.kv && s'.acl == s.acl && s'.clock == s.clock
            && op in s'.stages && s'.stages[op] == Checked(found, id, node, s.clock)
            && (found.Some? && Expired(found.value, s.clock) ==> id in s'.doomed)
  {
    longer := Grow(log, Read(op, id));
    longer := Grow(longer, Check(op, node));
  }

  /** The store operations of one redemption in a row have the effect of the handler taken whole. */
  lemma UndisturbedIsWhole(log: seq<Event>, op: nat, id: string, node: string, name: string, secret: string)
    returns (longer: seq<Event>)
    requires Valid(log) && op !in After(log).stages
    ensures Valid(longer) && log <= longer && After(longer).clock == After(log).clock
    ensures op in After(longer).stages && After(longer).stages[op].Done?
    ensures After(longer).kv == Redeemed(After(log).kv, id, node, name, secret, After(log).clock)
    ensures After(longer).acl ==
            After(log).acl + if Redeemable(After(log).kv, id, After(log).clock) && node != "" then {node} else {}
  {
    var s := After(log);
    longer := CheckedInARow(log, op, id, node);
    if After(longer).stages[op].Accepted? {
      longer := AcceptedInARow(longer, op, name, secret);
    } else if Lookup(s.kv, id).Some? && Expired(Lookup(s.kv, id).value, s.clock) {
      longer := Grow(longer, Purge(id));
    }
  }

  lemma EraseOne(log: seq<Event>, d: nat, key: ParsedKey) returns (longer: seq<Event>)
    requires Valid(log) && d in After(log).deletions && After(log).deletions[d].forbidden
    requires key in After(log).deletions[d].keys
    ensures Valid(longer) && log <= longer && After(longer).acl == After(log).acl
    ensures After(longer).kv == After(log).kv - {key}
    ensures d in After(longer).deletions
    ensures After(longer).deletions[d] == After(log).deletions[d].(keys := After(log).deletions[d].keys - {key})
  {
    longer := Grow(log, Erase(d, key));
  }

  lemma {:induction false} EraseAll(log: seq<Event>, d: nat) returns (longer: seq<Event>)
    requires Valid(log) && d in After(log).deletions && After(log).deletions[d].forbidden
    ensures Valid(longer) && log <= longer && After(longer).acl == After(log).acl
    ensures After(longer).kv == After(log).kv - After(log).deletions[d].keys
    ensures d in After(longer).deletions && After(longer).deletions[d].keys == {}
    decreases |After(log).deletions[d].keys|
  {
    var keys := After(log).deletions[d].keys;
    longer := log;
    if keys != {} {
      var key :| key in keys;
      longer := EraseOne(log, d, key);
      LessByOne(After(log).kv, keys, key);
      longer := EraseAll(longer, d);
    }
  }

  lemma LessByOne(kv: Store, keys: set<ParsedKey>, key: ParsedKey)
    requires key in keys
    ensures kv - {key} - (keys - {key}) == kv - keys && |keys - {key}| < |keys|
  {
  }

  lemma DeletedKeys(kv: Store, id: string)
    requires id != ""
    ensures kv - KeysOf(kv, id) == NodeDeleted(kv, id)
  {
  }

  /** So do those of a node deletion. */
  lemma UndisturbedDeletionIsWhole(log: seq<Event>, d: nat, id: string) returns (longer: seq<Event>)
    requires Valid(log) && d !in After(log).deletions && id != ""
    ensures Valid(longer) && log <= longer
    ensures After(longer).kv == NodeDeleted(After(log).kv, id) && After(longer).acl == After(log).acl - {id}
  {
    longer := Grow(log, Collect(d, id));
    longer := Grow(longer, Forbid(d, id));
    DeletedKeys(After(log).kv, id);
    longer := EraseAll(longer, d);
  }

  // ---------------------------------------------------------------- overlapping ones

  lemma BothAccepted() returns (log: seq<Event>)
    ensures Valid(log) && |log| == 5 && log[0] == Create("i", true, 0, "", 0)
    ensures var v := Invite(true, 0, "");
            After(log).stages == map[0 := Accepted("i", v, "a"), 1 := Accepted("i", v, "b")]
  {
    log := Grow([], Create("i", true, 0, "", 0));
    log := Grow(log, Read(0, "i"));
    log := Grow(log, Read(1, "i"));
    log := Grow(log, Check(0, "a"));
    log := Grow(log, Check(1, "b"));
  }

  lemma BothAllowed() returns (log: seq<Event>)
    ensures Valid(log) && |log| == 7 && log[0] == Create("i", true, 0, "", 0)
    ensures var v := Invite(true, 0, "");
            After(log).stages == map[0 := Allowed("i", v, "a"), 1 := Allowed("i", v, "b")]
  {
    log := BothAccepted();
    log := Grow(log, Allow(0, "a"));
    log := Grow(log, Allow(1, "b"));
  }

  /** Two redemptions of one one-time invite that both read before either deletes: both nodes get their record. */
  lemma OneTimeTwice() returns (log: seq<Event>)
    ensures Valid(log) && |log| == 11 && log[0] == Create("i", true, 0, "", 0)
    ensures log[7] == Put(0, "a", "", "s") && log[8] == Finish(0, "i")
    ensures log[9] == Put(1, "b", "", "t") && log[10] == Finish(1, "i")
    ensures LoginOk(After(log).kv, "default", "a", "s") && LoginOk(After(log).kv, "default", "b", "t")
  {
    NodeKeyInjective("default", "a", "b");
    KeysDiffer("i", "default", "a");
    KeysDiffer("i", "default", "b");
    log := BothAllowed();
    log := Grow(log, Put(0, "a", "", "s"));
    log := Grow(log, Finish(0, "i"));
    log := Grow(log, Put(1, "b", "", "t"));
    log := Grow(log, Finish(1, "i"));
  }

  /** A redemption that read before the revocation writes its record after it. */
  lemma RedeemedThoughRevoked() returns (log: seq<Event>)
    ensures Valid(log) && |log| == 6 && log[2] == Revoke("i") && log[5] == Put(0, "a", "", "s")
    ensures LoginOk(After(log).kv, "default", "a", "s")
  {
    log := Grow([], Create("i", false, 0, "", 0));
    log := Grow(log, Read(0, "i"));
    log := Grow(log, Revoke("i"));
    log := Grow(log, Check(0, "a"));
    log := Grow(log, Allow(0, "a"));
    log := Grow(log, Put(0, "a", "", "s"));
  }
}
