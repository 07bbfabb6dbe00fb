/**
 Histories of the invite and node-record handlers, each handler taken whole, wall time never going back.
 RedeemRuns takes them apart.

 Invites are purged lazily: listing purges the expired ones, redeeming purges the expired one it is asked
 for.  `Alive` says which invites there are with no purging at all.
 */
module InviteRuns {
  import opened Basics
  import opened Invites

  datatype Event =
    | Create(id: string, oneTime: bool, lifetime: UInt64, inviteAs: string, now: nat)
    | Redeem(id: string, node: string, name: string, secret: string, now: nat)
    | List(now: nat)
    | Revoke(id: string, now: nat)
    | DeleteNode(id: string, now: nat)

  function Apply(kv: Store, e: Event): Store {
    match e
    case Create(id, oneTime, lifetime, inviteAs, now) => Created(kv, id, oneTime, lifetime, inviteAs, now)
    case Redeem(id, node, name, secret, now) => Redeemed(kv, id, node, name, secret, now)
    case List(now) => Swept(kv, now)
    case Revoke(id, _) => Revoked(kv, id)
    case DeleteNode(id, _) => NodeDeleted(kv, id)
  }

  function After(log: seq<Event>): Store {
    if log == [] then map[] else Apply(After(Front(log)), Last(log))
  }

  predicate CreatedIn(log: seq<Event>, id: string) {
    exists i :: 0 <= i < |log| && log[i].Create? && log[i].id == id
  }

  predicate Reached(log: seq<Event>, t: nat) {
    log == [] || Last(log).now <= t
  }

  /** Time is monotone and invite ids are fresh. */
  predicate Valid(log: seq<Event>) {
    log == [] || (
      && Valid(Front(log)) && Reached(Front(log), Last(log).now)
      && (Last(log).Create? ==> Last(log).id != "" && !CreatedIn(Front(log), Last(log).id)))
  }

  lemma {:induction false} ValidPrefix(log: seq<Event>, i: nat)
    requires Valid(log) && i <= |log|
    ensures Valid(log[..i])
    ensures i < |log| ==> Reached(log[..i], log[i].now)
  {
    if i == |log| {
      assert log[..i] == log;
    } else {
      ValidPrefix(Front(log), i);
      assert Front(log)[..i] == log[..i];
    }
  }

  /** The invite as its creator, revokers and one-time users left it; nothing is ever purged here. */
  function Alive(log: seq<Event>, id: string): Option<Value> {
    if log == [] then None
    else
      var was := Alive(Front(log), id);
      match Last(log)
      case Create(i, oneTime, lifetime, inviteAs, now) =>
        if i == id then Some(Invite(oneTime, ExpiresAt(lifetime, now), inviteAs)) else was
      case Redeem(i, node, _, _, now) =>
        if i == id && node != "" && was.Some? && was.value.Invite? && was.value.oneTime && !Expired(was.value, now)
        then None else was
      case Revoke(i, _) => if i == id then None else was
      case _ => was
  }

  predicate Usable(v: Option<Value>, t: nat) {
    v.Some? && v.value.Invite? && !Expired(v.value, t)
  }

  // ---------------------------------------------------------------- the shape of the store

  /** Records sit under their own named node's key in the default mesh, invites under invite keys. */
  ghost predicate Shaped(kv: Store) {
    forall key :: key in kv ==>
                    match kv[key]
                    case Invite(_, _, _) => INVITES <= key
                    case Record(nodeId, _, _, _) => nodeId != "" && key == NodeKey("default", nodeId)
  }

  lemma {:induction false} AlwaysShaped(log: seq<Event>)
    ensures Shaped(After(log))
  {
    if log != [] {
      AlwaysShaped(Front(log));
    }
  }

  /** One handler moves the entry under an invite key as `Alive` says, or purges it after its time. */
  lemma InviteStep(kv: Store, e: Event, id: string)
    requires Shaped(kv) && id != ""
    ensures HasInvite(Apply(kv, e), id) <==>
            match e
            case Create(i, _, _, _, _) => i == id || HasInvite(kv, id)
            case Redeem(i, node, _, _, now) =>
              HasInvite(kv, id) &&
              (i == id ==> !Expired(kv[InviteKey(id)], now) && !(node != "" && kv[InviteKey(id)].oneTime))
            case List(now) => HasInvite(kv, id) && !Expired(kv[InviteKey(id)], now)
            case Revoke(i, _) => HasInvite(kv, id) && i != id
            case DeleteNode(_, _) => HasInvite(kv, id)
    ensures HasInvite(Apply(kv, e), id) && !(e.Create? && e.id == id) ==>
            Apply(kv, e)[InviteKey(id)] == kv[InviteKey(id)]
  {
    InviteKeysDoNotParse(id);
    match e
    case Create(i, _, _, _, _) => InviteKeyInjective(i, id);
    case Redeem(i, node, _, _, _) =>
      InviteKeyInjective(i, id);
      KeysDiffer(id, "default", node);
      KeysDiffer(i, "default", node);
    case Revoke(i, _) => InviteKeyInjective(i, id);
    case _ =>
  }

  /** The store holds the unpurged invite, or has purged one whose time is over. */
  lemma {:induction false} StoreFollowsAlive(log: seq<Event>, id: string)
    requires Valid(log) && id != ""
    ensures HasInvite(After(log), id) ==> Alive(log, id) == Some(After(log)[InviteKey(id)])
    ensures Alive(log, id).Some? && !HasInvite(After(log), id) ==>
              log != [] && Alive(log, id).value.Invite? && Expired(Alive(log, id).value, Last(log).now)
  {
    if log != [] {
      StoreFollowsAlive(Front(log), id);
      AlwaysShaped(Front(log));
      InviteStep(After(Front(log)), Last(log), id);
    }
  }

  /**
   Lazy purging is invisible: at any time, an invite can be redeemed exactly when it was created, is not
   revoked, is not a used-up one-time invite, and is not yet expired at that time.
   */
  lemma LazyPurgeIsInvisible(log: seq<Event>, id: string, t: nat)
    requires Valid(log) && Reached(log, t) && id != ""
    ensures Redeemable(After(log), id, t) <==> Usable(Alive(log, id), t)
  {
    StoreFollowsAlive(log, id);
  }

  function WithoutListings(log: seq<Event>): seq<Event> {
    if log == [] then []
    else if Last(log).List? then WithoutListings(Front(log))
    else WithoutListings(Front(log)) + [Last(log)]
  }

  lemma CreatedInAll(some: seq<Event>, all: seq<Event>, id: string)
    requires forall e :: e in some ==> e in all
    ensures CreatedIn(some, id) ==> CreatedIn(all, id)
  {
    if i :| 0 <= i < |some| && some[i].Create? && some[i].id == id {
      assert some[i] in all;
    }
  }

  lemma {:induction false} DroppingListings(log: seq<Event>, t: nat)
    requires Valid(log) && Reached(log, t)
    ensures Valid(WithoutListings(log)) && Reached(WithoutListings(log), t)
    ensures forall id :: Alive(WithoutListings(log), id) == Alive(log, id)
    ensures forall e :: e in WithoutListings(log) ==> e in log
  {
    if log != [] {
      var p, e := Front(log), Last(log);
      DroppingListings(p, e.now);
      var q := WithoutListings(p);
      if !e.List? {
        assert Front(q + [e]) == q;
        if e.Create? {
          CreatedInAll(q, p, e.id);
        }
      }
    }
  }

  /** Whether and when anybody listed the invites makes no difference to what can be redeemed. */
  lemma ListingChangesNothing(log: seq<Event>, id: string, t: nat)
    requires Valid(log) && Reached(log, t) && id != ""
    ensures Redeemable(After(log), id, t) <==> Redeemable(After(WithoutListings(log)), id, t)
  {
    DroppingListings(log, t);
    LazyPurgeIsInvisible(log, id, t);
    LazyPurgeIsInvisible(WithoutListings(log), id, t);
  }

  // ---------------------------------------------------------------- once, and only in time

  /** Step `i` is a redemption that went through. */
  ghost predicate Succeeds(log: seq<Event>, i: nat) {
    i < |log| && log[i].Redeem? && log[i].node != "" && Redeemable(After(log[..i]), log[i].id, log[i].now)
  }

  /** An invite that is gone after being created never comes back. */
  lemma {:induction false} GoneForGood(log: seq<Event>, i: nat, j: nat, id: string)
    requires Valid(log) && i <= j <= |log| && CreatedIn(log[..i], id) && Alive(log[..i], id).None?
    ensures Alive(log[..j], id).None?
    decreases j
  {
    if i < j {
      GoneForGood(log, i, j - 1, id);
      assert Front(log[..j]) == log[..j - 1] && Last(log[..j]) == log[j - 1];
      ValidPrefix(log, j);
      CreatedInAll(log[..i], log[..j - 1], id);
    }
  }

  /** Nothing can be alive without having been created, with exactly the terms it was created with. */
  lemma {:induction false} AliveWasCreated(log: seq<Event>, id: string) returns (c: nat)
    requires Alive(log, id).Some?
    ensures c < |log| && log[c].Create? && log[c].id == id
    ensures Alive(log, id).value == Invite(log[c].oneTime, ExpiresAt(log[c].lifetime, log[c].now), log[c].inviteAs)
  {
    if Last(log).Create? && Last(log).id == id {
      c := |log| - 1;
    } else {
      c := AliveWasCreated(Front(log), id);
    }
  }

  /** A redemption that goes through finds the invite alive and in time. */
  lemma SuccessMeansAlive(log: seq<Event>, i: nat)
    requires Valid(log) && Succeeds(log, i)
    ensures Usable(Alive(log[..i], log[i].id), log[i].now) && CreatedIn(log[..i], log[i].id)
  {
    ValidPrefix(log, i);
    LazyPurgeIsInvisible(log[..i], log[i].id, log[i].now);
    var c := AliveWasCreated(log[..i], log[i].id);
  }

  lemma {:induction false} CreatedOnce(log: seq<Event>, c: nat, d: nat)
    requires Valid(log) && c <= d < |log| && log[c].Create? && log[d].Create? && log[c].id == log[d].id
    ensures c == d
  {
    if d < |log| - 1 {
      CreatedOnce(Front(log), c, d);
    }
  }

  /** While it is alive, an invite has the terms of its creation. */
  lemma AliveAsCreated(log: seq<Event>, i: nat, c: nat)
    requires Valid(log) && i <= |log| && c < |log| && log[c].Create? && Alive(log[..i], log[c].id).Some?
    ensures c < i
    ensures Alive(log[..i], log[c].id).value ==
            Invite(log[c].oneTime, ExpiresAt(log[c].lifetime, log[c].now), log[c].inviteAs)
  {
    var d := AliveWasCreated(log[..i], log[c].id);
    assert log[..i][d] == log[d];
    if c <= d {
      CreatedOnce(log, c, d);
    } else {
      CreatedOnce(log, d, c);
    }
  }

  lemma UsedUp(log: seq<Event>, c: nat, i: nat)
    requires Valid(log) && c < |log| && log[c].Create? && log[c].oneTime
    requires Succeeds(log, i) && log[i].id == log[c].id
    ensures CreatedIn(log[..i + 1], log[c].id) && Alive(log[..i + 1], log[c].id).None?
  {
    SuccessMeansAlive(log, i);
    AliveAsCreated(log, i, c);
    assert Front(log[..i + 1]) == log[..i] && Last(log[..i + 1]) == log[i];
    assert log[..i + 1][c] == log[c];
  }

  /** Undisturbed, a one-time invite is redeemed at most once. */
  lemma OneTimeAtMostOnce(log: seq<Event>, c: nat, i: nat, j: nat)
    requires Valid(log) && c < |log| && log[c].Create? && log[c].oneTime
    requires Succeeds(log, i) && log[i].id == log[c].id
    requires i < j < |log| && log[j].Redeem? && log[j].id == log[c].id
    ensures !Succeeds(log, j)
  {
    UsedUp(log, c, i);
    GoneForGood(log, i + 1, j, log[c].id);
    if Succeeds(log, j) {
      SuccessMeansAlive(log, j);
    }
  }

  /** Undisturbed, a revoked invite is never redeemed again. */
  lemma NothingAfterRevocation(log: seq<Event>, c: nat, r: nat, j: nat)
    requires Valid(log) && c < r < j < |log|
    requires log[c].Create? && log[r].Revoke? && log[r].id == log[c].id && log[j].Redeem? && log[j].id == log[c].id
    ensures !Succeeds(log, j)
  {
    assert Front(log[..r + 1]) == log[..r] && Last(log[..r + 1]) == log[r];
    assert log[..r + 1][c] == log[c];
    GoneForGood(log, r + 1, j, log[c].id);
    if Succeeds(log, j) {
      SuccessMeansAlive(log, j);
    }
  }

  /** A redemption goes through only after its invite was created and before the expiry it was created with. */
  lemma NothingAfterExpiry(log: seq<Event>, c: nat, j: nat)
    requires Valid(log) && Succeeds(log, j) && c < |log| && log[c].Create? && log[c].id == log[j].id
    ensures c < j
    ensures var expires := ExpiresAt(log[c].lifetime, log[c].now);
            expires == 0 || log[j].now / SECOND < expires
  {
    SuccessMeansAlive(log, j);
    AliveAsCreated(log, j, c);
  }

  /** Step `k` ends the invite created with `create`: an admin revokes it, or it is a one-time invite and is used. */
  ghost predicate Ends(log: seq<Event>, create: Event, k: nat)
    requires create.Create?
  {
    && k < |log|
    && (|| (log[k].Revoke? && log[k].id == create.id)
        || (create.oneTime && Succeeds(log, k) && log[k].id == create.id))
  }

  lemma EndsInFront(log: seq<Event>, create: Event, k: nat)
    requires create.Create? && k < |log| - 1
    ensures Ends(log, create, k) <==> Ends(Front(log), create, k)
  {
    assert Front(log)[..k] == log[..k];
  }

  lemma {:induction false} CreatedWithId(log: seq<Event>, c: nat)
    requires Valid(log) && c < |log| && log[c].Create?
    ensures log[c].id != ""
  {
    if c < |log| - 1 {
      CreatedWithId(Front(log), c);
    }
  }

  /** An invite is alive exactly from its creation until a step ends it. */
  lemma {:induction false} AliveExactly(log: seq<Event>, c: nat)
    requires Valid(log) && c < |log| && log[c].Create?
    ensures Alive(log, log[c].id).Some? <==> forall k: nat :: c < k ==> !Ends(log, log[c], k)
  {
    var p, e, id := Front(log), Last(log), log[c].id;
    CreatedWithId(log, c);
    if c < |log| - 1 {
      assert p[..|p|] == p;
      AliveExactly(p, c);
      forall k: nat | k < |log| - 1 {
        EndsInFront(log, log[c], k);
      }
      assert log[..|log| - 1] == p;
      if Alive(p, id).Some? {
        AliveAsCreated(p, |p|, c);
        if e.Redeem? && e.id == id {
          LazyPurgeIsInvisible(p, id, e.now);
        }
        assert Ends(log, log[c], |log| - 1) <==> Alive(log, id).None?;
      } else {
        assert CreatedIn(p, id) by {
          assert p[c].Create? && p[c].id == id;
        }
        assert Alive(log, id).None?;
        var k: nat :| c < k && Ends(p, log[c], k);
        assert Ends(log, log[c], k);
      }
    }
  }

  /**
   What an invite promises, over every history and for every lifetime that is honoured: at any reached time it can
   be redeemed exactly when it is in time, nobody has revoked it and, for a one-time invite, nobody has used it.
   An invite without a lifetime is always in time.
   */
  lemma RedeemableExactly(log: seq<Event>, c: nat, t: nat)
    requires Valid(log) && Reached(log, t) && c < |log| && log[c].Create? && log[c].lifetime <= LONGEST
    ensures Redeemable(After(log), log[c].id, t) <==>
            InTime(log[c].lifetime, log[c].now, t) && forall k: nat :: c < k ==> !Ends(log, log[c], k)
  {
    CreatedWithId(log, c);
    AliveExactly(log, c);
    LazyPurgeIsInvisible(log, log[c].id, t);
    if Alive(log, log[c].id).Some? {
      assert log[..|log|] == log;
      AliveAsCreated(log, |log|, c);
      PromiseIsKept(log[c].lifetime, log[c].now, t, log[c].oneTime, log[c].inviteAs);
    }
  }

  /** The record a successful redemption writes: under the node's key, with the given name or else the invite's. */
  lemma RecordOfSuccess(log: seq<Event>, c: nat, i: nat)
    requires Valid(log) && Succeeds(log, i) && c < |log| && log[c].Create? && log[c].id == log[i].id
    ensures var key, kv := NodeKey("default", log[i].node), After(log[..i + 1]);
            && key in kv
            && kv[key] == Record(log[i].node, if log[i].name == "" then log[c].inviteAs else log[i].name,
                                 log[c].inviteAs, log[i].secret)
  {
    ValidPrefix(log, i);
    SuccessMeansAlive(log, i);
    AliveAsCreated(log, i, c);
    StoreFollowsAlive(log[..i], log[i].id);
    assert Front(log[..i + 1]) == log[..i] && Last(log[..i + 1]) == log[i];
    KeysDiffer(log[i].id, "default", log[i].node);
  }

  // ---------------------------------------------------------------- logins

  /** A deletion only reaches records whose key parses. */
  predicate Deletes(e: Event, node: string) {
    e.DeleteNode? && e.id == node && Plain(node)
  }

  /** Step `i` is the latest redemption by `node`, it handed out `secret`, and no deletion has reached it since. */
  ghost predicate LatestCredential(log: seq<Event>, node: string, secret: string, i: nat) {
    && Succeeds(log, i) && log[i].node == node && log[i].secret == secret
    && forall k: nat :: i < k < |log| ==> !(Succeeds(log, k) && log[k].node == node) && !Deletes(log[k], node)
  }

  /** One handler moves a node's record only by a redemption of that node or a deletion that reaches it. */
  lemma RecordStep(kv: Store, e: Event, node: string)
    requires Shaped(kv) && node != ""
    ensures var key := NodeKey("default", node);
            var wins := e.Redeem? && e.node == node && Redeemable(kv, e.id, e.now);
            && (key in Apply(kv, e) <==> wins || (key in kv && !Deletes(e, node)))
            && (key in Apply(kv, e) && wins ==> Apply(kv, e)[key].Record? && Apply(kv, e)[key].secret == e.secret)
            && (key in Apply(kv, e) && !wins ==> Apply(kv, e)[key] == kv[key])
  {
    var key := NodeKey("default", node);
    assert Plain("default");
    ParsePrinted("default", node);
    match e
    case Create(i, _, _, _, _) => KeysDiffer(i, "default", node);
    case Redeem(i, other, _, _, _) =>
      KeysDiffer(i, "default", node);
      NodeKeyInjective("default", node, other);
    case List(_) =>
      assert key[1] == 'm' && INVITES[1] == 'i';
    case Revoke(i, _) => KeysDiffer(i, "default", node);
    case DeleteNode(d, _) =>
      if key in kv && kv[key].Record? {
        NodeKeyInjective("default", node, kv[key].nodeId);
      }
      assert key in kv ==> kv[key].Record? by {
        assert key[1] == 'm' && INVITES[1] == 'i';
      }
  }

  /** The latest credential after one more handler. */
  lemma CredentialStep(log: seq<Event>, node: string, secret: string)
    requires log != []
    ensures var e := Last(log);
            var wins := Succeeds(log, |log| - 1) && e.node == node;
            (exists i: nat :: LatestCredential(log, node, secret, i)) <==>
            if wins then e.secret == secret
            else !Deletes(e, node) && exists i: nat :: LatestCredential(Front(log), node, secret, i)
  {
    var p, e := Front(log), Last(log);
    forall i: nat | i < |p|
      ensures Succeeds(log, i) <==> Succeeds(p, i)
    {
      assert p[..i] == log[..i];
    }
    if Succeeds(log, |log| - 1) && e.node == node {
      if e.secret == secret {
        assert LatestCredential(log, node, secret, |log| - 1);
      }
    } else {
      if i: nat :| LatestCredential(log, node, secret, i) {
        assert LatestCredential(p, node, secret, i);
      }
      if !Deletes(e, node) {
        if i: nat :| LatestCredential(p, node, secret, i) {
          assert LatestCredential(log, node, secret, i);
        }
      }
    }
  }

  /**
   A login on the default mesh succeeds exactly with the secret of the node's latest redemption, unless a
   deletion has reached it since; deletions reach exactly the non-empty, slash-free ids.
   */
  lemma {:induction false} LoginIsLatestCredential(log: seq<Event>, node: string, secret: string)
    requires node != "" && secret != ""
    ensures LoginOk(After(log), "default", node, secret) <==> exists i: nat :: LatestCredential(log, node, secret, i)
  {
    if log != [] {
      LoginIsLatestCredential(Front(log), node, secret);
      AlwaysShaped(Front(log));
      RecordStep(After(Front(log)), Last(log), node);
      assert log[..|log| - 1] == Front(log);
      CredentialStep(log, node, secret);
    }
  }

  /** What precedes the node in every record's key. */
  const RECORDS := NodeKey("default", "")

  /** The node whose record a login reads: mesh and node are concatenated, and may be cut elsewhere. */
  ghost predicate ReadsRecordOf(mesh: string, node: string, holder: string) {
    NodeKey(if mesh == "" then "default" else mesh, node) == NodeKey("default", holder)
  }

  lemma RecordKey(key: string)
    ensures RECORDS <= key ==> key == NodeKey("default", key[|RECORDS|..])
    ensures forall holder :: key == NodeKey("default", holder) ==> RECORDS <= key && holder == key[|RECORDS|..]
  {
    forall holder | key == NodeKey("default", holder)
      ensures RECORDS <= key && holder == key[|RECORDS|..]
    {
      assert key == RECORDS + holder;
    }
    if RECORDS <= key {
      assert key == RECORDS + key[|RECORDS|..];
    }
  }

  /**
   Every login, for whatever mesh and node the client names: it is accepted exactly when the key composed of
   the two lies among the default mesh's records, and the secret is the latest one of the node whose id is
   the rest of that key.  Nothing compares that node with the one named.
   */
  lemma LoginExactly(log: seq<Event>, mesh: string, node: string, secret: string)
    requires node != "" && secret != ""
    ensures var key := NodeKey(if mesh == "" then "default" else mesh, node);
            LoginOk(After(log), mesh, node, secret) <==>
            RECORDS <= key && exists i: nat :: LatestCredential(log, key[|RECORDS|..], secret, i)
  {
    AlwaysShaped(log);
    var kv := After(log);
    var key := NodeKey(if mesh == "" then "default" else mesh, node);
    RecordKey(key);
    if RECORDS <= key {
      var holder := key[|RECORDS|..];
      if holder != "" {
        LoginIsLatestCredential(log, holder, secret);
      }
    }
  }

  /** Mesh names under which the composed key is that of another node. */
  predicate Misleads(mesh: string) {
    "default/nodes/" <= mesh + "/"
  }

  /** The part in front of a slash either is the default mesh or misleads. */
  lemma CutAtASlash(mesh: string, rest: string)
    ensures "default/nodes/" <= mesh + "/" + rest <==> Misleads(mesh) || (mesh == "default" && "nodes/" <= rest)
  {
    var p, s := "default/nodes/", mesh + "/" + rest;
    if p <= s {
      assert s[|mesh|] == '/';
      if |mesh| >= 13 {
        assert s[..14] == (mesh + "/")[..14];
      } else {
        assert p[|mesh|] == s[|mesh|];
        assert |mesh| == 7 && mesh == s[..7] && rest == s[8..];
      }
    }
  }

  /** The record read is another node's exactly under those names. */
  lemma WhoseRecord(mesh: string, node: string)
    ensures (exists holder :: holder != node && ReadsRecordOf(mesh, node, holder)) <==> Misleads(mesh)
    ensures ReadsRecordOf(mesh, node, node) <==> mesh == "" || mesh == "default"
  {
    var m := if mesh == "" then "default" else mesh;
    var key := NodeKey(m, node);
    var tail := m + "/" + ("nodes/" + node);
    assert key == MESH + tail && RECORDS == MESH + "default/nodes/";
    RecordKey(key);
    assert key[|MESH|..] == tail;
    assert RECORDS <= key <==> "default/nodes/" <= tail by {
      assert RECORDS <= key ==> tail[..14] == key[|MESH|..|MESH| + 14];
    }
    CutAtASlash(m, "nodes/" + node);
    if Misleads(mesh) {
      var holder := key[|RECORDS|..];
      assert |holder| != |node| && ReadsRecordOf(mesh, node, holder);
    } else if RECORDS <= key {
      assert m == "default" && key == NodeKey("default", node);
    }
    assert ReadsRecordOf(mesh, node, node) ==> |m| == 7;
  }

  /**
   Under every other name, slash-free ones among them, a login takes the named node's own secret, on the default mesh
   only.
   */
  lemma LoginMesh(log: seq<Event>, mesh: string, node: string, secret: string)
    requires node != "" && secret != "" && !Misleads(mesh)
    ensures LoginOk(After(log), mesh, node, secret) <==>
            (mesh == "" || mesh == "default") && exists i: nat :: LatestCredential(log, node, secret, i)
  {
    LoginExactly(log, mesh, node, secret);
    WhoseRecord(mesh, node);
    var key := NodeKey(if mesh == "" then "default" else mesh, node);
    RecordKey(key);
    if RECORDS <= key {
      assert ReadsRecordOf(mesh, node, key[|RECORDS|..]);
    }
  }

  lemma Grow(log: seq<Event>, e: Event) returns (longer: seq<Event>)
    requires Valid(log) && Reached(log, e.now) && (e.Create? ==> e.id != "" && !CreatedIn(log, e.id))
    ensures longer == log + [e] && Valid(longer) && After(longer) == Apply(After(log), e) && Last(longer) == e
  {
    longer := log + [e];
    assert Front(longer) == log;
  }

  /** Deleting an id with a slash leaves its record and its login behind. */
  lemma DeletionMissesSlashedIds() returns (log: seq<Event>)
    ensures Valid(log) && log != [] && Last(log) == DeleteNode("a/b", 0)
    ensures LoginOk(After(log), "default", "a/b", "s")
  {
    log := [];
    log := Grow(log, Create("i", false, 0, "", 0));
    log := Grow(log, Redeem("i", "a/b", "", "s", 0));
    KeysDiffer("i", "default", "a/b");
    AlwaysShaped(log);
    RecordStep(After(log), DeleteNode("a/b", 0), "a/b");
    log := Grow(log, DeleteNode("a/b", 0));
  }

  /** Under each of the misleading names, every node can be logged in as without ever having redeemed an invite. */
  lemma LoginReadsAnotherRecord(mesh: string, node: string, secret: string) returns (log: seq<Event>)
    requires Misleads(mesh) && node != "" && secret != ""
    ensures Valid(log) && LoginOk(After(log), mesh, node, secret)
    ensures forall i: nat :: Succeeds(log, i) ==> log[i].node != node
  {
    WhoseRecord(mesh, node);
    var holder :| holder != node && ReadsRecordOf(mesh, node, holder);
    assert holder != "" by {
      assert |NodeKey(mesh, node)| > |NodeKey("default", "")| by {
        assert |mesh + "/"| >= 14;
      }
    }
    log := [];
    log := Grow(log, Create("i", false, 0, "", 0));
    log := Grow(log, Redeem("i", holder, "", secret, 0));
    KeysDiffer("i", "default", holder);
    assert log[0].Create?;
  }
}
