/**
 Logins and permissions over the histories of RedeemRuns: what interleaved redemptions and node deletions
 leave in the store and on the allow list (pkg/admin/api_admin.go:131-196, 293-351).
 */
module CredentialRuns {
  import opened Basics
  import opened Invites
  import opened RedeemRuns

  // ---------------------------------------------------------------- logins

  predicate Sets(e: Event, key: string) {
    e.Put? && NodeKey("default", e.node) == key
  }

  predicate Unsets(e: Event, key: string) {
    e.Erase? && e.key == key
  }

  /** Step `w` is the last operation on the key, and it is a put. */
  ghost predicate LastPut(log: seq<Event>, key: string, w: nat) {
    && w < |log| && Sets(log[w], key)
    && forall k :: w < k < |log| ==> !Sets(log[k], key) && !Unsets(log[k], key)
  }

  /** No store operation but those on its own key concerns a record. */
  lemma RecordStep(s: State, e: Event, mesh: string, node: string)
    requires Enabled(s, e)
    ensures var key, kv := NodeKey(mesh, node), Apply(s, e).kv;
            && (key in kv <==> Sets(e, key) || (key in s.kv && !Unsets(e, key)))
            && (Sets(e, key) ==> kv[key].Record? && kv[key].nodeId == e.node && kv[key].secret == e.secret)
            && (key in kv && !Sets(e, key) ==> kv[key] == s.kv[key])
  {
    match e
    case Create(id, _, _, _, _) => KeysDiffer(id, mesh, node);
    case Finish(_, id) => KeysDiffer(id, mesh, node);
    case Revoke(id) => KeysDiffer(id, mesh, node);
    case Purge(id) => KeysDiffer(id, mesh, node);
    case _ =>
  }

  /** The record under a key is what its last operation left there. */
  lemma {:induction false} RecordIsLastPut(log: seq<Event>, mesh: string, node: string)
    requires Valid(log)
    ensures var key, kv := NodeKey(mesh, node), After(log).kv;
            && (key in kv <==> exists w: nat :: LastPut(log, key, w))
            && (forall w: nat :: LastPut(log, key, w) ==>
                  key in kv && kv[key].Record? && kv[key].nodeId == log[w].node && kv[key].secret == log[w].secret)
  {
    if log != [] {
      var p, e, key := Front(log), Last(log), NodeKey(mesh, node);
      RecordIsLastPut(p, mesh, node);
      RecordStep(After(p), e, mesh, node);
      LastPutStep(log, key);
    }
  }

  lemma LastPutStep(log: seq<Event>, key: string)
    requires log != []
    ensures Sets(Last(log), key) ==>
              LastPut(log, key, |log| - 1) && forall w: nat :: LastPut(log, key, w) ==> w == |log| - 1
    ensures Unsets(Last(log), key) ==> forall w: nat :: !LastPut(log, key, w)
    ensures !Sets(Last(log), key) && !Unsets(Last(log), key) ==>
              forall w: nat :: LastPut(log, key, w) <==> LastPut(Front(log), key, w)
  {
    var p, e := Front(log), Last(log);
    if !Sets(e, key) && !Unsets(e, key) {
      forall w: nat
        ensures LastPut(log, key, w) <==> LastPut(p, key, w)
      {
        assert forall k :: 0 <= k < |p| ==> p[k] == log[k];
      }
    }
  }

  /**
   In every interleaving, a login is accepted exactly when the last operation on the key it composes, whoever's
   that is, was the put of that secret.
   */
  lemma LoginIsLastPut(log: seq<Event>, mesh: string, node: string, secret: string)
    requires Valid(log) && node != "" && secret != ""
    ensures var key := NodeKey(if mesh == "" then "default" else mesh, node);
            LoginOk(After(log).kv, mesh, node, secret) <==>
            exists w: nat :: LastPut(log, key, w) && log[w].secret == secret
  {
    RecordIsLastPut(log, if mesh == "" then "default" else mesh, node);
  }

  /** A redemption stays about the invite it read. */
  lemma {:induction false} StageId(log: seq<Event>, r: nat)
    requires Valid(log) && r < |log| && log[r].Read?
    ensures var stages := After(log).stages;
            && log[r].op in stages
            && (stages[log[r].op].Fetched? || stages[log[r].op].Accepted? || stages[log[r].op].Allowed? ==>
                  stages[log[r].op].id == log[r].id)
  {
    if r < |log| - 1 {
      StageId(Front(log), r);
    }
  }

  /**
   The record a redemption writes, in every interleaving: the given name, or the one the invite was made out to,
   which is noted in either case.  `r` is the redemption's read and `c` the invite's creation.
   */
  lemma RecordNamed(log: seq<Event>, c: nat, r: nat, w: nat)
    requires Valid(log) && c < |log| && r < w < |log| && log[c].Create? && log[r].Read? && log[w].Put?
    requires log[r].op == log[w].op && log[r].id == log[c].id
    ensures Valid(log[..w + 1])
    ensures var key, kv := NodeKey("default", log[w].node), After(log[..w + 1]).kv;
            && key in kv
            && kv[key] == Record(log[w].node, if log[w].name == "" then log[c].inviteAs else log[w].name,
                                 log[c].inviteAs, log[w].secret)
  {
    StepAt(log, w);
    var p := log[..w];
    assert p[r] == log[r];
    StageId(p, r);
    if c < w {
      assert p[c] == log[c];
      AlwaysFollows(p, c);
    } else {
      FreshUntil(log, c, w);
    }
  }

  // ---------------------------------------------------------------- permissions

  predicate Grants(e: Event, node: string) {
    (e.Allow? && e.node == node) || e == Permit(node)
  }

  predicate Denies(e: Event, node: string) {
    (e.Forbid? && e.id == node) || e == Withdraw(node)
  }

  /** Step `g` gives the permission, and nothing after it takes it. */
  ghost predicate LastGrant(log: seq<Event>, node: string, g: nat) {
    g < |log| && Grants(log[g], node) && forall k :: g < k < |log| ==> !Denies(log[k], node)
  }

  lemma {:induction false} AllowedIsGranted(log: seq<Event>, node: string)
    requires Valid(log)
    ensures node in After(log).acl <==> exists g: nat :: LastGrant(log, node, g)
  {
    if log != [] {
      var p, e := Front(log), Last(log);
      AllowedIsGranted(p, node);
      if Grants(e, node) {
        assert LastGrant(log, node, |log| - 1);
      } else {
        if g: nat :| LastGrant(log, node, g) {
          assert LastGrant(p, node, g);
        }
        if !Denies(e, node) {
          if g: nat :| LastGrant(p, node, g) {
            assert LastGrant(log, node, g);
          }
        }
      }
    }
  }

  lemma {:induction false} ForbidWasCollected(log: seq<Event>, d: nat) returns (c: nat)
    requires Valid(log) && d in After(log).deletions
    ensures c < |log| && log[c] == Collect(d, After(log).deletions[d].id)
  {
    if Last(log).Collect? && Last(log).d == d {
      c := |log| - 1;
    } else {
      c := ForbidWasCollected(Front(log), d);
    }
  }

  /** Some deletion is still going to erase the key. */
  ghost predicate Pending(s: State, key: string) {
    exists d :: d in s.deletions && key in s.deletions[d].keys
  }

  /** A collected key stays with its deletion until that erases it. */
  lemma {:induction false} CollectedStays(log: seq<Event>, c: nat, key: string)
    requires Valid(log) && c < |log| && log[c].Collect?
    requires Valid(log[..c]) && key in KeysOf(After(log[..c]).kv, log[c].id)
    requires forall k :: c < k < |log| ==> !Unsets(log[k], key)
    ensures log[c].d in After(log).deletions && key in After(log).deletions[log[c].d].keys
  {
    if c == |log| - 1 {
      assert log[..c] == Front(log);
    } else {
      assert Front(log)[..c] == log[..c];
      assert forall k :: c < k < |log| - 1 ==> Front(log)[k] == log[k];
      CollectedStays(Front(log), c, key);
      KeepsCollected(After(Front(log)), Last(log), log[c].d, key);
    }
  }

  lemma KeepsCollected(s: State, e: Event, d: nat, key: string)
    requires Enabled(s, e) && !Unsets(e, key) && d in s.deletions && key in s.deletions[d].keys
    ensures d in Apply(s, e).deletions && key in Apply(s, e).deletions[d].keys
  {
  }

  lemma PutIsCollected(log: seq<Event>, node: string, w: nat)
    requires Valid(log) && Plain(node) && LastPut(log, NodeKey("default", node), w)
    ensures NodeKey("default", node) in KeysOf(After(log).kv, node)
  {
    RecordIsLastPut(log, "default", node);
    ParsePrinted("default", node);
    assert BelongsTo(After(log).kv, NodeKey("default", node), node);
  }

  /**
   A deletion that has finished with the key and left the record there collected its keys before the record was put.
   */
  lemma CollectedTooEarly(log: seq<Event>, node: string, c: nat, w: nat)
    requires Valid(log) && Plain(node) && LastPut(log, NodeKey("default", node), w)
    requires !Pending(After(log), NodeKey("default", node))
    requires c < |log| && log[c].Collect? && log[c].id == node
    ensures c < w
  {
    var key := NodeKey("default", node);
    if w < c {
      StepAt(log, c);
      assert forall k :: 0 <= k < c ==> log[..c][k] == log[k];
      PutIsCollected(log[..c], node, w);
      CollectedStays(log, c, key);
    }
  }

  /**
   Step `f` took the permission for good after the redemption that wrote the record at `w` had given it, and
   did not take the record with it: it is an unregistration, or a deletion that collected the node's keys
   before the record was put.  Keys of ids with a slash are never collected.
   */
  ghost predicate Strands(log: seq<Event>, node: string, w: nat, f: nat) {
    && f < |log| && w < |log| && log[w].Put?
    && (exists a :: 0 <= a < f && log[a] == Allow(log[w].op, node))
    && (forall k :: f < k < |log| ==> !Grants(log[k], node))
    && (log[f] == Withdraw(node) ||
        (log[f].Forbid? && log[f].id == node &&
         exists c :: 0 <= c < f && log[c] == Collect(log[f].d, node) && (Plain(node) ==> c < w)))
  }

  lemma {:induction false} LastDenial(log: seq<Event>, node: string, a: nat) returns (f: nat)
    requires Valid(log) && node !in After(log).acl && a < |log| && Grants(log[a], node)
    ensures a < f < |log| && Denies(log[f], node) && forall k :: f < k < |log| ==> !Grants(log[k], node)
  {
    var p, e := Front(log), Last(log);
    if Denies(e, node) {
      f := |log| - 1;
    } else {
      f := LastDenial(p, node, a);
      assert forall k :: 0 <= k < |p| ==> p[k] == log[k];
    }
  }

  /**
   A node that can log in is off the allow list exactly when some step strands it.  `w` wrote its record, and no
   deletion is about to erase it.
   */
  lemma StrandedExactly(log: seq<Event>, node: string, w: nat)
    requires Valid(log) && LastPut(log, NodeKey("default", node), w) && !Pending(After(log), NodeKey("default", node))
    ensures node !in After(log).acl <==> exists f: nat :: Strands(log, node, w, f)
  {
    NodeKeyInjective("default", log[w].node, node);
    AllowedIsGranted(log, node);
    if node !in After(log).acl {
      var q, a := PutWasAccepted(log, w);
      var f := LastDenial(log, node, a);
      if log[f].Forbid? {
        StepAt(log, f);
        var c := ForbidWasCollected(log[..f], log[f].d);
        assert log[..f][c] == log[c];
        if Plain(node) {
          CollectedTooEarly(log, node, c, w);
        }
      }
      assert Strands(log, node, w, f);
    }
    if f: nat :| Strands(log, node, w, f) {
      forall g: nat
        ensures !LastGrant(log, node, g)
      {
        assert Denies(log[f], node);
      }
    }
  }

  lemma CollectedNothing() returns (log: seq<Event>)
    ensures Valid(log) && |log| == 4 && (forall k :: 0 <= k < |log| ==> !log[k].Withdraw?)
    ensures After(log).stages == map[0 := Accepted("i", Invite(false, 0, ""), "a")]
    ensures After(log).deletions == map[1 := Deletion("a", {}, false)]
  {
    log := Grow([], Create("i", false, 0, "", 0));
    log := Grow(log, Read(0, "i"));
    log := Grow(log, Check(0, "a"));
    InvitesAreNotCollected(After(log).kv, "i", "a");
    log := Grow(log, Collect(1, "a"));
  }

  lemma InvitesAreNotCollected(kv: Store, id: string, node: string)
    requires kv.Keys == {InviteKey(id)}
    ensures KeysOf(kv, node) == {}
  {
    InviteKeysDoNotParse(id);
  }

  /**
   A deletion that collects before the record is put, and forbids after the redemption allowed: the node logs in
   and is not allowed.
   */
  lemma DeletedWhileRedeeming() returns (log: seq<Event>)
    ensures Valid(log) && LoginOk(After(log).kv, "default", "a", "s") && "a" !in After(log).acl
    ensures forall key :: !Pending(After(log), key)
    ensures forall k :: 0 <= k < |log| ==> !log[k].Withdraw?
  {
    log := CollectedNothing();
    log := Grow(log, Allow(0, "a"));
    log := Grow(log, Forbid(1, "a"));
    log := Grow(log, Put(0, "a", "", "s"));
    assert forall d :: d in After(log).deletions ==> After(log).deletions[d].keys == {};
  }
}
