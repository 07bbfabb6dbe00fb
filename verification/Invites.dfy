/**
 Invites, node records and logins in the admin's key/value store (pkg/admin/api_admin.go).

 The store is a map from strings.  Times are nanoseconds since the epoch, expiry stamps are seconds, as
 in the source.  Secrets and invite ids are parameters; comparing a password with its hash is ideal.
 */
module Invites {
  import opened Basics
  import opened Text

  // ---------------------------------------------------------------- keys

  const MESH := "/mesh/"
  const NODES := "/nodes/"

  function NodeKey(mesh: string, node: string): string {
    MESH + mesh + NODES + node
  }

  const INVITES := "/invites/default/"

  function InviteKey(id: string): string {
    INVITES + id
  }

  /** parseMeshNodeKVKey. */
  function ParseNodeKey(key: string): Option<(string, string)> {
    if !(MESH <= key) then None
    else
      var parts := Split(key[|MESH|..], '/');
      if |parts| != 3 || parts[1] != "nodes" || parts[0] == "" || parts[2] == "" then None
      else Some((parts[0], parts[2]))
  }

  /** An id that survives the key codec. */
  predicate Plain(id: string) {
    id != "" && '/' !in id
  }

  /** The keys as they stand in the store. */
  lemma KeysAsPrinted()
    ensures NodeKey("default", "n1") == "/mesh/default/nodes/n1" && InviteKey("ab") == "/invites/default/ab"
  {
  }

  /** Parsing a printed key returns its parts exactly when both are non-empty and slash-free, and nothing otherwise. */
  lemma ParsePrinted(mesh: string, node: string)
    ensures ParseNodeKey(NodeKey(mesh, node)) == if Plain(mesh) && Plain(node) then Some((mesh, node)) else None
  {
    var key := NodeKey(mesh, node);
    var tail := mesh + NODES + node;
    assert key == MESH + tail && key[|MESH|..] == tail;
    assert tail == mesh + ['/'] + ("nodes" + ['/'] + node);
    SplitConcat(mesh, "nodes" + ['/'] + node, '/');
    SplitConcat("nodes", node, '/');
    SplitParts("nodes", '/');
    SplitParts(mesh, '/');
    SplitParts(node, '/');
    assert Split(tail, '/') == Split(mesh, '/') + (["nodes"] + Split(node, '/'));
  }

  /** Every key that parses is the print of its parts, and they are plain. */
  lemma PrintedParsed(key: string)
    requires ParseNodeKey(key).Some?
    ensures var (mesh, node) := ParseNodeKey(key).value;
            key == NodeKey(mesh, node) && Plain(mesh) && Plain(node)
  {
    var tail := key[|MESH|..];
    var parts := Split(tail, '/');
    JoinSplit(tail, '/');
    SplitParts(tail, '/');
    assert parts == [parts[0], "nodes", parts[2]];
    assert parts[1..] == ["nodes", parts[2]] && parts[1..][1..] == [parts[2]];
    assert Join(parts[1..], '/') == "nodes" + ['/'] + parts[2];
    assert tail == parts[0] + ['/'] + ("nodes" + ['/'] + parts[2]);
    assert key == MESH + tail;
  }

  lemma InviteKeysDoNotParse(id: string)
    ensures ParseNodeKey(InviteKey(id)).None?
  {
    assert InviteKey(id)[1] == 'i' && MESH[1] == 'm';
  }

  lemma KeysDiffer(id: string, mesh: string, node: string)
    ensures InviteKey(id) != NodeKey(mesh, node)
  {
    assert InviteKey(id)[1] == 'i' && NodeKey(mesh, node)[1] == 'm';
  }

  lemma NodeKeyInjective(mesh: string, a: string, b: string)
    ensures NodeKey(mesh, a) == NodeKey(mesh, b) ==> a == b
  {
    var p := MESH + mesh + NODES;
    assert NodeKey(mesh, a)[|p|..] == a && NodeKey(mesh, b)[|p|..] == b;
  }

  lemma InviteKeyInjective(a: string, b: string)
    ensures InviteKey(a) == InviteKey(b) ==> a == b
  {
    assert InviteKey(a)[|INVITES|..] == a && InviteKey(b)[|INVITES|..] == b;
  }

  // ---------------------------------------------------------------- expiry

  const SECOND := 1_000_000_000

  /** int64 wrap-around. */
  function Wrap64(x: int): int {
    (x + 0x8000_0000_0000_0000) % 0x1_0000_0000_0000_0000 - 0x8000_0000_0000_0000
  }

  type UInt64 = x: nat | x < 0x1_0000_0000_0000_0000

  /** time.Now().Add(time.Duration(LifetimeSec) * time.Second).Unix(), with 0 for "forever". */
  function ExpiresAt(lifetime: UInt64, now: nat): int {
    if lifetime == 0 then 0 else (now + Wrap64(Wrap64(lifetime) * SECOND)) / SECOND
  }

  const LONGEST := 9223372036

  /** An invite gets exactly now + lifetime exactly when the lifetime is at most LONGEST seconds. */
  lemma LifetimeIsExact(lifetime: UInt64, now: nat)
    requires lifetime != 0
    ensures ExpiresAt(lifetime, now) == now / SECOND + lifetime <==> lifetime <= LONGEST
  {
    var w := Wrap64(Wrap64(lifetime) * SECOND);
    if lifetime > LONGEST + 1 {
      assert w < (LONGEST + 1) * SECOND;
    }
  }

  datatype Value =
    | Invite(oneTime: bool, expires: int, inviteAs: string)
    | Record(nodeId: string, name: string, invitedAs: string, secret: string)

  predicate Expired(v: Value, now: nat)
    requires v.Invite?
  {
    v.expires != 0 && now / SECOND >= v.expires
  }

  /**
   Within that bound the invite is never mistaken for one that lives forever, and is usable precisely before its time.
   */
  lemma LifetimeIsHonoured(lifetime: UInt64, now: nat, later: nat, oneTime: bool, inviteAs: string)
    requires 0 < lifetime <= LONGEST
    ensures ExpiresAt(lifetime, now) > 0
    ensures Expired(Invite(oneTime, ExpiresAt(lifetime, now), inviteAs), later) <==>
            later / SECOND >= now / SECOND + lifetime
  {
    LifetimeIsExact(lifetime, now);
  }

  /** Without a lifetime an invite never expires. */
  lemma ForeverIsForever(now: nat, later: nat, oneTime: bool, inviteAs: string)
    ensures !Expired(Invite(oneTime, ExpiresAt(0, now), inviteAs), later)
  {
  }

  /** The time until which an invite created at `now` is to be usable. */
  predicate InTime(lifetime: UInt64, now: nat, later: nat) {
    lifetime == 0 || later / SECOND < now / SECOND + lifetime
  }

  lemma PromiseIsKept(lifetime: UInt64, now: nat, later: nat, oneTime: bool, inviteAs: string)
    requires lifetime <= LONGEST
    ensures Expired(Invite(oneTime, ExpiresAt(lifetime, now), inviteAs), later) <==> !InTime(lifetime, now, later)
  {
    if lifetime == 0 {
      ForeverIsForever(now, later, oneTime, inviteAs);
    } else {
      LifetimeIsHonoured(lifetime, now, later, oneTime, inviteAs);
    }
  }

  /** Any other lifetime ends where 64 bits of nanoseconds put it. */
  lemma WrappedLifetime(lifetime: UInt64, now: nat) returns (w: int)
    requires lifetime != 0
    ensures -0x8000_0000_0000_0000 <= w < 0x8000_0000_0000_0000
    ensures exists k: int :: w == lifetime * SECOND - k * 0x1_0000_0000_0000_0000
    ensures ExpiresAt(lifetime, now) == (now + w) / SECOND
  {
    w := Wrap64(Wrap64(lifetime) * SECOND);
    var M := 0x1_0000_0000_0000_0000;
    var a := Wrapped(lifetime);
    var b := Wrapped(Wrap64(lifetime) * SECOND);
    assert w == lifetime * SECOND - (a * SECOND + b) * M;
  }

  lemma Wrapped(x: int) returns (k: int)
    ensures Wrap64(x) == x - k * 0x1_0000_0000_0000_0000
  {
    k := (x + 0x8000_0000_0000_0000) / 0x1_0000_0000_0000_0000;
  }

  // ---------------------------------------------------------------- the handlers' effect on the store

  type Store = map<string, Value>

  datatype Status = Ok | BadRequest | NotFound | Gone | Unauthorized

  predicate HasInvite(kv: Store, id: string) {
    InviteKey(id) in kv && kv[InviteKey(id)].Invite?
  }

  predicate Redeemable(kv: Store, id: string, now: nat) {
    id != "" && HasInvite(kv, id) && !Expired(kv[InviteKey(id)], now)
  }

  function Created(kv: Store, id: string, oneTime: bool, lifetime: UInt64, inviteAs: string, now: nat): Store {
    kv[InviteKey(id) := Invite(oneTime, ExpiresAt(lifetime, now), inviteAs)]
  }

  function Redeemed(kv: Store, id: string, node: string, name: string, secret: string, now: nat): Store {
    if id == "" || !HasInvite(kv, id) then kv
    else if Expired(kv[InviteKey(id)], now) then kv - {InviteKey(id)}
    else if node == "" then kv
    else
      var v := kv[InviteKey(id)];
      var shown := if name == "" then v.inviteAs else name;
      var stored := kv[NodeKey("default", node) := Record(node, shown, v.inviteAs, secret)];
      if v.oneTime then stored - {InviteKey(id)} else stored
  }

  predicate Purged(kv: Store, key: string, now: nat)
    requires key in kv
  {
    INVITES < key && kv[key].Invite? && Expired(kv[key], now)
  }

  /** What listing the invites leaves in the store. */
  function Swept(kv: Store, now: nat): Store {
    kv - (set key | key in kv && Purged(kv, key, now))
  }

  function Revoked(kv: Store, id: string): Store {
    if id == "" then kv else kv - {InviteKey(id)}
  }

  predicate BelongsTo(kv: Store, key: string, id: string)
    requires key in kv
  {
    && ParseNodeKey(key).Some?
    && (ParseNodeKey(key).value.1 == id || (kv[key].Record? && kv[key].nodeId == id))
  }

  function NodeDeleted(kv: Store, id: string): Store {
    if id == "" then kv else kv - (set key | key in kv && BelongsTo(kv, key, id))
  }

  predicate LoginOk(kv: Store, mesh: string, node: string, secret: string) {
    && node != "" && secret != ""
    && var key := NodeKey(if mesh == "" then "default" else mesh, node);
    key in kv && kv[key].Record? && kv[key].secret == secret
  }

  class AdminStore {
    var kv: Store
    var acl: set<string>

    constructor (acl: set<string>)
      ensures kv == map[] && this.acl == acl
    {
      kv, this.acl := map[], acl;
    }

    /** `inviteId` is the random public id; every invite goes to the one mesh there is. */
    method CreateInvite(mesh: string, inviteId: string, oneTime: bool, lifetime: UInt64, inviteAs: string, now: nat)
      returns (st: Status)
      modifies this`kv
      ensures st == if mesh == "" then BadRequest else Ok
      ensures kv == if st.Ok? then Created(old(kv), inviteId, oneTime, lifetime, inviteAs, now) else old(kv)
      ensures st.Ok? ==>
                && HasInvite(kv, inviteId) && kv - {InviteKey(inviteId)} == old(kv) - {InviteKey(inviteId)}
                && var v := kv[InviteKey(inviteId)];
                && v.oneTime == oneTime && v.inviteAs == inviteAs
                && (lifetime <= LONGEST ==> forall later: nat :: Expired(v, later) <==> !InTime(lifetime, now, later))
    {
      if mesh == "" {
        return BadRequest;
      }
      var expires := 0;
      if lifetime != 0 {
        expires := (now + Wrap64(Wrap64(lifetime) * SECOND)) / SECOND;
      }
      kv := kv[InviteKey(inviteId) := Invite(oneTime, expires, inviteAs)];
      if lifetime <= LONGEST {
        forall later: nat {
          PromiseIsKept(lifetime, now, later, oneTime, inviteAs);
        }
      }
      return Ok;
    }

    method RedeemInvite(id: string, node: string, name: string, secret: string, now: nat) returns (st: Status)
      modifies this
      ensures st.Ok? <==> Redeemable(old(kv), id, now) && node != ""
      ensures st.Gone? <==> id != "" && HasInvite(old(kv), id) && Expired(old(kv)[InviteKey(id)], now)
      ensures kv == Redeemed(old(kv), id, node, name, secret, now)
      ensures acl == if st.Ok? then old(acl) + {node} else old(acl)
      ensures st.BadRequest? <==> id == "" || (node == "" && Redeemable(old(kv), id, now))
      ensures st.NotFound? <==> id != "" && !HasInvite(old(kv), id)
      ensures st.Ok? ==>
                && var invite, key := old(kv)[InviteKey(id)], NodeKey("default", node);
                && key in kv
                && kv[key] == Record(node, if name == "" then invite.inviteAs else name, invite.inviteAs, secret)
                && (InviteKey(id) in kv <==> !invite.oneTime)
                && kv - {key, InviteKey(id)} == old(kv) - {key, InviteKey(id)}
      ensures st.Ok? && secret != "" ==> LoginOk(kv, "default", node, secret)
    {
      if id == "" {
        return BadRequest;
      }
      var key := InviteKey(id);
      if key !in kv || !kv[key].Invite? {
        return NotFound;
      }
      var invite := kv[key];
      if invite.expires != 0 && now / SECOND >= invite.expires {
        kv := kv - {key};
        return Gone;
      }
      if node == "" {
        return BadRequest;
      }
      acl := acl + {node};
      var shown := if name == "" then invite.inviteAs else name;
      KeysDiffer(id, "default", node);
      kv := kv[NodeKey("default", node) := Record(node, shown, invite.inviteAs, secret)];
      if invite.oneTime {
        kv := kv - {key};
      }
      return Ok;
    }

    /** Collect while iterating, purge afterwards. */
    method ListInvites(now: nat) returns (ids: seq<string>)
      modifies this`kv
      ensures kv == Swept(old(kv), now)
      ensures forall key :: key in kv ==> key in old(kv) && kv[key] == old(kv)[key]
      ensures forall id :: id != "" && HasInvite(old(kv), id) ==>
                (InviteKey(id) in kv <==> !Expired(old(kv)[InviteKey(id)], now))
      ensures forall id :: id in ids <==> Redeemable(old(kv), id, now)
    {
      ids := [];
      var expired: set<string> := {};
      var todo := kv.Keys;
      while todo != {}
        invariant todo <= kv.Keys && kv == old(kv)
        invariant expired == set key | key in kv && key !in todo && Purged(kv, key, now)
        invariant forall id :: id in ids <==> Redeemable(kv, id, now) && InviteKey(id) !in todo
      {
        var key :| key in todo;
        todo := todo - {key};
        if INVITES <= key && kv[key].Invite? {
          var id := key[|INVITES|..];
          assert key == InviteKey(id);
          forall other {
            InviteKeyInjective(id, other);
          }
          if id != "" {
            if kv[key].expires != 0 && now / SECOND >= kv[key].expires {
              expired := expired + {key};
            } else {
              ids := ids + [id];
            }
          }
        }
      }
      kv := kv - expired;
    }

    method RevokeInvite(id: string) returns (st: Status)
      modifies this`kv
      ensures st == if id == "" then BadRequest else if InviteKey(id) in old(kv) then Ok else NotFound
      ensures kv == Revoked(old(kv), id)
      ensures kv == if st.Ok? then old(kv) - {InviteKey(id)} else old(kv)
    {
      if id == "" {
        return BadRequest;
      }
      if InviteKey(id) !in kv {
        return NotFound;
      }
      kv := kv - {InviteKey(id)};
      return Ok;
    }

    /** meshKeysForNode followed by the deletions of adminDeleteNode. */
    method DeleteNode(id: string) returns (deleted: bool)
      modifies this
      ensures kv == NodeDeleted(old(kv), id)
      ensures acl == if id == "" then old(acl) else old(acl) - {id}
      ensures forall key :: key in kv <==>
                && key in old(kv)
                && !(id != "" && ParseNodeKey(key).Some? &&
                     (ParseNodeKey(key).value.1 == id || (old(kv)[key].Record? && old(kv)[key].nodeId == id)))
      ensures forall key :: key in kv ==> kv[key] == old(kv)[key]
      ensures deleted <==> id != "" && exists key :: key in old(kv) && BelongsTo(old(kv), key, id)
    {
      if id == "" {
        return false;
      }
      var keys: set<string> := {};
      var todo := kv.Keys;
      while todo != {}
        invariant todo <= kv.Keys && kv == old(kv)
        invariant keys == set key | key in kv && key !in todo && BelongsTo(kv, key, id)
      {
        var key :| key in todo;
        todo := todo - {key};
        var parsed := ParseNodeKey(key);
        if parsed.Some? && (parsed.value.1 == id || (kv[key].Record? && kv[key].nodeId == id)) {
          keys := keys + {key};
        }
      }
      acl := acl - {id};
      kv := kv - keys;
      deleted := keys != {};
      assert forall key :: key in keys <==> key in old(kv) && BelongsTo(old(kv), key, id);
      assert deleted <==> exists key :: key in keys;
    }

    method Login(mesh: string, node: string, secret: string) returns (st: Status)
      ensures st.Ok? <==> LoginOk(kv, mesh, node, secret)
      ensures st.BadRequest? <==> node == "" || secret == ""
    {
      if node == "" || secret == "" {
        return BadRequest;
      }
      var meshId := if mesh == "" then "default" else mesh;
      var key := NodeKey(meshId, node);
      if key !in kv || !kv[key].Record? {
        return Unauthorized;
      }
      if kv[key].secret != secret {
        return Unauthorized;
      }
      return Ok;
    }
  }
}
