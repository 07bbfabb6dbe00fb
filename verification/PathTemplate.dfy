/**
 Filling "{name}" holes of a path with positional values (makePath in pkg/jsonclient/utilities.go).

 Every round rescans the whole path from the start and replaces the first innermost pair of braces, so
 braces inside values take part in later rounds.  Values are given as already rendered text.
 */
module PathTemplate {
  import opened Basics

  predicate IsBrace(c: char) {
    c == '{' || c == '}'
  }

  predicate BraceFree(s: string) {
    forall i :: 0 <= i < |s| ==> !IsBrace(s[i])
  }

  /** A '{' with a later '}'. */
  ghost predicate HasPair(s: string) {
    exists i, k :: 0 <= i < k < |s| && s[i] == '{' && s[k] == '}'
  }

  /** The first '}' that has a '{' before it, with the nearest such '{'. */
  ghost predicate FirstPair(s: string, b: nat, e: nat) {
    && b < e < |s| && s[b] == '{' && s[e] == '}'
    && BraceFree(s[b + 1..e])
    && !HasPair(s[..e])
  }

  /** The inner loop of makePath. */
  method FindPair(s: string) returns (found: bool, b: nat, e: nat)
    ensures found <==> HasPair(s)
    ensures found ==> FirstPair(s, b, e)
  {
    var start := -1;
    for i := 0 to |s|
      invariant -1 <= start < i
      invariant start == -1 ==> forall k :: 0 <= k < i ==> s[k] != '{'
      invariant start != -1 ==> s[start] == '{' && forall k :: start < k < i ==> !IsBrace(s[k])
      invariant !HasPair(s[..i])
    {
      if s[i] == '{' {
        start := i;
      } else if s[i] == '}' && start != -1 {
        return true, start, i;
      }
      assert s[..i + 1] == s[..i] + [s[i]];
    }
    assert s[..|s|] == s;
    return false, 0, 0;
  }

  /** The first pair is unique, so filling is a function of the path. */
  lemma FirstPairUnique(s: string, b: nat, e: nat, b': nat, e': nat)
    requires FirstPair(s, b, e) && FirstPair(s, b', e')
    ensures b == b' && e == e'
  {
  }

  function Replace(s: string, b: nat, e: nat, v: string): string
    requires b < e < |s|
  {
    s[..b] + v + s[e + 1..]
  }

  /** `r` is the path with its pairs filled one after the other from `vs`; `None` when the values run out. */
  ghost predicate Fills(s: string, vs: seq<string>, r: Option<string>)
    decreases |vs|
  {
    if !HasPair(s) then r == Some(s)
    else if vs == [] then r == None
    else exists b: nat, e: nat :: FirstPair(s, b, e) && Fills(Replace(s, b, e, vs[0]), vs[1..], r)
  }

  /** makePath; `scans` counts the rounds of its unbounded loop. */
  method MakePath(path: string, vs: seq<string>) returns (r: Option<string>, scans: nat)
    ensures Fills(path, vs, r)
    ensures scans <= |vs| + 1
  {
    var result := path;
    var paramIndex := 0;
    scans := 0;
    while true
      invariant paramIndex <= |vs| && scans == paramIndex
      invariant forall q :: Fills(result, vs[paramIndex..], q) ==> Fills(path, vs, q)
      decreases |vs| - paramIndex
    {
      var found, start, end := FindPair(result);
      scans := scans + 1;
      if !found {
        return Some(result), scans;
      }
      if paramIndex >= |vs| {
        return None, scans;
      }
      ghost var rest := vs[paramIndex..];
      assert rest[0] == vs[paramIndex] && rest[1..] == vs[paramIndex + 1..];
      var next := result[..start] + vs[paramIndex] + result[end + 1..];
      assert next == Replace(result, start, end, rest[0]);
      forall q | Fills(next, vs[paramIndex + 1..], q)
        ensures Fills(path, vs, q)
      {
        assert Fills(result, rest, q);
      }
      result := next;
      paramIndex := paramIndex + 1;
    }
  }

  /** A successful result has no '{' before a later '}'. */
  lemma {:induction false} ResultHasNoPair(s: string, vs: seq<string>, r: string)
    requires Fills(s, vs, Some(r))
    ensures !HasPair(r)
    decreases |vs|
  {
    if HasPair(s) {
      var b: nat, e: nat :| FirstPair(s, b, e) && Fills(Replace(s, b, e, vs[0]), vs[1..], Some(r));
      ResultHasNoPair(Replace(s, b, e, vs[0]), vs[1..], r);
    }
  }

  // ---------------------------------------------------------------- how many values a path needs

  /** Open braces after reading `s` with `d` of them open. */
  function Depth(s: string, d: nat): nat {
    if s == "" then d
    else if Last(s) == '{' then Depth(Front(s), d) + 1
    else if Last(s) == '}' && Depth(Front(s), d) > 0 then Depth(Front(s), d) - 1
    else Depth(Front(s), d)
  }

  /** Brace pairs matched by a stack in one pass over `s`, starting with `d` open. */
  function Pairs(s: string, d: nat): nat {
    if s == "" then 0
    else Pairs(Front(s), d) + if Last(s) == '}' && Depth(Front(s), d) > 0 then 1 else 0
  }

  lemma {:induction false} PairsConcat(a: string, b: string, d: nat)
    ensures Depth(a + b, d) == Depth(b, Depth(a, d))
    ensures Pairs(a + b, d) == Pairs(a, d) + Pairs(b, Depth(a, d))
  {
    if b == "" {
      assert a + b == a;
    } else {
      PairsConcat(a, Front(b), d);
      assert Front(a + b) == a + Front(b);
    }
  }

  lemma PairsSplit(s: string, i: nat, d: nat)
    requires i <= |s|
    ensures Depth(s, d) == Depth(s[i..], Depth(s[..i], d))
    ensures Pairs(s, d) == Pairs(s[..i], d) + Pairs(s[i..], Depth(s[..i], d))
  {
    assert s == s[..i] + s[i..];
    PairsConcat(s[..i], s[i..], d);
  }

  lemma {:induction false} BraceFreeCounts(s: string, d: nat)
    requires BraceFree(s)
    ensures Depth(s, d) == d && Pairs(s, d) == 0
  {
    if s != "" {
      BraceFreeCounts(Front(s), d);
    }
  }

  lemma HoleCounts(h: string, d: nat)
    requires |h| >= 2 && h[0] == '{' && Last(h) == '}' && forall i :: 0 < i < |h| - 1 ==> !IsBrace(h[i])
    ensures Depth(h, d) == d && Pairs(h, d) == 1
  {
    var open, mid := h[..1], h[1..|h| - 1];
    assert Front(h) == open + mid;
    PairsConcat(open, mid, d);
    BraceFreeCounts(mid, d + 1);
    assert Front(open) == "";
  }

  lemma HoleAt(s: string, b: nat, e: nat)
    requires b < e < |s| && s[b] == '{' && s[e] == '}' && BraceFree(s[b + 1..e])
    ensures var h := s[b..e + 1];
            h[0] == '{' && Last(h) == '}' && forall i :: 0 < i < |h| - 1 ==> !IsBrace(h[i])
  {
    var h := s[b..e + 1];
    forall i | 0 < i < |h| - 1
      ensures !IsBrace(h[i])
    {
      assert h[i] == s[b + 1..e][i - 1];
    }
  }

  /** Replacing the first pair by a brace-free value takes exactly one pair away. */
  lemma ReplaceCounts(s: string, b: nat, e: nat, v: string)
    requires b < e < |s| && s[b] == '{' && s[e] == '}' && BraceFree(s[b + 1..e]) && BraceFree(v)
    ensures Pairs(s, 0) == Pairs(Replace(s, b, e, v), 0) + 1
  {
    var pre, hole, post := s[..b], s[b..e + 1], s[e + 1..];
    HoleAt(s, b, e);
    HoleCounts(hole, Depth(pre, 0));
    PairsSplit(s, e + 1, 0);
    assert s[..e + 1][..b] == pre && s[..e + 1][b..] == hole;
    PairsSplit(s[..e + 1], b, 0);
    ReplacedCounts(pre, v, post);
  }

  lemma ReplacedCounts(pre: string, v: string, post: string)
    requires BraceFree(v)
    ensures Pairs(pre + v + post, 0) == Pairs(pre, 0) + Pairs(post, Depth(pre, 0))
  {
    PairsConcat(pre + v, post, 0);
    PairsConcat(pre, v, 0);
    BraceFreeCounts(v, Depth(pre, 0));
  }

  /** The stack finds nothing to match exactly when there is no '{' with a later '}'. */
  lemma {:induction false} NoPairsNoCount(s: string)
    ensures Pairs(s, 0) == 0 <==> !HasPair(s)
    ensures !HasPair(s) ==> (Depth(s, 0) == 0 <==> '{' !in s)
  {
    if s != "" {
      var p := Front(s);
      NoPairsNoCount(p);
      if i, k :| 0 <= i < k < |p| && p[i] == '{' && p[k] == '}' {
        assert s[i] == '{' && s[k] == '}';
      }
      if i :| 0 <= i < |p| && p[i] == '{' && Last(s) == '}' {
        assert s[i] == '{' && s[|s| - 1] == '}';
      }
      assert s == p + [Last(s)];
    }
  }

  /** With brace-free values, filling succeeds exactly when there are at least as many values as matched pairs. */
  lemma {:induction false} EnoughValues(s: string, vs: seq<string>, r: Option<string>)
    requires Fills(s, vs, r) && forall i :: 0 <= i < |vs| ==> BraceFree(vs[i])
    ensures r.Some? <==> Pairs(s, 0) <= |vs|
    decreases |vs|
  {
    NoPairsNoCount(s);
    if HasPair(s) && vs != [] {
      var b: nat, e: nat :| FirstPair(s, b, e) && Fills(Replace(s, b, e, vs[0]), vs[1..], r);
      ReplaceCounts(s, b, e, vs[0]);
      EnoughValues(Replace(s, b, e, vs[0]), vs[1..], r);
    }
  }

  // ---------------------------------------------------------------- what a well-formed path is filled with

  /** Literal text and holes in turn: lits[0] {names[0]} lits[1] ... */
  function Template(lits: seq<string>, names: seq<string>): string
    requires |lits| == |names| + 1
  {
    if names == [] then lits[0] else lits[0] + ("{" + names[0] + "}") + Template(lits[1..], names[1..])
  }

  function Filled(lits: seq<string>, vs: seq<string>): string
    requires |lits| == |vs| + 1
  {
    if vs == [] then lits[0] else lits[0] + vs[0] + Filled(lits[1..], vs[1..])
  }

  /** After brace-free text, a hole is the first pair, and replacing it leaves brace-free text again. */
  lemma HoleIsFirst(pre: string, name: string, tail: string, v: string)
    requires BraceFree(pre) && BraceFree(name)
    ensures var s := pre + ("{" + name + "}") + tail;
            var b, e := |pre|, |pre| + 1 + |name|;
            FirstPair(s, b, e) && Replace(s, b, e, v) == pre + v + tail
  {
    var s := pre + ("{" + name + "}") + tail;
    var b, e := |pre|, |pre| + 1 + |name|;
    assert s[b + 1..e] == name;
    assert s[..e] == pre + "{" + name;
  }

  lemma FillsStep(s: string, b: nat, e: nat, vs: seq<string>, r: Option<string>)
    requires FirstPair(s, b, e) && vs != [] && Fills(Replace(s, b, e, vs[0]), vs[1..], r)
    ensures Fills(s, vs, r)
  {
  }

  lemma BraceFreeConcat(a: string, b: string)
    requires BraceFree(a) && BraceFree(b)
    ensures BraceFree(a + b)
  {
  }

  lemma Regroup(a: string, b: string, c: string, d: string)
    ensures a + (b + c + d) == (a + b) + c + d
  {
  }

  /** The i-th hole gets the i-th value, and everything else stays. */
  lemma {:induction false} TemplateIsFilled(done: string, lits: seq<string>, names: seq<string>, vs: seq<string>)
    requires |lits| == |names| + 1 == |vs| + 1
    requires BraceFree(done)
    requires forall i :: 0 <= i < |lits| ==> BraceFree(lits[i])
    requires forall i :: 0 <= i < |vs| ==> BraceFree(names[i]) && BraceFree(vs[i])
    ensures Fills(done + Template(lits, names), vs, Some(done + Filled(lits, vs)))
    decreases |vs|
  {
    var pre := done + lits[0];
    BraceFreeConcat(done, lits[0]);
    if vs != [] {
      var tail := Template(lits[1..], names[1..]);
      var result := Filled(lits[1..], vs[1..]);
      Regroup(done, lits[0], "{" + names[0] + "}", tail);
      Regroup(done, lits[0], vs[0], result);
      HoleIsFirst(pre, names[0], tail, vs[0]);
      BraceFreeConcat(pre, vs[0]);
      TemplateIsFilled(pre + vs[0], lits[1..], names[1..], vs[1..]);
      FillsStep(pre + ("{" + names[0] + "}") + tail, |pre|, |pre| + 1 + |names[0]|, vs, Some(pre + vs[0] + result));
    }
  }

  /** Filling is determined by the path and the values. */
  lemma {:induction false} FillsOneWay(s: string, vs: seq<string>, r: Option<string>, q: Option<string>)
    requires Fills(s, vs, r) && Fills(s, vs, q)
    ensures r == q
    decreases |vs|
  {
    if HasPair(s) && vs != [] {
      var b: nat, e: nat :| FirstPair(s, b, e) && Fills(Replace(s, b, e, vs[0]), vs[1..], r);
      var b': nat, e': nat :| FirstPair(s, b', e') && Fills(Replace(s, b', e', vs[0]), vs[1..], q);
      FirstPairUnique(s, b, e, b', e');
      FillsOneWay(Replace(s, b, e, vs[0]), vs[1..], r, q);
    }
  }
}
