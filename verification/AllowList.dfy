/**
 The allow list and its file (pkg/admin/allow.go).

 The set changes under a lock; the file is emptied and written afterwards, outside it, from a snapshot taken
 inside.  Writes of concurrent operations can therefore land in any order, and even overlap.
 */
module AllowList {
  import opened Basics
  import opened Text

  // ---------------------------------------------------------------- the file format

  /** Unicode white space, as strings.TrimSpace has it. */
  predicate IsSpace(c: char) {
    var x := c as int;
    || 0x9 <= x <= 0xD || x == 0x20 || x == 0x85 || x == 0xA0 || x == 0x1680 || 0x2000 <= x <= 0x200A
    || x == 0x2028 || x == 0x2029 || x == 0x202F || x == 0x205F || x == 0x3000
  }

  /** Spelt out. */
  const WHITE_SPACE: set<int> := {
    0x9, 0xA, 0xB, 0xC, 0xD, 0x20, 0x85, 0xA0, 0x1680, 0x2000, 0x2001, 0x2002, 0x2003, 0x2004, 0x2005, 0x2006, 0x2007,
    0x2008, 0x2009, 0x200A, 0x2028, 0x2029, 0x202F, 0x205F, 0x3000
  }

  lemma SpacesAreThese(c: char)
    ensures IsSpace(c) <==> c as int in WHITE_SPACE
  {
  }

  function TrimLeft(s: string): string {
    if s != "" && IsSpace(s[0]) then TrimLeft(s[1..]) else s
  }

  function TrimRight(s: string): string {
    if s != "" && IsSpace(Last(s)) then TrimRight(Front(s)) else s
  }

  function TrimSpace(s: string): string {
    TrimRight(TrimLeft(s))
  }

  /** Newline-terminated lines, the last one possibly not. */
  function Lines(s: string): seq<string> {
    var parts := Split(s, '\n');
    if Last(parts) == "" then Front(parts) else parts
  }

  /** Bytes of the UTF-8 encoding. */
  function Bytes(s: string): nat {
    if s == "" then 0
    else
      var x := s[0] as int;
      (if x < 0x80 then 1 else if x < 0x800 then 2 else if x < 0x1_0000 then 3 else 4) + Bytes(s[1..])
  }

  /** bufio.MaxScanTokenSize: the scanner gives up at the first line that does not fit its buffer. */
  const LIMIT := 65536

  predicate Fits(line: string) {
    Bytes(line) < LIMIT
  }

  /** For ASCII the limit counts characters; any other character takes two to four bytes. */
  lemma {:induction false} FitsExactly(s: string)
    ensures |s| <= Bytes(s) <= 4 * |s|
    ensures (forall i :: 0 <= i < |s| ==> s[i] as int < 128) ==> Bytes(s) == |s| && (Fits(s) <==> |s| < 65536)
    ensures (forall i :: 0 <= i < |s| ==> 128 <= s[i] as int < 2048) ==> Bytes(s) == 2 * |s|
    ensures (forall i :: 0 <= i < |s| ==> 2048 <= s[i] as int < 65536) ==> Bytes(s) == 3 * |s|
    ensures (forall i :: 0 <= i < |s| ==> 65536 <= s[i] as int) ==> Bytes(s) == 4 * |s|
  {
    if s != "" {
      FitsExactly(s[1..]);
    }
  }

  function Scanned(lines: seq<string>): seq<string> {
    if lines == [] || !Fits(lines[0]) then [] else [lines[0]] + Scanned(lines[1..])
  }

  function DropCR(line: string): string {
    if line != "" && Last(line) == '\r' then Front(line) else line
  }

  /** The id a line contributes; comments and blank lines contribute none. */
  function Entry(line: string): Option<string> {
    var t := TrimSpace(DropCR(line));
    if t == "" || t[0] == '#' then None else Some(t)
  }

  function Entries(lines: seq<string>): set<string> {
    if lines == [] then {}
    else (match Entry(lines[0]) case None => {} case Some(id) => {id}) + Entries(lines[1..])
  }

  function Loaded(file: string): set<string> {
    Entries(Scanned(Lines(file)))
  }

  lemma {:induction false} ScannedUpTo(lines: seq<string>, i: nat)
    requires i <= |lines| && (forall k :: 0 <= k < i ==> Fits(lines[k])) && (i < |lines| ==> !Fits(lines[i]))
    ensures Scanned(lines) == lines[..i]
  {
    if i > 0 {
      ScannedUpTo(lines[1..], i - 1);
      assert lines[..i] == [lines[0]] + lines[1..][..i - 1];
    }
  }

  lemma {:induction false} ScannedLines(lines: seq<string>)
    ensures forall line :: line in Scanned(lines) ==> line in lines && Fits(line)
  {
    if lines != [] && Fits(lines[0]) {
      ScannedLines(lines[1..]);
    }
  }

  lemma FirstLine(lines: seq<string>)
    requires lines != []
    ensures Entries(Scanned(lines)) ==
            if !Fits(lines[0]) then {}
            else (match Entry(lines[0]) case None => {} case Some(id) => {id}) + Entries(Scanned(lines[1..]))
  {
  }

  /** NewAllowList's scanner loop: a line that is too long ends it with an error, and what was read before it stays. */
  method Load(file: string) returns (allow: set<string>, complete: bool)
    ensures allow == Loaded(file)
    ensures forall id :: id in allow <==> exists i: nat, j: nat :: ListsAt(file, id, i, j)
    ensures complete <==> forall k :: 0 <= k < |Lines(file)| ==> Fits(Lines(file)[k])
  {
    forall id {
      LoadedExactly(file, id);
    }
    allow := {};
    var lines := Lines(file);
    for i := 0 to |lines|
      invariant allow + Entries(Scanned(lines[i..])) == Loaded(file)
      invariant forall k :: 0 <= k < i ==> Fits(lines[k])
    {
      FirstLine(lines[i..]);
      assert lines[i..][0] == lines[i] && lines[i..][1..] == lines[i + 1..];
      if !Fits(lines[i]) {
        return allow, false;
      }
      var line := TrimSpace(DropCR(lines[i]));
      if line == "" || line[0] == '#' {
        continue;
      }
      allow := allow + {line};
    }
    return allow, true;
  }

  function Persisted(ids: seq<string>): string {
    if ids == [] then "" else ids[0] + ['\n'] + Persisted(ids[1..])
  }

  /** persist's builder loop. */
  method Persist(ids: seq<string>) returns (file: string)
    ensures file == Persisted(ids)
  {
    file := "";
    for i := 0 to |ids|
      invariant file + Persisted(ids[i..]) == Persisted(ids)
    {
      assert ids[i..][1..] == ids[i + 1..];
      assert file + (ids[i] + ['\n'] + Persisted(ids[i + 1..])) == file + ids[i] + ['\n'] + Persisted(ids[i + 1..]);
      file := file + ids[i] + ['\n'];
    }
    assert ids[|ids|..] == [];
  }

  /** An id that survives the file: trimmed, not empty, on one line that fits, and not a comment. */
  predicate Storable(id: string) {
    id != "" && id[0] != '#' && '\n' !in id && TrimSpace(id) == id && Fits(id)
  }

  lemma {:induction false} BytesOfPrefix(p: string, s: string)
    requires p <= s
    ensures Bytes(p) <= Bytes(s)
  {
    if p != "" {
      BytesOfPrefix(p[1..], s[1..]);
    }
  }

  lemma {:induction false} TrimLeftFacts(s: string)
    ensures TrimLeft(s) == "" || !IsSpace(TrimLeft(s)[0])
    ensures forall c :: c in TrimLeft(s) ==> c in s
    ensures Bytes(TrimLeft(s)) <= Bytes(s)
  {
    if s != "" && IsSpace(s[0]) {
      TrimLeftFacts(s[1..]);
    }
  }

  lemma {:induction false} TrimRightFacts(s: string)
    ensures TrimRight(s) == "" || !IsSpace(Last(TrimRight(s)))
    ensures TrimRight(s) <= s
  {
    if s != "" && IsSpace(Last(s)) {
      TrimRightFacts(Front(s));
    }
  }

  /** Trimming is finished after one go, and only drops characters. */
  lemma TrimSpaceFacts(s: string)
    ensures TrimSpace(TrimSpace(s)) == TrimSpace(s)
    ensures forall c :: c in TrimSpace(s) ==> c in s
    ensures Bytes(TrimSpace(s)) <= Bytes(s)
  {
    var l := TrimLeft(s);
    var t := TrimRight(l);
    TrimLeftFacts(s);
    TrimRightFacts(l);
    BytesOfPrefix(t, l);
    assert t != "" ==> t[0] == l[0];
    assert TrimLeft(t) == t;
  }

  /** Whatever a line that fits contributes is storable. */
  lemma EntryIsStorable(line: string)
    requires '\n' !in line && Fits(line)
    ensures Entry(line).Some? ==> Storable(Entry(line).value)
  {
    TrimSpaceFacts(DropCR(line));
    BytesOfPrefix(DropCR(line), line);
  }

  lemma StorableIsEntry(id: string)
    requires Storable(id)
    ensures Entry(id) == Some(id)
  {
    TrimLeftFacts(id);
    TrimRightFacts(TrimLeft(id));
    assert Last(id) != '\r';
  }

  lemma {:induction false} EntriesAreStorable(lines: seq<string>)
    requires forall line :: line in lines ==> '\n' !in line && Fits(line)
    ensures forall id :: id in Entries(lines) ==> Storable(id)
  {
    if lines != [] {
      EntriesAreStorable(lines[1..]);
      EntryIsStorable(lines[0]);
    }
  }

  /** Nothing else is ever loaded. */
  lemma LoadedIsStorable(file: string)
    ensures forall id :: id in Loaded(file) ==> Storable(id)
  {
    SplitParts(file, '\n');
    ScannedLines(Lines(file));
    EntriesAreStorable(Scanned(Lines(file)));
  }

  lemma {:induction false} StorableEntries(ids: seq<string>)
    requires forall i :: 0 <= i < |ids| ==> Storable(ids[i])
    ensures Entries(ids) == set id | id in ids
  {
    if ids != [] {
      StorableEntries(ids[1..]);
      StorableIsEntry(ids[0]);
      assert ids == [ids[0]] + ids[1..];
    }
  }

  lemma {:induction false} PersistedLines(ids: seq<string>)
    requires forall i :: 0 <= i < |ids| ==> '\n' !in ids[i]
    ensures Split(Persisted(ids), '\n') == ids + [""]
  {
    if ids != [] {
      PersistedLines(ids[1..]);
      SplitConcat(ids[0], Persisted(ids[1..]), '\n');
      SplitParts(ids[0], '\n');
      assert ids == [ids[0]] + ids[1..];
    }
  }

  lemma StorablesAreLoaded(ids: seq<string>)
    requires forall i :: 0 <= i < |ids| ==> Storable(ids[i])
    ensures Loaded(Persisted(ids)) == set id | id in ids
  {
    PersistedLines(ids);
    assert Lines(Persisted(ids)) == ids;
    ScannedUpTo(ids, |ids|);
    assert ids[..|ids|] == ids;
    StorableEntries(ids);
  }

  /** Loading what was persisted gives the same set back exactly when every id is storable. */
  lemma LoadPersisted(ids: seq<string>)
    ensures Loaded(Persisted(ids)) == (set id | id in ids) <==> forall i :: 0 <= i < |ids| ==> Storable(ids[i])
  {
    if forall i :: 0 <= i < |ids| ==> Storable(ids[i]) {
      StorablesAreLoaded(ids);
    } else {
      var i :| 0 <= i < |ids| && !Storable(ids[i]);
      LoadedIsStorable(Persisted(ids));
      assert ids[i] in (set id | id in ids);
    }
  }

  // ---------------------------------------------------------------- what any file loads to

  predicate Blank(s: string) {
    forall i :: 0 <= i < |s| ==> IsSpace(s[i])
  }

  /** `file[i..j]` is a line: from a line's start to the next newline, or to the end if there is anything left. */
  ghost predicate LineAt(file: string, i: nat, j: nat) {
    && i <= j <= |file| && (i == 0 || file[i - 1] == '\n') && '\n' !in file[i..j]
    && (if j < |file| then file[j] == '\n' else i < j)
  }

  /** Text that can be an id: it neither starts nor ends in white space, and is not a comment. */
  predicate IsId(id: string) {
    id != "" && !IsSpace(id[0]) && !IsSpace(Last(id)) && id[0] != '#'
  }

  /** The line is the id with nothing but white space around it. */
  ghost predicate Bears(line: string, id: string) {
    IsId(id) && exists a, b :: Blank(a) && Blank(b) && line == a + id + b
  }

  /** The line from `i` to `j` bears the id, and no line up to it is too long. */
  ghost predicate ListsAt(file: string, id: string, i: nat, j: nat) {
    && LineAt(file, i, j) && Bears(file[i..j], id)
    && forall x: nat, y: nat :: LineAt(file, x, y) && x <= i ==> Fits(file[x..y])
  }

  lemma {:induction false} TrimLeftParts(s: string) returns (a: string)
    ensures Blank(a) && s == a + TrimLeft(s)
  {
    a := "";
    if s != "" && IsSpace(s[0]) {
      var b := TrimLeftParts(s[1..]);
      a := [s[0]] + b;
    }
  }

  lemma {:induction false} TrimRightParts(s: string) returns (b: string)
    ensures Blank(b) && s == TrimRight(s) + b
  {
    b := "";
    if s != "" && IsSpace(Last(s)) {
      var c := TrimRightParts(Front(s));
      b := c + [Last(s)];
    }
  }

  lemma {:induction false} TrimLeftOf(a: string, s: string)
    requires Blank(a) && s != "" && !IsSpace(s[0])
    ensures TrimLeft(a + s) == s
  {
    if a == "" {
      assert a + s == s;
    } else {
      assert (a + s)[1..] == a[1..] + s;
      TrimLeftOf(a[1..], s);
    }
  }

  lemma {:induction false} TrimRightOf(s: string, b: string)
    requires Blank(b) && s != "" && !IsSpace(Last(s))
    ensures TrimRight(s + b) == s
  {
    if b == "" {
      assert s + b == s;
    } else {
      assert Front(s + b) == s + Front(b);
      TrimRightOf(s, Front(b));
    }
  }

  lemma TrimSpaceOf(a: string, id: string, b: string)
    requires Blank(a) && Blank(b) && id != "" && !IsSpace(id[0]) && !IsSpace(Last(id))
    ensures TrimSpace(a + id + b) == id
  {
    assert a + id + b == a + (id + b);
    TrimLeftOf(a, id + b);
    TrimRightOf(id, b);
  }

  lemma TrimParts(s: string) returns (a: string, b: string)
    ensures Blank(a) && Blank(b) && s == a + TrimSpace(s) + b
    ensures TrimSpace(s) != "" ==> !IsSpace(TrimSpace(s)[0]) && !IsSpace(Last(TrimSpace(s)))
  {
    a := TrimLeftParts(s);
    b := TrimRightParts(TrimLeft(s));
    TrimLeftFacts(s);
    TrimRightFacts(TrimLeft(s));
  }

  lemma EntryBears(line: string, id: string)
    requires Entry(line) == Some(id)
    ensures Bears(line, id)
  {
    var s := DropCR(line);
    var cr := line[|s|..];
    var a, b := TrimParts(s);
    BornBy(line, a, id, b, cr);
  }

  lemma BornBy(line: string, a: string, id: string, b: string, cr: string)
    requires Blank(a) && Blank(b) && Blank(cr) && IsId(id) && line == a + id + b + cr
    ensures Bears(line, id)
  {
    assert Blank(b + cr);
    assert line == a + id + (b + cr);
  }

  /** A carriage return at the end of a line is white space like any other. */
  lemma DropCROf(a: string, id: string, b: string) returns (b': string)
    requires Blank(b) && id != "" && !IsSpace(Last(id))
    ensures Blank(b') && DropCR(a + id + b) == a + id + b'
  {
    var line := a + id + b;
    b' := b;
    if Last(line) == '\r' {
      b' := Front(b);
      assert Front(line) == a + id + b';
    }
  }

  lemma BearsEntry(line: string, id: string)
    requires Bears(line, id)
    ensures Entry(line) == Some(id)
  {
    var a, b :| Blank(a) && Blank(b) && line == a + id + b;
    var b' := DropCROf(a, id, b);
    TrimSpaceOf(a, id, b');
  }

  /** What one line contributes, without saying how it is trimmed. */
  lemma EntryExactly(line: string, id: string)
    ensures Entry(line) == Some(id) <==> Bears(line, id)
  {
    if Entry(line) == Some(id) {
      EntryBears(line, id);
    }
    if Bears(line, id) {
      BearsEntry(line, id);
    }
  }

  /** The first line of a file with a newline in it, and the rest. */
  lemma LinesOf(a: string, b: string)
    requires '\n' !in a
    ensures Lines(a + ['\n'] + b) == [a] + Lines(b)
  {
    SplitConcat(a, b, '\n');
    SplitParts(a, '\n');
    var parts := Split(b, '\n');
    assert Last([a] + parts) == Last(parts) && Front([a] + parts) == [a] + Front(parts);
  }

  lemma LoadedOf(a: string, b: string)
    requires '\n' !in a
    ensures Loaded(a + ['\n'] + b) ==
            if !Fits(a) then {} else (match Entry(a) case None => {} case Some(id) => {id}) + Loaded(b)
  {
    LinesOf(a, b);
    FirstLine([a] + Lines(b));
    assert ([a] + Lines(b))[1..] == Lines(b);
  }

  lemma LoadedOfLast(a: string)
    requires '\n' !in a
    ensures Loaded(a) == if a == "" || !Fits(a) then {} else match Entry(a) case None => {} case Some(id) => {id}
  {
    SplitParts(a, '\n');
    if a != "" {
      FirstLine([a]);
      assert [a][1..] == [];
    }
  }

  lemma {:induction false} FindNewline(file: string) returns (k: nat)
    ensures k <= |file| && '\n' !in file[..k] && (k < |file| ==> file[k] == '\n')
  {
    k := 0;
    if file != "" && file[0] != '\n' {
      var n := FindNewline(file[1..]);
      k := n + 1;
      assert file[..k] == [file[0]] + file[1..][..n];
    }
  }

  /** The lines after the first are those of the rest. */
  lemma LineAfter(a: string, b: string, i: nat, j: nat)
    requires '\n' !in a
    ensures var file, n := a + ['\n'] + b, |a| + 1;
            && (LineAt(file, n + i, n + j) <==> LineAt(b, i, j))
            && (i <= j <= |b| ==> file[n + i..n + j] == b[i..j])
            && (LineAt(file, i, j) ==> (i == 0 && j == |a|) || n <= i)
            && LineAt(file, 0, |a|) && file[..|a|] == a
  {
    var file, n := a + ['\n'] + b, |a| + 1;
    if i <= j <= |b| {
      assert file[n + i..n + j] == b[i..j];
    }
    assert file[..|a|] == a && file[0..|a|] == a && file[|a|] == '\n';
  }

  /**
   What a file loads to, line by line: an id is loaded exactly when some line bears it and no line up to that one
   is too long for the scanner.  A last line without a newline counts if it is not empty.
   */
  lemma {:induction false} LoadedExactly(file: string, id: string)
    ensures id in Loaded(file) <==> exists i: nat, j: nat :: ListsAt(file, id, i, j)
    decreases |file|
  {
    var k := FindNewline(file);
    var a := file[..k];
    EntryExactly(a, id);
    if k == |file| {
      assert a == file;
      LoadedOfLast(file);
      OnlyLine(file, id);
    } else {
      var b := file[k + 1..];
      assert file == a + ['\n'] + b;
      LoadedOf(a, b);
      LoadedExactly(b, id);
      FirstOrLater(a, b, id);
    }
  }

  lemma OnlyLine(file: string, id: string)
    requires '\n' !in file
    ensures (exists i: nat, j: nat :: ListsAt(file, id, i, j)) <==> file != "" && Fits(file) && Bears(file, id)
  {
    assert file[0..|file|] == file;
    assert forall i: nat, j: nat :: LineAt(file, i, j) ==> i == 0 && j == |file|;
    if file != "" && Fits(file) && Bears(file, id) {
      assert ListsAt(file, id, 0, |file|);
    }
  }

  lemma FirstOrLater(a: string, b: string, id: string)
    requires '\n' !in a
    ensures (exists i: nat, j: nat :: ListsAt(a + ['\n'] + b, id, i, j)) <==>
            Fits(a) && (Bears(a, id) || exists i: nat, j: nat :: ListsAt(b, id, i, j))
  {
    var file, n := a + ['\n'] + b, |a| + 1;
    if i: nat, j: nat :| ListsAt(file, id, i, j) {
      ListedSomewhere(a, b, id, i, j);
    }
    if Fits(a) && Bears(a, id) {
      ListedFirst(a, b, id);
    }
    if Fits(a) {
      if i: nat, j: nat :| ListsAt(b, id, i, j) {
        ListedLater(a, b, id, i, j);
        assert ListsAt(file, id, n + i, n + j);
      }
    }
  }

  lemma ListedSomewhere(a: string, b: string, id: string, i: nat, j: nat)
    requires '\n' !in a && ListsAt(a + ['\n'] + b, id, i, j)
    ensures Fits(a) && (Bears(a, id) || exists i: nat, j: nat :: ListsAt(b, id, i, j))
  {
    var file, n := a + ['\n'] + b, |a| + 1;
    LineAfter(a, b, i, j);
    assert file[0..|a|] == a && Fits(file[0..|a|]);
    if n <= i {
      ListedLater(a, b, id, i - n, j - n);
    }
  }

  lemma ListedFirst(a: string, b: string, id: string)
    requires '\n' !in a && Fits(a) && Bears(a, id)
    ensures ListsAt(a + ['\n'] + b, id, 0, |a|)
  {
    var file := a + ['\n'] + b;
    LineAfter(a, b, 0, 0);
    assert file[0..|a|] == a;
    forall x: nat, y: nat | LineAt(file, x, y) && x <= 0
      ensures Fits(file[x..y])
    {
      LineAfter(a, b, x, y);
    }
  }

  lemma ListedLater(a: string, b: string, id: string, i: nat, j: nat)
    requires '\n' !in a && Fits(a)
    ensures var n := |a| + 1; ListsAt(a + ['\n'] + b, id, n + i, n + j) <==> ListsAt(b, id, i, j)
  {
    var file, n := a + ['\n'] + b, |a| + 1;
    LineAfter(a, b, i, j);
    if ListsAt(b, id, i, j) {
      forall x: nat, y: nat | LineAt(file, x, y) && x <= n + i
        ensures Fits(file[x..y])
      {
        LineAfter(a, b, x, y);
        if n <= x {
          LineAfter(a, b, x - n, y - n);
        } else {
          assert file[x..y] == a;
        }
      }
    }
    if ListsAt(file, id, n + i, n + j) {
      forall x: nat, y: nat | LineAt(b, x, y) && x <= i
        ensures Fits(b[x..y])
      {
        LineAfter(a, b, x, y);
      }
    }
  }

  // ---------------------------------------------------------------- the list object

  /** `order` lists the set, each id once. */
  ghost predicate Enumerates(order: seq<string>, ids: set<string>) {
    && (forall id :: id in order <==> id in ids)
    && (forall i, j :: 0 <= i < j < |order| ==> order[i] != order[j])
  }

  class List {
    var allow: set<string>
    const path: string
    var file: string // contents of the file at `path`

    constructor (path: string, file: string)
      ensures this.path == path && this.file == file
      ensures allow == if path == "" then {} else Loaded(file)
    {
      this.path, this.file, allow := path, file, {};
      new;
      if path != "" {
        var loaded, complete := Load(file);
        allow := loaded;
      }
    }

    /** The snapshot taken under the lock. */
    method Snapshot() returns (snapshot: seq<string>)
      ensures Enumerates(snapshot, allow)
    {
      snapshot := [];
      var todo := allow;
      while todo != {}
        invariant todo <= allow && Enumerates(snapshot, allow - todo)
      {
        var id :| id in todo;
        todo := todo - {id};
        snapshot := snapshot + [id];
      }
      assert allow - todo == allow;
    }

    /** Add without interference: the file holds the new set, if its ids are storable. */
    method Add(id: string)
      modifies this
      ensures allow == old(allow) + {id}
      ensures path == "" ==> file == old(file)
      ensures path != "" && (forall x :: x in allow ==> Storable(x)) ==> Loaded(file) == allow
    {
      allow := allow + {id};
      var snapshot := Snapshot();
      if path != "" {
        LoadPersisted(snapshot);
        file := Persist(snapshot);
      }
    }

    method Remove(id: string)
      modifies this
      ensures allow == old(allow) - {id}
      ensures path == "" ==> file == old(file)
      ensures path != "" && (forall x :: x in allow ==> Storable(x)) ==> Loaded(file) == allow
    {
      allow := allow - {id};
      var snapshot := Snapshot();
      if path != "" {
        LoadPersisted(snapshot);
        file := Persist(snapshot);
      }
    }
  }

  // ---------------------------------------------------------------- interleaved operations

  /** An operation is its locked section, then opening the file, which empties it, then writing at its start. */
  datatype Event =
    | Change(op: nat, add: bool, id: string, snapshot: seq<string>)
    | Open(op: nat)
    | Fill(op: nat)

  datatype State = State(allow: set<string>, file: string, unwritten: map<nat, seq<string>>, writing: set<nat>)

  ghost predicate Quiet(s: State) {
    s.unwritten == map[] && s.writing == {}
  }

  ghost predicate Enabled(s: State, e: Event) {
    match e
    case Change(op, add, id, snapshot) => op !in s.unwritten && Enumerates(snapshot, Changed(s.allow, add, id))
    case Open(op) => op in s.unwritten && op !in s.writing
    case Fill(op) => op in s.unwritten && op in s.writing
  }

  function Changed(allow: set<string>, add: bool, id: string): set<string> {
    if add then allow + {id} else allow - {id}
  }

  /** A write at the start leaves the tail of a longer file behind. */
  function Overlay(text: string, file: string): string {
    if |file| <= |text| then text else text + file[|text|..]
  }

  ghost function Apply(s: State, e: Event): State
    requires Enabled(s, e)
  {
    match e
    case Change(op, add, id, snapshot) =>
      s.(allow := Changed(s.allow, add, id), unwritten := s.unwritten[op := snapshot])
    case Open(op) => s.(file := "", writing := s.writing + {op})
    case Fill(op) =>
      s.(file := Overlay(Persisted(s.unwritten[op]), s.file),
         unwritten := s.unwritten - {op},
         writing := s.writing - {op})
  }

  ghost predicate Valid(s0: State, log: seq<Event>)
    decreases |log|, 0
  {
    log == [] || (Valid(s0, Front(log)) && Enabled(After(s0, Front(log)), Last(log)))
  }

  ghost function After(s0: State, log: seq<Event>): State
    requires Valid(s0, log)
    decreases |log|, 1
  {
    if log == [] then s0 else Apply(After(s0, Front(log)), Last(log))
  }

  /** No file is opened while another operation has it open. */
  ghost predicate Alone(s0: State, log: seq<Event>)
    requires Valid(s0, log)
  {
    log == [] || (Alone(s0, Front(log)) && (Last(log).Open? ==> After(s0, Front(log)).writing == {}))
  }

  /** Then at most one operation has it open, and sees it empty. */
  lemma {:induction false} AloneFileIsEmpty(s0: State, log: seq<Event>)
    requires Quiet(s0) && Valid(s0, log) && Alone(s0, log)
    ensures After(s0, log).writing != {} ==> After(s0, log).file == ""
    ensures forall a, b :: a in After(s0, log).writing && b in After(s0, log).writing ==> a == b
  {
    if log != [] {
      AloneFileIsEmpty(s0, Front(log));
    }
  }

  /** The memory held exactly the ids of `snapshot` right after step `i`. */
  ghost predicate HeldAt(s0: State, log: seq<Event>, snapshot: seq<string>, i: nat) {
    i <= |log| && Valid(s0, log[..i]) && Enumerates(snapshot, After(s0, log[..i]).allow)
  }

  /** Step `c` is the change whose snapshot step `w` writes. */
  ghost predicate Writes(log: seq<Event>, c: nat, w: nat) {
    && c < w < |log| && log[c].Change? && log[w] == Fill(log[c].op)
    && forall k :: c < k < w ==> !(log[k].Change? && log[k].op == log[c].op)
  }

  /** A snapshot waits unchanged from its change on. */
  lemma {:induction false} SnapshotWaits(s0: State, log: seq<Event>, op: nat) returns (c: nat)
    requires Quiet(s0) && Valid(s0, log) && op in After(s0, log).unwritten
    ensures c < |log| && log[c].Change? && log[c].op == op && log[c].snapshot == After(s0, log).unwritten[op]
    ensures forall k :: c < k < |log| ==> !(log[k].Change? && log[k].op == op)
    ensures HeldAt(s0, log, log[c].snapshot, c + 1)
  {
    var p, e := Front(log), Last(log);
    if e.Change? && e.op == op {
      c := |log| - 1;
      assert log[..c + 1] == log;
    } else {
      c := SnapshotWaits(s0, p, op);
      assert p[..c + 1] == log[..c + 1];
      assert forall k :: c < k < |p| ==> log[k] == p[k];
    }
  }

  ghost predicate LastFill(log: seq<Event>, w: nat) {
    w < |log| && log[w].Fill? && forall k :: w < k < |log| ==> !log[k].Fill?
  }

  /** With the file open in one operation at a time, it holds the snapshot of the change that was written last. */
  lemma {:induction false} FileIsAPastMemory(s0: State, log: seq<Event>, w: nat) returns (c: nat)
    requires Quiet(s0) && Valid(s0, log) && Alone(s0, log) && After(s0, log).writing == {} && LastFill(log, w)
    ensures Writes(log, c, w) && HeldAt(s0, log, log[c].snapshot, c + 1)
    ensures After(s0, log).file == Persisted(log[c].snapshot)
  {
    var p, e := Front(log), Last(log);
    if w == |log| - 1 {
      c := SnapshotWaits(s0, p, e.op);
      AloneFileIsEmpty(s0, p);
      assert forall k :: c < k < |p| ==> log[k] == p[k];
    } else {
      assert LastFill(p, w);
      c := FileIsAPastMemory(s0, p, w);
      assert forall k :: 0 <= k <= w ==> log[k] == p[k];
    }
    assert Front(log)[..c + 1] == log[..c + 1];
  }

  lemma OneChangeIsWritten(log: seq<Event>, c: nat, d: nat, w: nat)
    requires Writes(log, c, w) && Writes(log, d, w)
    ensures c == d
  {
  }

  lemma SomeLastFill(log: seq<Event>, k: nat) returns (w: nat)
    requires k < |log| && log[k].Fill?
    ensures LastFill(log, w)
    decreases |log| - k
  {
    if j :| k < j < |log| && log[j].Fill? {
      w := SomeLastFill(log, j);
    } else {
      w := k;
    }
  }

  lemma LoadedSnapshot(snapshot: seq<string>, held: set<string>)
    requires Enumerates(snapshot, held) && forall id :: id in held ==> Storable(id)
    ensures Loaded(Persisted(snapshot)) == held
  {
    LoadPersisted(snapshot);
    assert forall k :: 0 <= k < |snapshot| ==> snapshot[k] in held;
    assert (set id | id in snapshot) == held;
  }

  /**
   Once some write is complete and none is half-way, loading the file restores the set memory held right after
   an earlier change, when its ids are storable.
   */
  lemma LoadingRestoresAPastMemory(s0: State, log: seq<Event>, k: nat) returns (i: nat)
    requires Quiet(s0) && Valid(s0, log) && Alone(s0, log) && After(s0, log).writing == {}
    requires k < |log| && log[k].Fill?
    ensures 0 < i <= |log| && log[i - 1].Change? && Valid(s0, log[..i])
    ensures var held := After(s0, log[..i]).allow;
            (forall id :: id in held ==> Storable(id)) ==> Loaded(After(s0, log).file) == held
  {
    var w := SomeLastFill(log, k);
    var c := FileIsAPastMemory(s0, log, w);
    i := c + 1;
    var held := After(s0, log[..i]).allow;
    if forall id :: id in held ==> Storable(id) {
      LoadedSnapshot(log[c].snapshot, held);
    }
  }

  /**
   The file is current exactly when the set is back at what it was after the change that was written last.
   `w` is the last write, `c` the change it writes.
   */
  lemma FileIsCurrentExactly(s0: State, log: seq<Event>, c: nat, w: nat)
    requires Quiet(s0) && Valid(s0, log) && Alone(s0, log) && After(s0, log).writing == {}
    requires LastFill(log, w) && Writes(log, c, w)
    requires forall i :: 0 <= i < |log[c].snapshot| ==> Storable(log[c].snapshot[i])
    ensures Valid(s0, log[..c + 1])
    ensures Loaded(After(s0, log).file) == After(s0, log).allow <==>
            After(s0, log[..c + 1]).allow == After(s0, log).allow
  {
    var d := FileIsAPastMemory(s0, log, w);
    OneChangeIsWritten(log, c, d, w);
    LoadedSnapshot(log[c].snapshot, After(s0, log[..c + 1]).allow);
  }

  lemma {:induction false} AllowStays(s0: State, log: seq<Event>, i: nat)
    requires Valid(s0, log) && i <= |log| && forall k :: i <= k < |log| ==> !log[k].Change?
    ensures Valid(s0, log[..i]) && After(s0, log[..i]).allow == After(s0, log).allow
  {
    if i == |log| {
      assert log[..i] == log;
    } else {
      AllowStays(s0, Front(log), i);
      assert Front(log)[..i] == log[..i];
    }
  }

  /** In particular, once the operation that changed the set last is also the one that wrote last. */
  lemma LastChangeWrittenLast(s0: State, log: seq<Event>, c: nat, w: nat)
    requires Quiet(s0) && Valid(s0, log) && Alone(s0, log) && After(s0, log).writing == {}
    requires LastFill(log, w) && Writes(log, c, w)
    requires forall i :: 0 <= i < |log[c].snapshot| ==> Storable(log[c].snapshot[i])
    requires forall k :: c < k < |log| ==> !log[k].Change?
    ensures Loaded(After(s0, log).file) == After(s0, log).allow
  {
    AllowStays(s0, log, c + 1);
    FileIsCurrentExactly(s0, log, c, w);
  }

  lemma Extend(s0: State, log: seq<Event>, e: Event)
    requires Valid(s0, log) && Enabled(After(s0, log), e)
    ensures Valid(s0, log + [e]) && After(s0, log + [e]) == Apply(After(s0, log), e)
    ensures Alone(s0, log) && (e.Open? ==> After(s0, log).writing == {}) ==> Alone(s0, log + [e])
  {
    assert Front(log + [e]) == log;
  }

  lemma Grow(s0: State, log: seq<Event>, e: Event) returns (longer: seq<Event>)
    requires Valid(s0, log) && Enabled(After(s0, log), e)
    ensures longer == log + [e] && Valid(s0, longer) && After(s0, longer) == Apply(After(s0, log), e)
    ensures Alone(s0, log) && (e.Open? ==> After(s0, log).writing == {}) ==> Alone(s0, longer)
  {
    Extend(s0, log, e);
    longer := log + [e];
  }

  const EMPTY := State({}, "", map[], {})

  lemma {:induction false} LettersAreStorable(s: string)
    requires 0 < |s| < LIMIT && forall i :: 0 <= i < |s| ==> 'a' <= s[i] <= 'z'
    ensures Bytes(s) == |s| && Storable(s)
  {
    if |s| > 1 {
      LettersAreStorable(s[1..]);
    }
    assert TrimLeft(s) == s && TrimRight(s) == s;
  }

  // ---------------------------------------------------------------- writes that overlap

  /** The length of what step `k` writes, 0 for any step but a write. */
  ghost function Written(s0: State, log: seq<Event>, k: nat): nat
    requires k < |log|
  {
    if Valid(s0, log[..k]) && log[k].Fill? && log[k].op in After(s0, log[..k]).unwritten
    then |Persisted(After(s0, log[..k]).unwritten[log[k].op])| else 0
  }

  ghost predicate LastOpen(log: seq<Event>, o: nat) {
    o < |log| && log[o].Open? && forall k :: o < k < |log| ==> !log[k].Open?
  }

  lemma WrittenInFront(s0: State, log: seq<Event>, k: nat)
    requires log != [] && k < |log| - 1
    ensures Written(s0, Front(log), k) == Written(s0, log, k)
  {
    assert Front(log)[..k] == log[..k];
  }

  /** The file is as long as the longest write since it was last emptied. */
  lemma {:induction false} LongestSinceOpen(s0: State, log: seq<Event>, o: nat)
    requires Valid(s0, log) && LastOpen(log, o)
    ensures forall k :: o < k < |log| ==> Written(s0, log, k) <= |After(s0, log).file|
    ensures After(s0, log).file == "" || exists k :: o < k < |log| && Written(s0, log, k) == |After(s0, log).file|
  {
    var p, e := Front(log), Last(log);
    if o < |log| - 1 {
      LongestSinceOpen(s0, p, o);
      forall k | o < k < |p|
        ensures Written(s0, log, k) == Written(s0, p, k)
      {
        WrittenInFront(s0, log, k);
      }
      assert log[..|p|] == p;
      assert Written(s0, log, |p|) <= |After(s0, log).file|;
      if After(s0, p).file == After(s0, log).file && After(s0, p).file != "" {
        var k :| o < k < |p| && Written(s0, p, k) == |After(s0, p).file|;
        assert Written(s0, log, k) == |After(s0, log).file|;
      }
    }
  }

  /** A write leaves exactly its snapshot behind iff no write since the file was last emptied was longer. */
  lemma CleanExactly(s0: State, log: seq<Event>, o: nat)
    requires Valid(s0, log) && LastOpen(log, o) && Last(log).Fill?
    ensures var text := Persisted(After(s0, Front(log)).unwritten[Last(log).op]);
            After(s0, log).file == text <==> forall k :: o < k < |log| ==> Written(s0, log, k) <= |text|
  {
    var p, e := Front(log), Last(log);
    var text := Persisted(After(s0, p).unwritten[e.op]);
    LongestSinceOpen(s0, log, o);
    LongestSinceOpen(s0, p, o);
    assert log[..|p|] == p;
    forall k | o < k < |p|
      ensures Written(s0, log, k) == Written(s0, p, k)
    {
      WrittenInFront(s0, log, k);
    }
  }

  lemma {:induction false} NeverAdded(s0: State, log: seq<Event>, id: string)
    requires Valid(s0, log) && id !in s0.allow && forall k :: 0 <= k < |log| && log[k].Change? ==> log[k].id != id
    ensures id !in After(s0, log).allow
  {
    if log != [] {
      var p := Front(log);
      assert forall k :: 0 <= k < |p| ==> log[k] == p[k];
      NeverAdded(s0, p, id);
    }
  }

  /** The two snapshots. */
  lemma Snapshots()
    ensures Enumerates(["xy"], Changed({}, true, "xy")) && Changed({}, true, "xy") == {"xy"}
    ensures Enumerates(["c", "xy"], Changed({"xy"}, true, "c")) && Changed({"xy"}, true, "c") == {"c", "xy"}
  {
    var two := ["c", "xy"];
    assert two[0] == "c" && two[1] == "xy" && |two[0]| != |two[1]|;
  }

  lemma Adds(log: seq<Event>, op: nat, id: string, snapshot: seq<string>) returns (longer: seq<Event>)
    requires Valid(EMPTY, log) && op !in After(EMPTY, log).unwritten
    requires Enumerates(snapshot, Changed(After(EMPTY, log).allow, true, id))
    ensures longer == log + [Change(op, true, id, snapshot)] && Valid(EMPTY, longer)
    ensures Alone(EMPTY, log) ==> Alone(EMPTY, longer)
    ensures var s := After(EMPTY, log);
            After(EMPTY, longer) ==
            s.(allow := Changed(s.allow, true, id), unwritten := s.unwritten[op := snapshot])
  {
    longer := Grow(EMPTY, log, Change(op, true, id, snapshot));
  }

  lemma Opens(log: seq<Event>, op: nat) returns (longer: seq<Event>)
    requires Valid(EMPTY, log) && op in After(EMPTY, log).unwritten && op !in After(EMPTY, log).writing
    ensures longer == log + [Open(op)] && Valid(EMPTY, longer)
    ensures After(EMPTY, longer) == After(EMPTY, log).(file := "", writing := After(EMPTY, log).writing + {op})
  {
    longer := Grow(EMPTY, log, Open(op));
  }

  lemma Letters()
    ensures Enumerates(["a"], Changed({}, true, "a")) && Changed({}, true, "a") == {"a"}
    ensures Enumerates(["a", "b"], Changed({"a"}, true, "b")) && Changed({"a"}, true, "b") == {"a", "b"}
    ensures Loaded(Persisted(["a"])) == {"a"}
  {
    var two := ["a", "b"];
    assert two[0] == "a" && two[1] == "b" && two[0][0] != two[1][0];
    LettersAreStorable("a");
    LoadedSnapshot(["a"], {"a"});
  }

  /** One whole write while nobody else has the file open. */
  lemma WritesAlone(log: seq<Event>, op: nat) returns (longer: seq<Event>)
    requires Valid(EMPTY, log) && Alone(EMPTY, log)
    requires op in After(EMPTY, log).unwritten && After(EMPTY, log).writing == {}
    ensures Valid(EMPTY, longer) && Alone(EMPTY, longer)
    ensures var s := After(EMPTY, log);
            After(EMPTY, longer) == s.(file := Persisted(s.unwritten[op]), unwritten := s.unwritten - {op})
  {
    longer := Grow(EMPTY, log, Open(op));
    longer := Grow(EMPTY, longer, Fill(op));
  }

  /** Even one after the other, two writes in the order opposite to the changes lose an id for good. */
  lemma WritesOvertake() returns (log: seq<Event>)
    ensures Valid(EMPTY, log) && Alone(EMPTY, log) && Quiet(After(EMPTY, log))
    ensures After(EMPTY, log).allow == {"a", "b"} && Loaded(After(EMPTY, log).file) == {"a"}
  {
    Letters();
    log := Adds([], 0, "a", ["a"]);
    log := Adds(log, 1, "b", ["a", "b"]);
    log := WritesAlone(log, 1);
    log := WritesAlone(log, 0);
  }

  lemma TwoOpen() returns (log: seq<Event>)
    ensures Valid(EMPTY, log) && |log| == 4
    ensures log[0] == Change(0, true, "xy", ["xy"]) && log[1] == Change(1, true, "c", ["c", "xy"])
    ensures log[2] == Open(0) && log[3] == Open(1)
    ensures After(EMPTY, log) == State({"c", "xy"}, "", map[0 := ["xy"], 1 := ["c", "xy"]], {0, 1})
  {
    Snapshots();
    log := Adds([], 0, "xy", ["xy"]);
    log := Adds(log, 1, "c", ["c", "xy"]);
    log := Opens(log, 0);
    log := Opens(log, 1);
  }

  /** Two overlapping writes leave a file that lists an id nobody ever added. */
  lemma WritesOverlap() returns (log: seq<Event>)
    ensures Valid(EMPTY, log) && Quiet(After(EMPTY, log)) && Loaded(After(EMPTY, log).file) == {"xy", "y"}
    ensures forall i: nat :: i <= |log| && Valid(EMPTY, log[..i]) ==> "y" !in After(EMPTY, log[..i]).allow
  {
    log := TwoOpen();
    log := Grow(EMPTY, log, Fill(1));
    log := Grow(EMPTY, log, Fill(0));
    forall i: nat | i <= |log| && Valid(EMPTY, log[..i])
      ensures "y" !in After(EMPTY, log[..i]).allow
    {
      NeverAdded(EMPTY, log[..i], "y");
    }
    OverlaidFile();
  }

  lemma OverlaidFile()
    ensures Overlay(Persisted(["xy"]), Overlay(Persisted(["c", "xy"]), "")) == Persisted(["xy", "y"])
    ensures Loaded(Persisted(["xy", "y"])) == {"xy", "y"}
  {
    assert ["c", "xy"][1..] == ["xy"] && ["xy"][1..] == [] && ["xy", "y"][1..] == ["y"] && ["y"][1..] == [];
    OverlaidIsLoaded(["xy", "y"]);
  }

  lemma OverlaidIsLoaded(ids: seq<string>)
    requires ids == ["xy", "y"]
    ensures Loaded(Persisted(ids)) == {"xy", "y"}
  {
    LettersAreStorable("xy");
    LettersAreStorable("y");
    LoadedSnapshot(ids, {"xy", "y"});
  }
}
