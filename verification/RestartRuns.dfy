/**
 The admin server together with the file its allow list comes back from (pkg/admin/server.go:236-279,
 pkg/admin/allow.go).

 Every section that changes the list takes a snapshot, which is written to the file some time later.  A restart
 loses the server's table and the writes still under way, and loads the list from the file as it is then.
 */
module RestartRuns {
  import opened Basics
  import opened Membership
  import M = MembershipRuns
  import A = AllowList

  /**
   The server, and list and file with the writes under way.  `base` is what they were at the last restart, `life`
   what has happened to them since, and `apart` says that no write was begun during another.
   */
  datatype State = State(admin: M.State, list: A.State, base: A.State, life: seq<A.Event>, apart: bool)

  datatype Action =
    | Section(e: M.Event)
    | ListSection(e: M.Event, op: nat, snapshot: seq<string>)
    | File(w: A.Event)
    | Restart

  /** What a section that changes the list does to it. */
  function ChangeOf(x: Action): A.Event
    requires x.ListSection? && (x.e.Authorize? || x.e.RemoveAcl?)
  {
    A.Change(x.op, x.e.Authorize?, x.e.id, x.snapshot)
  }

  ghost predicate Enabled(s: State, x: Action) {
    match x
    case Section(e) => !e.Authorize? && !e.RemoveAcl? && !e.Restart? && M.Enabled(s.admin, e)
    case ListSection(e, _, _) =>
      (e.Authorize? || e.RemoveAcl?) && M.Enabled(s.admin, e) && A.Enabled(s.list, ChangeOf(x))
    case File(w) => !w.Change? && A.Enabled(s.list, w)
    case Restart => true
  }

  ghost function Started(admin: M.State, file: string): State {
    var list := A.State(A.Loaded(file), file, map[], {});
    State(M.Apply(admin, M.Restart(list.allow)), list, list, [], true)
  }

  ghost function Noted(s: State, e: A.Event): State
    requires A.Enabled(s.list, e)
  {
    s.(list := A.Apply(s.list, e), life := s.life + [e], apart := s.apart && (e.Open? ==> s.list.writing == {}))
  }

  ghost function Apply(s: State, x: Action): State
    requires Enabled(s, x)
  {
    match x
    case Section(e) => s.(admin := M.Apply(s.admin, e))
    case ListSection(e, _, _) => Noted(s, ChangeOf(x)).(admin := M.Apply(s.admin, e))
    case File(w) => Noted(s, w)
    case Restart => Started(s.admin, s.list.file)
  }

  ghost predicate Valid(file: string, run: seq<Action>)
    decreases |run|, 0
  {
    run == [] || (Valid(file, Front(run)) && Enabled(After(file, Front(run)), Last(run)))
  }

  /** From a start with any file on. */
  ghost function After(file: string, run: seq<Action>): State
    requires Valid(file, run)
    decreases |run|, 1
  {
    if run == [] then Started(M.START, file) else Apply(After(file, Front(run)), Last(run))
  }

  // ---------------------------------------------------------------- what every step keeps

  /** The list in memory is the server's, and came about as `life` says. */
  ghost predicate Ok(s: State) {
    && A.Quiet(s.base) && s.base.allow == A.Loaded(s.base.file)
    && A.Valid(s.base, s.life) && A.After(s.base, s.life) == s.list && s.list.allow == s.admin.server.acl
    && (s.apart ==> A.Alone(s.base, s.life))
  }

  lemma NotedOk(s: State, e: A.Event)
    requires Ok(s) && A.Enabled(s.list, e)
    ensures var s' := Noted(s, e);
            && A.Valid(s'.base, s'.life) && A.After(s'.base, s'.life) == s'.list
            && (s'.apart ==> A.Alone(s'.base, s'.life))
  {
    A.Extend(s.base, s.life, e);
  }

  lemma StartedOk(admin: M.State, file: string)
    ensures Ok(Started(admin, file))
  {
  }

  /** A section changes the server's list as its snapshot says, or not at all. */
  lemma AclStep(s: State, x: Action)
    requires Enabled(s, x) && s.list.allow == s.admin.server.acl
    ensures Apply(s, x).list.allow == Apply(s, x).admin.server.acl
  {
    match x
    case Section(e) =>
      OtherSections(s.admin, e);
    case ListSection(e, _, _) =>
      ListSections(s.admin, e);
      NotedAllow(s, ChangeOf(x));
    case File(w) =>
      NotedAllow(s, w);
    case Restart =>
  }

  lemma NotedAllow(s: State, e: A.Event)
    requires A.Enabled(s.list, e)
    ensures Noted(s, e).list.allow == if e.Change? then A.Changed(s.list.allow, e.add, e.id) else s.list.allow
    ensures Noted(s, e).admin == s.admin
  {
  }

  lemma ListSections(admin: M.State, e: M.Event)
    requires e.Authorize? || e.RemoveAcl?
    ensures M.Apply(admin, e).server.acl == A.Changed(admin.server.acl, e.Authorize?, e.id)
  {
  }

  lemma OtherSections(admin: M.State, e: M.Event)
    requires !e.Authorize? && !e.RemoveAcl? && !e.Restart?
    ensures M.Apply(admin, e).server.acl == admin.server.acl
  {
  }

  lemma OkStep(s: State, x: Action)
    requires Ok(s) && Enabled(s, x)
    ensures Ok(Apply(s, x))
  {
    AclStep(s, x);
    match x
    case Section(_) =>
    case ListSection(_, _, _) =>
      NotedOk(s, ChangeOf(x));
    case File(w) =>
      NotedOk(s, w);
    case Restart =>
      StartedOk(s.admin, s.list.file);
  }

  lemma {:induction false} AlwaysOk(file: string, run: seq<Action>)
    requires Valid(file, run)
    ensures Ok(After(file, run))
  {
    if run == [] {
      StartedOk(M.START, file);
    } else {
      AlwaysOk(file, Front(run));
      OkStep(After(file, Front(run)), Last(run));
    }
  }

  // ---------------------------------------------------------------- the server's history inside

  /** The section of the server that a step is, if it is one. */
  function EventOf(s: State, x: Action): Option<M.Event> {
    match x
    case Section(e) => Some(e)
    case ListSection(e, _, _) => Some(e)
    case File(_) => None
    case Restart => Some(M.Restart(A.Loaded(s.list.file)))
  }

  ghost function ServerLog(file: string, run: seq<Action>): seq<M.Event>
    requires Valid(file, run)
  {
    if run == [] then [M.Restart(A.Loaded(file))]
    else
      match EventOf(After(file, Front(run)), Last(run))
      case Some(e) => ServerLog(file, Front(run)) + [e]
      case None => ServerLog(file, Front(run))
  }

  lemma EventStep(s: State, x: Action)
    requires Enabled(s, x)
    ensures match EventOf(s, x)
            case Some(e) => M.Enabled(s.admin, e) && Apply(s, x).admin == M.Apply(s.admin, e)
            case None => Apply(s, x).admin == s.admin
  {
  }

  /** Leaving out the file gives a run of the server's sections, whose restarts load what the file lists. */
  lemma {:induction false} ServerLogIsARun(file: string, run: seq<Action>)
    requires Valid(file, run)
    ensures M.Valid(ServerLog(file, run)) && M.After(ServerLog(file, run)) == After(file, run).admin
  {
    if run == [] {
      var log := M.Grow([], M.Restart(A.Loaded(file)));
    } else {
      var s, x := After(file, Front(run)), Last(run);
      ServerLogIsARun(file, Front(run));
      EventStep(s, x);
      if EventOf(s, x).Some? {
        var longer := M.Grow(ServerLog(file, Front(run)), EventOf(s, x).value);
      }
    }
  }

  // ---------------------------------------------------------------- what a restart brings back

  lemma LifeStep(s: State, x: Action)
    requires Enabled(s, x) && Apply(s, x).life != []
    ensures Apply(s, x).base == s.base && s.life <= Apply(s, x).life && |Apply(s, x).life| <= |s.life| + 1
  {
  }

  /** Every moment of the list's life since the last restart is a moment of the run. */
  lemma {:induction false} MomentOf(file: string, run: seq<Action>, n: nat) returns (i: nat)
    requires Valid(file, run) && n <= |After(file, run).life|
    ensures i <= |run| && Valid(file, run[..i])
    ensures After(file, run[..i]).base == After(file, run).base
    ensures After(file, run[..i]).life == After(file, run).life[..n]
  {
    var s := After(file, run);
    if n == |s.life| {
      i := |run|;
      assert run[..i] == run && s.life[..n] == s.life;
    } else {
      var p := Front(run);
      LifeStep(After(file, p), Last(run));
      assert s.life[..n] == After(file, p).life[..n];
      i := MomentOf(file, p, n);
      assert p[..i] == run[..i];
    }
  }

  /** Without a complete write the file stays until it is opened. */
  lemma {:induction false} FileStays(s0: A.State, log: seq<A.Event>)
    requires A.Quiet(s0) && A.Valid(s0, log) && forall k :: 0 <= k < |log| ==> !log[k].Fill?
    ensures A.After(s0, log).writing == {} ==> A.After(s0, log).file == s0.file
  {
    if log != [] {
      FileStays(s0, Front(log));
    }
  }

  /** The moment a restart would bring back: right after the change that was written last, or else the last start. */
  ghost predicate LastWritten(s: State, was: State) {
    && was.base == s.base
    && (|| (exists c: nat, w: nat ::
              A.LastFill(s.life, w) && A.Writes(s.life, c, w) && was.life == s.life[..c + 1])
        || ((forall k :: 0 <= k < |s.life| ==> !s.life[k].Fill?) && was.life == []))
  }

  lemma SomethingWritten(file: string, run: seq<Action>, k: nat) returns (i: nat)
    requires Valid(file, run) && After(file, run).apart && After(file, run).list.writing == {}
    requires k < |After(file, run).life| && After(file, run).life[k].Fill?
    ensures i <= |run| && Valid(file, run[..i]) && LastWritten(After(file, run), After(file, run[..i]))
    ensures var held := After(file, run[..i]).admin.server.acl;
            (forall id :: id in held ==> A.Storable(id)) ==> A.Loaded(After(file, run).list.file) == held
  {
    var s := After(file, run);
    AlwaysOk(file, run);
    var w := A.SomeLastFill(s.life, k);
    var c := A.FileIsAPastMemory(s.base, s.life, w);
    i := MomentOf(file, run, c + 1);
    AlwaysOk(file, run[..i]);
    assert A.LastFill(s.life, w) && A.Writes(s.life, c, w);
    LoadsTheMoment(s, After(file, run[..i]), c);
  }

  lemma LoadsTheMoment(s: State, was: State, c: nat)
    requires Ok(was) && c < |s.life| && s.life[c].Change? && was.base == s.base && was.life == s.life[..c + 1]
    requires A.HeldAt(s.base, s.life, s.life[c].snapshot, c + 1) && s.list.file == A.Persisted(s.life[c].snapshot)
    ensures var held := was.admin.server.acl;
            (forall id :: id in held ==> A.Storable(id)) ==> A.Loaded(s.list.file) == held
  {
    var held := was.admin.server.acl;
    if forall id :: id in held ==> A.Storable(id) {
      A.LoadedSnapshot(s.life[c].snapshot, held);
    }
  }

  lemma NothingWritten(file: string, run: seq<Action>) returns (i: nat)
    requires Valid(file, run) && After(file, run).list.writing == {}
    requires forall k :: 0 <= k < |After(file, run).life| ==> !After(file, run).life[k].Fill?
    ensures i <= |run| && Valid(file, run[..i]) && LastWritten(After(file, run), After(file, run[..i]))
    ensures A.Loaded(After(file, run).list.file) == After(file, run[..i]).admin.server.acl
  {
    var s := After(file, run);
    AlwaysOk(file, run);
    FileStays(s.base, s.life);
    i := MomentOf(file, run, 0);
    AlwaysOk(file, run[..i]);
  }

  lemma HalfWritten(file: string, run: seq<Action>)
    requires Valid(file, run) && After(file, run).apart && After(file, run).list.writing != {}
    ensures A.Loaded(After(file, run).list.file) == {}
  {
    var s := After(file, run);
    AlwaysOk(file, run);
    A.AloneFileIsEmpty(s.base, s.life);
    assert A.Lines("") == [];
  }

  /**
   What a restart makes of the allow list, in every run whose writes do not overlap: with a write half-way nothing
   is left of it; otherwise it is the list the server held right after the change that was written last, or at the
   last start if none was.  Whoever was removed since then is admitted again, and whoever was added since is not.
   */
  lemma RestartBringsBack(file: string, run: seq<Action>) returns (i: nat)
    requires Valid(file, run) && After(file, run).apart
    ensures Valid(file, run + [Restart])
    ensures var s, acl := After(file, run), After(file, run + [Restart]).admin.server.acl;
            if s.list.writing != {} then acl == {}
            else
              && i <= |run| && Valid(file, run[..i]) && LastWritten(s, After(file, run[..i]))
              && var held := After(file, run[..i]).admin.server.acl;
              (forall id :: id in held ==> A.Storable(id)) ==> acl == held
  {
    var s := After(file, run);
    assert Front(run + [Restart]) == run;
    i := 0;
    if s.list.writing != {} {
      HalfWritten(file, run);
    } else if k: nat :| k < |s.life| && s.life[k].Fill? {
      i := SomethingWritten(file, run, k);
    } else {
      i := NothingWritten(file, run);
    }
  }

  // ---------------------------------------------------------------- admitted again

  lemma Grow(file: string, run: seq<Action>, x: Action) returns (longer: seq<Action>)
    requires Valid(file, run) && Enabled(After(file, run), x)
    ensures longer == run + [x] && Valid(file, longer) && After(file, longer) == Apply(After(file, run), x)
  {
    longer := run + [x];
    assert Front(longer) == run;
  }

  lemma Write(file: string, run: seq<Action>, op: nat) returns (longer: seq<Action>)
    requires Valid(file, run) && After(file, run).apart
    requires After(file, run).list.writing == {} && op in After(file, run).list.unwritten
    ensures Valid(file, longer) && After(file, longer).apart && After(file, longer).admin == After(file, run).admin
    ensures var l := After(file, run).list;
            After(file, longer).list == l.(file := A.Persisted(l.unwritten[op]), unwritten := l.unwritten - {op})
  {
    longer := Grow(file, run, File(A.Open(op)));
    longer := Grow(file, longer, File(A.Fill(op)));
  }

  /** A server with an empty table, `acl` on its list and `unwritten` under way. */
  ghost predicate Stands(s: State, acl: set<string>, ops: set<nat>, unwritten: map<nat, seq<string>>) {
    && s.apart && s.admin == M.START.(server := EMPTY.(acl := acl), ops := ops)
    && s.list.allow == acl && s.list.unwritten == unwritten && s.list.writing == {}
  }

  lemma Adds(file: string, run: seq<Action>, acl: set<string>, unwritten: map<nat, seq<string>>,
             id: string, op: nat, snapshot: seq<string>) returns (longer: seq<Action>)
    requires Valid(file, run) && Stands(After(file, run), acl, {}, unwritten)
    requires id != "" && op !in unwritten && A.Enumerates(snapshot, acl + {id})
    ensures Valid(file, longer) && Stands(After(file, longer), acl + {id}, {}, unwritten[op := snapshot])
  {
    longer := Grow(file, run, ListSection(M.Authorize(id), op, snapshot));
  }

  lemma Removes(file: string, run: seq<Action>, acl: set<string>, unwritten: map<nat, seq<string>>,
                id: string, op: nat, snapshot: seq<string>) returns (longer: seq<Action>)
    requires Valid(file, run) && Stands(After(file, run), acl, {}, unwritten)
    requires id != "" && op !in unwritten && A.Enumerates(snapshot, acl - {id})
    ensures Valid(file, longer) && Stands(After(file, longer), acl - {id}, {0}, unwritten[op := snapshot])
  {
    longer := Evicts(file, run, acl, id);
    longer := Grow(file, longer, ListSection(M.RemoveAcl(0, id), op, snapshot));
  }

  lemma Evicts(file: string, run: seq<Action>, acl: set<string>, id: string) returns (longer: seq<Action>)
    requires Valid(file, run) && After(file, run).admin == M.START.(server := EMPTY.(acl := acl)) && id != ""
    ensures Valid(file, longer)
    ensures After(file, longer) == After(file, run).(admin := After(file, longer).admin)
    ensures After(file, longer).admin == M.START.(server := EMPTY.(acl := acl), evicting := map[0 := id], ops := {0})
  {
    longer := Grow(file, run, Section(M.EvictNode(0, id, 1)));
  }

  /** An allowed node enters the table in two sections. */
  lemma Enters(file: string, run: seq<Action>, acl: set<string>, id: string) returns (longer: seq<Action>)
    requires Valid(file, run) && Stands(After(file, run), acl, {0}, map[]) && id in acl && id != ""
    ensures longer == run + [Section(M.CheckAcl(1, id, "N"))] + [Section(M.InsertNode(1, id, "N", "t", 2))]
    ensures Valid(file, longer) && id in After(file, longer).admin.server.nodes
  {
    longer := Grow(file, run, Section(M.CheckAcl(1, id, "N")));
    longer := Grow(file, longer, Section(M.InsertNode(1, id, "N", "t", 2)));
  }

  /** `y` is added while `x` is allowed, then `x` is removed; the removal is written before the addition of `y`. */
  lemma RemovedOvertaken(file: string, x: string, y: string, one: seq<string>, both: seq<string>, rest: seq<string>)
    returns (run: seq<Action>)
    requires A.Loaded(file) == {} && x != "" && y != "" && x != y
    requires A.Enumerates(one, {x}) && A.Enumerates(both, {x, y}) && A.Enumerates(rest, {y})
    ensures Valid(file, run) && Stands(After(file, run), {y}, {0}, map[])
    ensures After(file, run).list.file == A.Persisted(both)
  {
    assert {} + {x} == {x} && {x} + {y} == {x, y} && {x, y} - {x} == {y};
    run := [];
    run := Adds(file, run, {}, map[], x, 0, one);
    run := Write(file, run, 0);
    run := Adds(file, run, {x}, map[], y, 1, both);
    run := Removes(file, run, {x, y}, map[1 := both], x, 2, rest);
    run := Write(file, run, 2);
    run := Write(file, run, 1);
  }

  lemma Pairs(x: string, y: string)
    requires x != y
    ensures A.Enumerates([x], {x}) && A.Enumerates([y], {y}) && A.Enumerates([x, y], {x, y})
    ensures A.Storable(x) && A.Storable(y) ==> A.Loaded(A.Persisted([x, y])) == {x, y}
  {
    if A.Storable(x) && A.Storable(y) {
      A.LoadedSnapshot([x, y], {x, y});
    }
  }

  lemma ComesBack(file: string, run: seq<Action>, acl: set<string>, loaded: set<string>) returns (longer: seq<Action>)
    requires Valid(file, run) && Stands(After(file, run), acl, {0}, map[])
    requires A.Loaded(After(file, run).list.file) == loaded
    ensures longer == run + [Restart] && Valid(file, longer) && Stands(After(file, longer), loaded, {0}, map[])
  {
    longer := Grow(file, run, Restart);
  }

  /**
   With every write complete and none overlapping, a removed node comes back with the restart and registers, without
   anybody having allowed it again.
   */
  lemma RemovedIsAdmittedAgain(file: string, x: string, y: string) returns (early: seq<Action>, run: seq<Action>)
    requires A.Loaded(file) == {} && A.Storable(x) && A.Storable(y) && x != y
    ensures Valid(file, early) && Valid(file, run) && early + [Restart] <= run
    ensures After(file, early).apart && A.Quiet(After(file, early).list)
    ensures x !in After(file, early).admin.server.acl && x in After(file, run).admin.server.nodes
    ensures forall k :: |early| < k < |run| ==> !run[k].ListSection?
  {
    Pairs(x, y);
    early := RemovedOvertaken(file, x, y, [x], [x, y], [y]);
    run := ComesBack(file, early, {y}, {x, y});
    run := Enters(file, run, {x, y}, x);
  }
}
