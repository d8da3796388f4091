/** Runs of the GraphStore protocol: recovery when nothing disturbs a process, and where the promises end. */
module GraphRuns {
  import opened Wrappers
  import opened GraphStore
  import opened GraphDated

  /******* Runs that show where the promises end *******/

  ghost predicate Reachable(w: World) {
    exists ws :: Run(ws) && ws[|ws| - 1] == w
  }

  lemma Then(w: World, s: Step) returns (w': World)
    requires Reachable(w) && Apply(w, s).Some?
    ensures Reachable(w') && w' == Apply(w, s).value
  {
    var ws :| Run(ws) && ws[|ws| - 1] == w;
    w' := Apply(w, s).value;
    var ws' := ws + [w'];
    assert StepTo(w, s, w');
    forall k | 0 < k < |ws'| ensures NextAt(ws', k) {
      assert k < |ws| ==> NextAt(ws, k);
    }
    assert Run(ws') && ws'[|ws'| - 1] == w';
  }

  /** The world in which process q is in state p over disk d and the others are as in `procs`. */
  function At(procs: map<Life, Proc>, d: Disk, q: Life, p: Proc): World {
    World(d, procs[q := p])
  }

  lemma ThenWrite(procs: map<Life, Proc>, d: Disk, q: Life, p: Proc, e: WriteEvent, d': Disk, p': Proc)
    requires Reachable(At(procs, d, q, p)) && WriteAct(d, p, q, e) == Some(Outcome(d', p'))
    ensures Reachable(At(procs, d', q, p'))
  {
    var w' := Then(At(procs, d, q, p), Local(q, Write(e)));
    assert w'.procs == procs[q := p'];
  }

  lemma ThenGet(procs: map<Life, Proc>, d: Disk, q: Life, p: Proc, e: GetEvent, p': Proc)
    requires Reachable(At(procs, d, q, p)) && GetAct(d, p, e) == Some(Outcome(d, p'))
    ensures Reachable(At(procs, d, q, p'))
  {
    var w' := Then(At(procs, d, q, p), Local(q, Get(e)));
    assert w'.procs == procs[q := p'];
  }

  lemma ThenLoad(procs: map<Life, Proc>, d: Disk, q: Life, p: Proc, e: LoadEvent, d': Disk, p': Proc)
    requires Reachable(At(procs, d, q, p)) && LoadAct(d, p, e) == Some(Outcome(d', p'))
    ensures Reachable(At(procs, d', q, p'))
  {
    var w' := Then(At(procs, d, q, p), Local(q, Load(e)));
    assert w'.procs == procs[q := p'];
  }

  /** Undisturbed, a get that finds no store compares the stamp with what it sees. */
  lemma GetToCompare(procs: map<Life, Proc>, d: Disk, q: Life, p: Proc) returns (p': Proc)
    requires Reachable(At(procs, d, q, p)) && p.hold.Entered? && d.main <= |d.log|
    ensures Reachable(At(procs, d, q, p'))
    ensures p' == Proc(p.cache, if SnapshotIsFresh(d, p.cache) then Hold.Accepted(p.cache.generation, d.mtime)
                                else Rejected(p.cache.generation, d.mtime), p.tasks, p.unsettled)
  {
    var c, ts, u, g, m := p.cache, p.tasks, p.unsettled, p.cache.generation, d.mtime;
    var seen := if d.snapshot.Some? then d.stamp else None;
    ThenGet(procs, d, q, p, PassiveCheckpoint(d.main, m), Proc(c, Flushed, ts, u));
    ThenGet(procs, d, q, Proc(c, Flushed, ts, u), ReadToken, Proc(c, Tokened(g), ts, u));
    ThenGet(procs, d, q, Proc(c, Tokened(g), ts, u), ReadMtime, Proc(c, Statted(g, m), ts, u));
    ThenGet(procs, d, q, Proc(c, Statted(g, m), ts, u), ReadStamp, Proc(c, StampSeen(g, m, seen), ts, u));
    p' := Proc(c, if SnapshotIsFresh(d, c) then Hold.Accepted(g, m) else Rejected(g, m), ts, u);
    ThenGet(procs, d, q, Proc(c, StampSeen(g, m, seen), ts, u), Compare, p');
  }

  /** A get that has no snapshot to serve installs the symbols of the current version and forks a load. */
  lemma SymbolsAreInstalled(procs: map<Life, Proc>, d: Disk, q: Life, p: Proc) returns (p': Proc)
    requires Reachable(At(procs, d, q, p)) && p.hold.Rejected?
    ensures Reachable(At(procs, d, q, p'))
    ensures p' == Proc(InstallSymbols(p.cache, |d.log|), Free,
                       p.tasks + [Task(p.hold.token, p.hold.mtime, |d.log|, None, Forked)], p.unsettled)
  {
    var g, m, v := p.hold.token, p.hold.mtime, |d.log|;
    ThenGet(procs, d, q, p, ReadSymbols, p.(hold := SymbolsSeen(g, m, v)));
    p' := Proc(InstallSymbols(p.cache, v), Free, p.tasks + [Task(g, m, v, None, Forked)], p.unsettled);
    ThenGet(procs, d, q, p.(hold := SymbolsSeen(g, m, v)), Install, p');
  }

  /** Undisturbed, a get with no usable store or snapshot reads the symbols of the current version and forks a load. */
  lemma ColdGet(procs: map<Life, Proc>, d: Disk, q: Life, p: Proc) returns (p': Proc)
    requires Reachable(At(procs, d, q, p)) && d.main <= |d.log|
    requires p.hold.Free? && (p.cache.dirty || p.cache.store.None?) && !SnapshotIsFresh(d, p.cache)
    ensures Reachable(At(procs, d, q, p'))
    ensures p' == Proc(Cache(Some(SymbolsOnly(|d.log|)), false, p.cache.generation, true), Free,
                       p.tasks + [Task(p.cache.generation, d.mtime, |d.log|, None, Forked)], p.unsettled)
  {
    var c, ts, u := DropDirty(p.cache), p.tasks, p.unsettled;
    ThenGet(procs, d, q, p, Enter, Proc(c, Entered, ts, u));
    p' := GetToCompare(procs, d, q, Proc(c, Entered, ts, u));
    p' := SymbolsAreInstalled(procs, d, q, p');
  }

  /** Undisturbed, a get that finds a fresh snapshot serves it as it is. */
  lemma WarmGet(procs: map<Life, Proc>, d: Disk, q: Life, p: Proc) returns (p': Proc)
    requires Reachable(At(procs, d, q, p)) && d.main <= |d.log|
    requires p.hold.Free? && (p.cache.dirty || p.cache.store.None?) && SnapshotIsFresh(d, p.cache)
    ensures Reachable(At(procs, d, q, p'))
    ensures p' == p.(cache := Cache(Some(Full(d.snapshot.value)), false, p.cache.generation, false))
  {
    var c, ts, u := DropDirty(p.cache), p.tasks, p.unsettled;
    ThenGet(procs, d, q, p, Enter, Proc(c, Entered, ts, u));
    p' := GetToCompare(procs, d, q, Proc(c, Entered, ts, u));
    ThenGet(procs, d, q, p', LoadSnapshot, Proc(InstallFull(c, d.snapshot.value), Free, ts, u));
    p' := Proc(InstallFull(c, d.snapshot.value), Free, ts, u);
  }

  /** Undisturbed, a get whose fresh snapshot cannot be read falls back on the symbols, like a cold one. */
  lemma UnreadableGet(procs: map<Life, Proc>, d: Disk, q: Life, p: Proc) returns (p': Proc)
    requires Reachable(At(procs, d, q, p)) && d.main <= |d.log|
    requires p.hold.Free? && (p.cache.dirty || p.cache.store.None?) && SnapshotIsFresh(d, p.cache)
    ensures Reachable(At(procs, d, q, p'))
    ensures p' == Proc(Cache(Some(SymbolsOnly(|d.log|)), false, p.cache.generation, true), Free,
                       p.tasks + [Task(p.cache.generation, d.mtime, |d.log|, None, Forked)], p.unsettled)
  {
    var c, ts, u, g, m := DropDirty(p.cache), p.tasks, p.unsettled, p.cache.generation, d.mtime;
    ThenGet(procs, d, q, p, Enter, Proc(c, Entered, ts, u));
    p' := GetToCompare(procs, d, q, Proc(c, Entered, ts, u));
    ThenGet(procs, d, q, p', SnapshotUnreadable, Proc(c, Rejected(g, m), ts, u));
    p' := SymbolsAreInstalled(procs, d, q, Proc(c, Rejected(g, m), ts, u));
  }

  /** A load that nothing disturbs from now on: what it will have read, and the state in which it enters the window. */
  function Undisturbed(d: Disk, t: Task): Task {
    t.(calls := Some(|d.log|), stage := Dumped)
  }

  /** Undisturbed, a load publishes both halves at the versions it reads and enters the window, whatever other loads there were. */
  lemma LoadIntoWindow(procs: map<Life, Proc>, d: Disk, q: Life, p: Proc, i: nat) returns (p': Proc)
    requires Reachable(At(procs, d, q, p)) && p.hold.Free?
    requires i < |p.tasks| && p.tasks[i].stage.Forked? && StillCurrent(p.cache, p.tasks[i], d.mtime)
    ensures Reachable(At(procs, d, q, p'))
    ensures var t := Undisturbed(d, p.tasks[i]);
            p' == Proc(InstallFull(p.cache, Loaded(t)), Replacing(i), p.tasks[i := t], p.unsettled)
  {
    var t := p.tasks[i].(calls := Some(|d.log|), stage := CallsRead);
    var p1 := p.(tasks := p.tasks[i := t]);
    var p2 := Proc(InstallFull(p.cache, Loaded(t)), Free, p.tasks[i := t.(stage := Published)], p.unsettled);
    ThenLoad(procs, d, q, p, LoadCalls(i), d, p1);
    ThenLoad(procs, d, q, p1, PublishCheck(i), d, p1.(hold := Publishing(i)));
    assert p1.tasks[i := t.(stage := Published)] == p2.tasks;
    ThenLoad(procs, d, q, p1.(hold := Publishing(i)), PublishSet, d, p2);
    p' := DumpIntoWindow(procs, d, q, p2, i);
    assert p2.tasks[i := t.(stage := Dumped)] == p.tasks[i := t.(stage := Dumped)];
  }

  lemma DumpIntoWindow(procs: map<Life, Proc>, d: Disk, q: Life, p: Proc, i: nat) returns (p': Proc)
    requires Reachable(At(procs, d, q, p)) && p.hold.Free?
    requires i < |p.tasks| && p.tasks[i].stage.Published? && StillCurrent(p.cache, p.tasks[i], d.mtime)
    ensures Reachable(At(procs, d, q, p'))
    ensures p' == p.(hold := Replacing(i), tasks := p.tasks[i := p.tasks[i].(stage := Dumped)])
  {
    var p1 := p.(tasks := p.tasks[i := p.tasks[i].(stage := Dumped)]);
    ThenLoad(procs, d, q, p, Dump(i), d, p1);
    p' := p1.(hold := Replacing(i));
    ThenLoad(procs, d, q, p1, WindowCheck(i), d, p');
  }

  /** A get that fails at any point keeps nothing, and the next one starts over. */
  lemma GetFails(procs: map<Life, Proc>, d: Disk, q: Life, p: Proc) returns (p': Proc)
    requires Reachable(At(procs, d, q, p)) && InGet(p.hold)
    ensures Reachable(At(procs, d, q, p'))
    ensures p' == Proc(Cache(None, p.cache.dirty, p.cache.generation, false), Free, p.tasks, p.unsettled)
    ensures GetAct(d, p', Enter) == Some(Outcome(d, p'.(hold := Entered, cache := p'.cache.(dirty := false))))
  {
    p' := Proc(GetFailed(p.cache), Free, p.tasks, p.unsettled);
    ThenGet(procs, d, q, p, Fail, p');
  }

  /** A load that is no longer current when it wants to enter the window is over; cache and disk stay as they are. */
  lemma WindowIsMissed(procs: map<Life, Proc>, d: Disk, q: Life, p: Proc, i: nat) returns (p': Proc)
    requires Reachable(At(procs, d, q, p)) && p.hold.Free?
    requires i < |p.tasks| && p.tasks[i].stage.Dumped? && !StillCurrent(p.cache, p.tasks[i], d.mtime)
    ensures Reachable(At(procs, d, q, p'))
    ensures p' == p.(tasks := p.tasks[i := p.tasks[i].(stage := Finished)])
  {
    p' := p.(tasks := p.tasks[i := p.tasks[i].(stage := Finished)]);
    ThenLoad(procs, d, q, p, WindowCheck(i), d, p');
  }

  /** A failure in the window ends the load and gives the lock back; what is on disk by then stays. */
  lemma WindowFails(procs: map<Life, Proc>, d: Disk, q: Life, p: Proc) returns (p': Proc)
    requires Reachable(At(procs, d, q, p)) && InWindow(p) && p.hold.task < |p.tasks|
    ensures Reachable(At(procs, d, q, p'))
    ensures p' == p.(hold := Free, tasks := p.tasks[p.hold.task := p.tasks[p.hold.task].(stage := Finished)])
  {
    p' := p.(hold := Free, tasks := p.tasks[p.hold.task := p.tasks[p.hold.task].(stage := Finished)]);
    ThenLoad(procs, d, q, p, WindowFail, d, p');
  }

  /** A process in the window replaces the snapshot and stamps it. */
  lemma LeaveWindow(procs: map<Life, Proc>, d: Disk, q: Life, p: Proc, i: nat) returns (d': Disk, p': Proc)
    requires Reachable(At(procs, d, q, p)) && p.hold == Replacing(i)
    requires i < |p.tasks| && p.tasks[i].calls.Some?
    ensures Reachable(At(procs, d', q, p'))
    ensures var t := p.tasks[i];
            && d' == d.(snapshot := Some(Loaded(t)), stamp := Some(Stamp(t.token, t.mtime)))
            && p' == p.(hold := Free, tasks := p.tasks[i := t.(stage := Finished)])
  {
    var t := p.tasks[i];
    var d1 := d.(snapshot := Some(Loaded(t)));
    ThenLoad(procs, d, q, p, Replace, d1, p.(hold := Stamping(i)));
    d', p' := d1.(stamp := Some(Stamp(t.token, t.mtime))), p.(hold := Free, tasks := p.tasks[i := t.(stage := Finished)]);
    ThenLoad(procs, d1, q, p.(hold := Stamping(i)), WriteStamp, d', p');
  }

  /**
   Recovery. In whatever state it is, with whatever loads behind it, a process that holds no lock and
   has no usable store gets back, undisturbed, to a clean full store: the fresh snapshot if there
   is one, and otherwise the current version in both halves, which then is also the fresh snapshot.
   */
  lemma Recovery(procs: map<Life, Proc>, d: Disk, q: Life, p: Proc) returns (d': Disk, p': Proc)
    requires Reachable(At(procs, d, q, p)) && d.main <= |d.log|
    requires p.hold.Free? && (p.cache.dirty || p.cache.store.None?)
    ensures Reachable(At(procs, d', q, p')) && p'.hold.Free? && p'.unsettled == p.unsettled
    ensures d'.log == d.log && d'.main == d.main && d'.mtime == d.mtime && d'.snapshot.Some?
    ensures p'.cache == Cache(Some(Full(d'.snapshot.value)), false, p.cache.generation, false)
    ensures SnapshotIsFresh(d', p'.cache)
    ensures if SnapshotIsFresh(d, p.cache) then d' == d else d'.snapshot.value == Content(|d.log|, |d.log|)
  {
    if SnapshotIsFresh(d, p.cache) {
      d' := d;
      p' := WarmGet(procs, d, q, p);
    } else {
      p' := ColdGet(procs, d, q, p);
      p' := LoadIntoWindow(procs, d, q, p', |p.tasks|);
      d', p' := LeaveWindow(procs, d, q, p', |p.tasks|);
    }
  }

  lemma WriteAndSettle(procs: map<Life, Proc>, d: Disk, q: Life, p: Proc, t: Thread) returns (d': Disk, p': Proc)
    requires Reachable(At(procs, d, q, p)) && p.hold.Free? && p.unsettled == {}
    ensures Reachable(At(procs, d', q, p'))
    ensures d' == d.(log := d.log + [q]) && p' == p.(cache := InvalidateCache(p.cache))
  {
    d', p' := d.(log := d.log + [q]), p.(cache := InvalidateCache(p.cache));
    assert p.unsettled + {t} == {t};
    ThenWrite(procs, d, q, p, Commit(t), d', p.(unsettled := {t}));
    assert {t} - {t} == {};
    ThenWrite(procs, d', q, p.(unsettled := {t}), Invalidate(t), d', p');
  }

  /** Process 1 started on an empty database. */
  lemma FirstStart() returns (d: Disk, p: Proc)
    ensures d == Disk([], 0, 0, None, None) && p == Proc(Cache(None, false, 0, false), Free, [], {})
    ensures Reachable(At(map[], d, 1, p))
  {
    d := Disk([], 0, 0, None, None);
    var w := World(d, map[]);
    assert Run([w]) && [w][|[w]| - 1] == w;
    w := Then(w, Start(1));
    p := w.procs[1];
  }

  /** Process 1 has loaded the empty database undisturbed and is about to replace the snapshot. */
  lemma FirstInWindow() returns (d: Disk, p: Proc)
    ensures d == Disk([], 0, 0, None, None) && Reachable(At(map[], d, 1, p))
    ensures p == Proc(Cache(Some(Full(Content(0, 0))), false, 0, false), Replacing(0),
                      [Task(0, 0, 0, Some(0), Dumped)], {})
  {
    d, p := FirstStart();
    p := ColdGet(map[], d, 1, p);
    p := LoadIntoWindow(map[], d, 1, p, 0);
  }

  /** A thread of process 1 commits between the two halves of its first load. */
  lemma CommitBetweenHalves() returns (d: Disk, p: Proc)
    ensures d == Disk([1], 0, 0, None, None) && Reachable(At(map[], d, 1, p))
    ensures p == Proc(Cache(Some(SymbolsOnly(0)), false, 0, true), Free, [Task(0, 0, 0, None, Forked)], {7})
  {
    d, p := FirstStart();
    p := ColdGet(map[], d, 1, p);
    assert d.log + [1] == [1] && p.unsettled + {7} == {7};
    ThenWrite(map[], d, 1, p, Commit(7), d.(log := [1]), p.(unsettled := {7}));
    d, p := d.(log := [1]), p.(unsettled := {7});
  }

  /** While a commit waits for its invalidate, a published full store can mix two versions. */
  lemma PendingCommitMixesVersions() returns (w: World)
    ensures Reachable(w) && 1 in w.procs
    ensures var p := w.procs[1];
            p.cache.store == Some(Full(Content(0, 1))) && !p.cache.dirty && p.unsettled == {7}
  {
    var d, p := CommitBetweenHalves();
    p := LoadIntoWindow(map[], d, 1, p, 0);
    w := At(map[], d, 1, p);
  }

  /**
   A foreign commit that is still in the WAL moves neither mtime nor generation: a clean full store
   can have its symbols from before it and its calls from after it.
   */
  lemma ForeignCommitMixesVersions() returns (w: World)
    ensures Reachable(w) && 1 in w.procs && w.disk.log == [2] && w.disk.main == 0
    ensures var p := w.procs[1];
            p.cache.store == Some(Full(Content(0, 1))) && !p.cache.dirty && p.unsettled == {}
  {
    var d, p := FirstStart();
    p := ColdGet(map[], d, 1, p);
    w := Then(At(map[], d, 1, p), Start(2));
    var q := Proc(Cache(None, false, 0, false), Free, [], {});
    assert w == At(map[1 := p], d, 2, q);
    d, q := WriteAndSettle(map[1 := p], d, 2, q, 7);
    assert At(map[1 := p], d, 2, q) == At(map[2 := q], d, 1, p);
    p := LoadIntoWindow(map[2 := q], d, 1, p, 0);
    w := At(map[2 := q], d, 1, p);
  }

  /**
   A restart forgets the invalidations of the life before: it inherits the generation of the last stamp.
   If the last commits have not reached the main file, the old snapshot is accepted and served as clean.
   */
  lemma RestartServesStaleSnapshot() returns (w: World)
    ensures Reachable(w) && w.procs.Keys == {2}
    ensures var p := w.procs[2];
            && w.disk.log == [1] && w.disk.main == 0
            && p.cache.store == Some(Full(Content(0, 0))) && !p.cache.dirty && p.unsettled == {}
  {
    var d, p := FirstInWindow();
    d, p := LeaveWindow(map[], d, 1, p, 0);
    d, p := WriteAndSettle(map[], d, 1, p, 7);
    w := Then(At(map[], d, 1, p), Crash(1));
    w := Then(w, Start(2));
    p := Proc(Cache(None, false, 0, false), Free, [], {});
    assert w == At(map[], d, 2, p);
    p := WarmGet(map[], d, 2, p);
    w := At(map[], d, 2, p);
  }

  /** A process that starts late commits, checkpoints and loads its own commit into the window. */
  lemma SecondInWindow(one: Proc) returns (d: Disk, p: Proc)
    requires Reachable(At(map[], Disk([], 0, 0, None, None), 1, one))
    ensures d == Disk([2], 1, 1, None, None) && Reachable(At(map[1 := one], d, 2, p))
    ensures p == Proc(Cache(Some(Full(Content(1, 1))), false, 1, false), Replacing(0),
                      [Task(1, 1, 1, Some(1), Dumped)], {})
  {
    d, p := Disk([], 0, 0, None, None), Proc(Cache(None, false, 0, false), Free, [], {});
    var w := Then(At(map[], d, 1, one), Start(2));
    assert w == At(map[1 := one], d, 2, p);
    d, p := WriteAndSettle(map[1 := one], d, 2, p, 7);
    w := Then(At(map[1 := one], d, 2, p), Checkpoint(1, 1));
    d := Disk([2], 1, 1, None, None);
    assert w == At(map[1 := one], d, 2, p);
    p := ColdGet(map[1 := one], d, 2, p);
    p := LoadIntoWindow(map[1 := one], d, 2, p, 0);
  }

  /**
   Two processes may pass the test before `os.replace` one after the other, since the lock is per process.
   The late replace is not safe: it puts an old snapshot under a current stamp, with every commit in the main file.
   */
  lemma OverlappingWindowsAcceptStale() returns (before: World, w: World)
    ensures Reachable(before) && ToReplace(before, 1) && !SafeReplace(before, 1) && w == AfterReplace(before, 1)
    ensures Reachable(w) && 2 in w.procs
    ensures var p := w.procs[2];
            && SnapshotIsFresh(w.disk, p.cache) && p.unsettled == {}
            && w.disk.main == |w.disk.log| == 1 && w.disk.snapshot == Some(Content(0, 0))
  {
    var d, one := FirstInWindow();
    var two: Proc;
    d, two := SecondInWindow(one);
    d, two := LeaveWindow(map[1 := one], d, 2, two, 0);
    before := At(map[1 := one], d, 2, two);
    w := Then(before, Local(1, Load(Replace)));
  }
}
