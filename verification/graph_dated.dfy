/** What the mtime alone vouches for in the GraphStore protocol, and when replacing a snapshot is safe. */
module GraphDated {
  import opened Wrappers
  import opened GraphStore

  /******* Dated contents: what every reader knows from the mtime alone *******/

  /** A version read after `mtime` was; if the main file has not moved since, it covers the main file. */
  predicate Dated(d: Disk, mtime: nat, version: nat) {
    mtime <= d.mtime && version <= |d.log| && (mtime == d.mtime ==> d.main <= version)
  }

  /** Both halves hold at least what is in the main file. */
  predicate CoversMain(d: Disk, c: Content) {
    d.main <= c.symbols && d.main <= c.calls
  }

  predicate TaskDated(d: Disk, t: Task) {
    && Dated(d, t.mtime, t.symbols)
    && (t.calls.Some? ==> Dated(d, t.mtime, t.calls.value))
    && (t.calls.None? ==> t.stage.Forked? || t.stage.Finished?)
  }

  predicate HoldDated(d: Disk, p: Proc) {
    match p.hold
    case Statted(_, m) => m <= d.mtime
    case StampSeen(_, m, _) => m <= d.mtime
    case Accepted(_, m) => m <= d.mtime
    case Rejected(_, m) => m <= d.mtime
    case SymbolsSeen(_, m, v) => Dated(d, m, v)
    case Publishing(i) => i < |p.tasks| && p.tasks[i].calls.Some? && p.tasks[i].stage.CallsRead?
    case Replacing(i) => i < |p.tasks| && p.tasks[i].calls.Some? && p.tasks[i].stage.Dumped?
    case Stamping(i) =>
      && i < |p.tasks| && p.tasks[i].calls.Some? && p.tasks[i].stage.Dumped?
      && (p.tasks[i].mtime == d.mtime ==> d.snapshot.Some? && CoversMain(d, d.snapshot.value))
    case _ => true
  }

  ghost predicate TasksDated(d: Disk, tasks: seq<Task>) {
    forall t :: t in tasks ==> TaskDated(d, t)
  }

  ghost predicate ProcDated(d: Disk, p: Proc) {
    TasksDated(d, p.tasks) && HoldDated(d, p)
  }

  /** There is a snapshot under a stamp with the current mtime. */
  predicate Vouched(d: Disk) {
    d.snapshot.Some? && d.stamp.Some? && d.stamp.value.mtime == d.mtime
  }

  predicate DiskDated(d: Disk) {
    && d.main <= |d.log|
    && (d.stamp.Some? ==> d.stamp.value.mtime <= d.mtime)
    && (d.snapshot.Some? ==> d.snapshot.value.symbols <= |d.log| && d.snapshot.value.calls <= |d.log|)
    && (Vouched(d) ==> CoversMain(d, d.snapshot.value))
  }

  ghost predicate WorldDated(w: World) {
    DiskDated(w.disk) && forall q :: q in w.procs ==> ProcDated(w.disk, w.procs[q])
  }

  /** What every step does to the part of the disk that only grows. */
  predicate Grows(d: Disk, d': Disk) {
    && d.log <= d'.log
    && d.main <= d'.main
    && d.mtime <= d'.mtime
    && (d.mtime == d'.mtime ==> d.main == d'.main)
  }

  /** The stamp a process is about to write carries the current mtime. */
  predicate StampsNow(d: Disk, p: Proc) {
    p.hold.Stamping? && p.hold.task < |p.tasks| && p.tasks[p.hold.task].mtime == d.mtime
  }

  lemma TasksDatedAreStable(d: Disk, d': Disk, tasks: seq<Task>)
    requires TasksDated(d, tasks) && Grows(d, d')
    ensures TasksDated(d', tasks)
  {
    forall t | t in tasks ensures TaskDated(d', t) {
      assert TaskDated(d, t);
    }
  }

  lemma TaskSetIsDated(d: Disk, p: Proc, i: nat, t: Task)
    requires TasksDated(d, p.tasks) && i < |p.tasks| && TaskDated(d, t)
    ensures TasksDated(d, SetTask(p, i, t).tasks)
  {
  }

  lemma ProcDatedIsStable(d: Disk, d': Disk, p: Proc)
    requires ProcDated(d, p) && Grows(d, d')
    requires StampsNow(d', p) ==> d'.snapshot == d.snapshot || (d'.snapshot.Some? && CoversMain(d', d'.snapshot.value))
    ensures ProcDated(d', p)
  {
    TasksDatedAreStable(d, d', p.tasks);
    if p.hold.Stamping? && StampsNow(d', p) {
      assert TaskDated(d, p.tasks[p.hold.task]);
    }
  }

  ghost predicate KeepsDated(d: Disk, p: Proc, r: Outcome) {
    DiskDated(r.disk) && ProcDated(r.disk, r.proc) && Grows(d, r.disk)
  }

  lemma GetKeepsDated(d: Disk, p: Proc, e: GetEvent)
    requires DiskDated(d) && ProcDated(d, p) && GetAct(d, p, e).Some?
    ensures var r := GetAct(d, p, e).value; KeepsDated(d, p, r) && r.disk.snapshot == d.snapshot
  {
    var r := GetAct(d, p, e).value;
    TasksDatedAreStable(d, r.disk, p.tasks);
  }

  /** Reading the calls dates them by the mtime read before. */
  lemma LoadCallsKeepsDated(d: Disk, p: Proc, i: nat)
    requires DiskDated(d) && ProcDated(d, p) && LoadAct(d, p, LoadCalls(i)).Some?
    ensures KeepsDated(d, p, LoadAct(d, p, LoadCalls(i)).value)
  {
    var t := p.tasks[i];
    assert TaskDated(d, t);
    TaskSetIsDated(d, p, i, t.(calls := Some(|d.log|), stage := CallsRead));
  }

  /** The other events of a load only move its stage on. */
  lemma StageKeepsDated(d: Disk, p: Proc, e: LoadEvent)
    requires DiskDated(d) && ProcDated(d, p) && LoadAct(d, p, e).Some?
    requires !e.LoadCalls? && !e.Replace? && !e.WriteStamp?
    ensures var r := LoadAct(d, p, e).value; r.disk == d && KeepsDated(d, p, r)
  {
    var i := TaskOf(p, e);
    var t, t' := p.tasks[i], LoadAct(d, p, e).value.proc.tasks[i];
    assert TaskDated(d, t);
    TaskSetIsDated(d, p, i, t');
    assert LoadAct(d, p, e).value.proc.tasks == SetTask(p, i, t').tasks;
  }

  lemma WriteStampKeepsDated(d: Disk, p: Proc)
    requires DiskDated(d) && ProcDated(d, p) && LoadAct(d, p, WriteStamp).Some?
    ensures var r := LoadAct(d, p, WriteStamp).value; KeepsDated(d, p, r) && r.disk.snapshot == d.snapshot
  {
    var i := p.hold.task;
    assert TaskDated(d, p.tasks[i]);
    TaskSetIsDated(d, p, i, p.tasks[i].(stage := Finished));
    TasksDatedAreStable(d, LoadAct(d, p, WriteStamp).value.disk, SetTask(p, i, p.tasks[i].(stage := Finished)).tasks);
  }

  lemma WriteKeepsDated(d: Disk, p: Proc, me: Life, e: WriteEvent)
    requires DiskDated(d) && ProcDated(d, p) && WriteAct(d, p, me, e).Some?
    ensures var r := WriteAct(d, p, me, e).value; KeepsDated(d, p, r) && r.disk.snapshot == d.snapshot
  {
    TasksDatedAreStable(d, WriteAct(d, p, me, e).value.disk, p.tasks);
  }

  /** No event of a process but the replacing of the snapshot can spoil what is dated. */
  lemma ActKeepsDated(d: Disk, p: Proc, me: Life, e: Event)
    requires DiskDated(d) && ProcDated(d, p) && Act(d, p, me, e).Some? && e != Load(Replace)
    ensures var r := Act(d, p, me, e).value; KeepsDated(d, p, r) && r.disk.snapshot == d.snapshot
  {
    match e
    case Write(x) => WriteKeepsDated(d, p, me, x);
    case Get(x) => GetKeepsDated(d, p, x);
    case Load(x) =>
      if x.LoadCalls? {
        LoadCallsKeepsDated(d, p, x.task);
      } else if x.WriteStamp? {
        WriteStampKeepsDated(d, p);
      } else {
        StageKeepsDated(d, p, x);
      }
  }

  /******* When replacing the snapshot is safe *******/

  /** Process q holds its lock to replace the snapshot with what its load has read. */
  predicate ToReplace(w: World, q: Life) {
    && q in w.procs && w.procs[q].hold.Replacing?
    && w.procs[q].hold.task < |w.procs[q].tasks| && w.procs[q].tasks[w.procs[q].hold.task].calls.Some?
  }

  function TaskToReplace(w: World, q: Life): Task
    requires ToReplace(w, q)
  {
    w.procs[q].tasks[w.procs[q].hold.task]
  }

  /** A stamp with the current mtime is there, or another process is about to write one. */
  ghost predicate Vouching(w: World, q: Life) {
    || (w.disk.stamp.Some? && w.disk.stamp.value.mtime == w.disk.mtime)
    || exists r :: r in w.procs && r != q && StampsNow(w.disk, w.procs[r])
  }

  /**
   The mtime is still the one the load started from, or what it read still covers the main file,
   or nothing vouches for the snapshot that it puts in place.
   */
  ghost predicate SafeReplace(w: World, q: Life)
    requires ToReplace(w, q)
  {
    var t := TaskToReplace(w, q);
    t.mtime == w.disk.mtime || CoversMain(w.disk, Loaded(t)) || !Vouching(w, q)
  }

  ghost predicate SafeStep(w: World, s: Step) {
    s.Local? && s.event == Load(Replace) && ToReplace(w, s.life) ==> SafeReplace(w, s.life)
  }

  function AfterReplace(w: World, q: Life): World
    requires ToReplace(w, q)
  {
    var p := w.procs[q];
    World(w.disk.(snapshot := Some(Loaded(TaskToReplace(w, q)))), w.procs[q := p.(hold := Stamping(p.hold.task))])
  }

  /** A safe replace keeps everything dated, and an unsafe one does not. */
  lemma ReplaceIsSafeExactly(w: World, q: Life)
    requires WorldDated(w) && ToReplace(w, q)
    ensures StepTo(w, Local(q, Load(Replace)), AfterReplace(w, q))
    ensures WorldDated(AfterReplace(w, q)) <==> SafeReplace(w, q)
  {
    var w', d, d', p := AfterReplace(w, q), w.disk, AfterReplace(w, q).disk, w.procs[q];
    var t := TaskToReplace(w, q);
    assert TaskDated(d, t);
    if SafeReplace(w, q) {
      TasksDatedAreStable(d, d', p.tasks);
      forall r | r in w'.procs ensures ProcDated(d', w'.procs[r]) {
        if r != q {
          ProcDatedIsStable(d, d', w.procs[r]);
        }
      }
    } else if !Vouched(d') {
      var r :| r in w.procs && r != q && StampsNow(d, w.procs[r]);
      assert r in w'.procs && !HoldDated(d', w'.procs[r]);
    }
  }

  /**
   After an unsafe replace, at once or as soon as the pending stamp is written, a stamp with the
   current mtime vouches for a snapshot that lacks commits of the main file.
   */
  lemma UnsafeReplaceDoesHarm(w: World, q: Life) returns (w': World)
    requires WorldDated(w) && ToReplace(w, q) && !SafeReplace(w, q)
    ensures w' == AfterReplace(w, q) ||
            exists r :: StepTo(AfterReplace(w, q), Local(r, Load(WriteStamp)), w')
    ensures Vouched(w'.disk) && !CoversMain(w'.disk, w'.disk.snapshot.value)
  {
    w' := AfterReplace(w, q);
    if !Vouched(w'.disk) {
      var r :| r in w.procs && r != q && StampsNow(w.disk, w.procs[r]);
      assert ProcDated(w.disk, w.procs[r]);
      var after := w';
      w' := Apply(after, Local(r, Load(WriteStamp))).value;
      assert StepTo(after, Local(r, Load(WriteStamp)), w');
    }
  }

  lemma StepKeepsDated(w: World, s: Step, w': World)
    requires WorldDated(w) && SafeStep(w, s) && StepTo(w, s, w')
    ensures WorldDated(w') && Grows(w.disk, w'.disk)
  {
    match s
    case Local(me, e) =>
      if e == Load(Replace) {
        ReplaceIsSafeExactly(w, me);
        assert w' == AfterReplace(w, me);
      } else {
        ActKeepsDated(w.disk, w.procs[me], me, e);
        forall q | q in w'.procs ensures ProcDated(w'.disk, w'.procs[q]) {
          if q != me {
            ProcDatedIsStable(w.disk, w'.disk, w.procs[q]);
          }
        }
      }
    case Checkpoint(_, _) =>
      forall q | q in w'.procs ensures ProcDated(w'.disk, w'.procs[q]) {
        ProcDatedIsStable(w.disk, w'.disk, w.procs[q]);
      }
    case Start(_) =>
    case Crash(_) =>
  }

  ghost predicate SafeNext(w: World, w': World) {
    exists s :: StepTo(w, s, w') && SafeStep(w, s)
  }

  /** A run in which every replace is safe. */
  ghost predicate SafeRun(ws: seq<World>) {
    |ws| > 0 && Init(ws[0]) && forall k :: 0 < k < |ws| ==> SafeNextAt(ws, k)
  }

  ghost predicate SafeNextAt(ws: seq<World>, k: nat)
    requires 0 < k < |ws|
  {
    SafeNext(ws[k - 1], ws[k])
  }

  lemma {:induction false} RunIsDated(ws: seq<World>)
    requires SafeRun(ws)
    ensures WorldDated(ws[|ws| - 1])
    decreases |ws|
  {
    if |ws| > 1 {
      var before, n := ws[..|ws| - 1], |ws| - 1;
      forall k | 0 < k < n ensures SafeNextAt(before, k) {
        assert SafeNextAt(ws, k);
      }
      RunIsDated(before);
      assert SafeNextAt(ws, n);
      var s :| StepTo(ws[n - 1], s, ws[n]) && SafeStep(ws[n - 1], s);
      StepKeepsDated(ws[n - 1], s, ws[n]);
    }
  }

  /**
   Regime (b). In any history of any number of processes, with crashes at any point and publishing
   windows that may overlap, a stamp that carries the current mtime vouches for the snapshot once
   every commit is in the main file, as long as every replace was safe. The generation plays no part.
   */
  lemma CheckpointedSnapshotIsCurrent(ws: seq<World>)
    requires SafeRun(ws)
    ensures var d := ws[|ws| - 1].disk;
            Vouched(d) && d.main == |d.log| ==> d.snapshot.value == Content(|d.log|, |d.log|)
  {
    RunIsDated(ws);
  }

  /******* Windows that do not overlap *******/

  /** The publishing windows of different processes do not overlap. */
  ghost predicate Exclusive(w: World) {
    forall a, b :: a in w.procs && b in w.procs && InWindow(w.procs[a]) && InWindow(w.procs[b]) ==> a == b
  }

  /** The stamp is no younger than the load that is about to replace its snapshot. */
  predicate StampBehind(d: Disk, p: Proc) {
    p.hold.Replacing? && p.hold.task < |p.tasks| && d.stamp.Some? ==>
      d.stamp.value.mtime <= p.tasks[p.hold.task].mtime
  }

  ghost predicate StampsBehind(w: World) {
    forall q :: q in w.procs ==> StampBehind(w.disk, w.procs[q])
  }

  lemma OwnStampBehind(d: Disk, p: Proc, me: Life, e: Event)
    requires DiskDated(d) && StampBehind(d, p) && Act(d, p, me, e).Some?
    ensures var r := Act(d, p, me, e).value; StampBehind(r.disk, r.proc)
  {
  }

  /** Who is not in the window leaves the stamp alone. */
  lemma StampChangesInWindow(d: Disk, p: Proc, me: Life, e: Event)
    requires Act(d, p, me, e).Some?
    ensures InWindow(p) || Act(d, p, me, e).value.disk.stamp == d.stamp
  {
  }

  lemma ExclusiveStepIsSafe(w: World, s: Step, w': World)
    requires WorldDated(w) && StampsBehind(w) && Exclusive(w) && StepTo(w, s, w')
    ensures SafeStep(w, s) && StampsBehind(w')
  {
    if s.Local? && s.event == Load(Replace) {
      assert TaskDated(w.disk, TaskToReplace(w, s.life));
    }
    if s.Local? {
      OwnStampBehind(w.disk, w.procs[s.life], s.life, s.event);
      StampChangesInWindow(w.disk, w.procs[s.life], s.life, s.event);
    }
    forall q | q in w'.procs ensures StampBehind(w'.disk, w'.procs[q]) {
      if q in w.procs {
        assert StampBehind(w.disk, w.procs[q]);
      }
    }
  }

  /** Without overlapping windows every run is safe. */
  lemma {:induction false} ExclusiveRunIsSafe(ws: seq<World>)
    requires Run(ws) && forall w :: w in ws ==> Exclusive(w)
    ensures SafeRun(ws) && StampsBehind(ws[|ws| - 1])
    decreases |ws|
  {
    var n := |ws| - 1;
    if n > 0 {
      RunPrefix(ws, n);
      ExclusiveRunIsSafe(ws[..n]);
      RunIsDated(ws[..n]);
      var s :| StepTo(ws[n - 1], s, ws[n]);
      ExclusiveStepIsSafe(ws[n - 1], s, ws[n]);
      forall k | 0 < k < |ws| ensures SafeNextAt(ws, k) {
        assert k < n ==> SafeNextAt(ws[..n], k);
      }
    }
  }
}
