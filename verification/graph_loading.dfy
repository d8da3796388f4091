/** The `loading` flag of the GraphStore cache: which load it speaks of, and when none is left to clear it. */
module GraphLoading {
  import opened Wrappers
  import opened GraphStore
  import opened GraphRuns

  predicate OnItsWay(t: Task) {
    t.stage.Forked? || t.stage.CallsRead?
  }

  /** The last load is the one of the present generation, and it is on its way or gave up behind a moved mtime. */
  predicate LastLoadExplains(d: Disk, p: Proc) {
    && p.tasks != []
    && var t := p.tasks[|p.tasks| - 1];
       t.token == p.cache.generation && (OnItsWay(t) || (t.stage.Finished? && t.mtime < d.mtime))
  }

  predicate HoldExplained(d: Disk, p: Proc) {
    match p.hold
    case Tokened(token) => token == p.cache.generation
    case Statted(token, m) => token == p.cache.generation && m <= d.mtime
    case StampSeen(token, m, _) => token == p.cache.generation && m <= d.mtime
    case Accepted(token, m) => token == p.cache.generation && m <= d.mtime
    case Rejected(token, m) => token == p.cache.generation && m <= d.mtime
    case SymbolsSeen(token, m, _) => token == p.cache.generation && m <= d.mtime
    case Publishing(i) => i < |p.tasks| && p.tasks[i].stage.CallsRead? && p.tasks[i].token == p.cache.generation
    case Replacing(i) => i < |p.tasks| && p.tasks[i].stage.Dumped?
    case Stamping(i) => i < |p.tasks| && p.tasks[i].stage.Dumped?
    case _ => true
  }

  /** Tokens rise from load to load; without a usable store every load is of an older generation. */
  ghost predicate TokensRise(p: Proc) {
    && (forall i, j :: 0 <= i < j < |p.tasks| ==> p.tasks[i].token < p.tasks[j].token)
    && (forall i :: 0 <= i < |p.tasks| ==> p.tasks[i].token <= p.cache.generation)
    && (p.cache.store.None? || p.cache.dirty ==>
          forall i :: 0 <= i < |p.tasks| ==> p.tasks[i].token < p.cache.generation)
  }

  ghost predicate LoadingInv(d: Disk, p: Proc) {
    && TokensRise(p)
    && (forall i :: 0 <= i < |p.tasks| ==> p.tasks[i].mtime <= d.mtime)
    && (InGet(p.hold) ==> p.cache.store.None? && !p.cache.dirty)
    && HoldExplained(d, p)
    && (p.cache.loading ==>
          p.cache.store.Some? && p.cache.store.value.SymbolsOnly? && !p.cache.dirty && LastLoadExplains(d, p))
  }

  lemma LoadingIsStable(d: Disk, d': Disk, p: Proc)
    requires LoadingInv(d, p) && d.mtime <= d'.mtime
    ensures LoadingInv(d', p)
  {
  }

  lemma GetKeepsLoading(d: Disk, p: Proc, e: GetEvent)
    requires LoadingInv(d, p) && GetAct(d, p, e).Some?
    ensures var r := GetAct(d, p, e).value; d.mtime <= r.disk.mtime && LoadingInv(r.disk, r.proc)
  {
  }

  /** Reading the calls and the tests of a load that is still on its way. */
  lemma OnItsWayKeepsLoading(d: Disk, p: Proc, e: LoadEvent)
    requires LoadingInv(d, p) && LoadAct(d, p, e).Some?
    requires e.LoadCalls? || e.LoadFail?
    ensures var r := LoadAct(d, p, e).value; r.disk == d && LoadingInv(d, r.proc)
  {
  }

  lemma PublishKeepsLoading(d: Disk, p: Proc, e: LoadEvent)
    requires LoadingInv(d, p) && LoadAct(d, p, e).Some?
    requires e.PublishCheck? || e.PublishSet?
    ensures var r := LoadAct(d, p, e).value; r.disk == d && LoadingInv(d, r.proc)
  {
  }

  /** What a load does with its snapshot comes after its publication, when the flag is not its own any more. */
  lemma MovedOn(d: Disk, p: Proc, i: nat, stage: Stage, h: Hold)
    requires LoadingInv(d, p) && i < |p.tasks| && (p.tasks[i].stage.Published? || p.tasks[i].stage.Dumped?)
    requires InGet(h) ==> h == p.hold
    requires var p' := p.(tasks := p.tasks[i := p.tasks[i].(stage := stage)], hold := h); HoldExplained(d, p')
    ensures var p' := p.(tasks := p.tasks[i := p.tasks[i].(stage := stage)], hold := h); LoadingInv(d, p')
  {
  }

  lemma DumpKeepsLoading(d: Disk, p: Proc, i: nat)
    requires LoadingInv(d, p) && LoadAct(d, p, Dump(i)).Some?
    ensures var r := LoadAct(d, p, Dump(i)).value; r.disk == d && LoadingInv(d, r.proc)
  {
    MovedOn(d, p, i, Dumped, p.hold);
  }

  lemma WindowCheckKeepsLoading(d: Disk, p: Proc, i: nat)
    requires LoadingInv(d, p) && LoadAct(d, p, WindowCheck(i)).Some?
    ensures var r := LoadAct(d, p, WindowCheck(i)).value; r.disk == d && LoadingInv(d, r.proc)
  {
    if StillCurrent(p.cache, p.tasks[i], d.mtime) {
      assert p.tasks[i := p.tasks[i].(stage := Dumped)] == p.tasks;
      MovedOn(d, p, i, Dumped, Replacing(i));
    } else {
      MovedOn(d, p, i, Finished, p.hold);
    }
  }

  lemma WindowKeepsLoading(d: Disk, p: Proc, e: LoadEvent)
    requires LoadingInv(d, p) && LoadAct(d, p, e).Some?
    requires e.Replace? || e.WriteStamp? || e.WindowFail?
    ensures var r := LoadAct(d, p, e).value; d.mtime == r.disk.mtime && LoadingInv(r.disk, r.proc)
  {
    var r, i := LoadAct(d, p, e).value, p.hold.task;
    if e.Replace? {
      assert p.tasks[i := p.tasks[i].(stage := Dumped)] == p.tasks;
      MovedOn(d, p, i, Dumped, Stamping(i));
    } else {
      MovedOn(d, p, i, Finished, Free);
    }
    LoadingIsStable(d, r.disk, r.proc);
  }

  lemma LoadKeepsLoading(d: Disk, p: Proc, e: LoadEvent)
    requires LoadingInv(d, p) && LoadAct(d, p, e).Some?
    ensures var r := LoadAct(d, p, e).value; d.mtime <= r.disk.mtime && LoadingInv(r.disk, r.proc)
  {
    match e
    case LoadCalls(_) => OnItsWayKeepsLoading(d, p, e);
    case LoadFail(_) => OnItsWayKeepsLoading(d, p, e);
    case PublishCheck(_) => PublishKeepsLoading(d, p, e);
    case PublishSet => PublishKeepsLoading(d, p, e);
    case Dump(i) => DumpKeepsLoading(d, p, i);
    case WindowCheck(i) => WindowCheckKeepsLoading(d, p, i);
    case _ => WindowKeepsLoading(d, p, e);
  }

  lemma ActKeepsLoading(d: Disk, p: Proc, me: Life, e: Event)
    requires LoadingInv(d, p) && Act(d, p, me, e).Some?
    ensures var r := Act(d, p, me, e).value; d.mtime <= r.disk.mtime && LoadingInv(r.disk, r.proc)
  {
    match e
    case Write(_) =>
    case Get(x) => GetKeepsLoading(d, p, x);
    case Load(x) => LoadKeepsLoading(d, p, x);
  }

  ghost predicate AllExplained(w: World) {
    forall q :: q in w.procs ==> LoadingInv(w.disk, w.procs[q])
  }

  lemma StepKeepsLoading(w: World, s: Step, w': World)
    requires AllExplained(w) && StepTo(w, s, w')
    ensures AllExplained(w')
  {
    if s.Local? {
      ActKeepsLoading(w.disk, w.procs[s.life], s.life, s.event);
    }
    forall q | q in w'.procs ensures LoadingInv(w'.disk, w'.procs[q]) {
      if q in w.procs && !(s.Local? && s.life == q) {
        LoadingIsStable(w.disk, w'.disk, w.procs[q]);
      }
    }
  }

  lemma {:induction false} RunIsExplained(ws: seq<World>)
    requires Run(ws)
    ensures AllExplained(ws[|ws| - 1])
    decreases |ws|
  {
    var n := |ws| - 1;
    if n > 0 {
      RunPrefix(ws, n);
      RunIsExplained(ws[..n]);
      var s :| StepTo(ws[n - 1], s, ws[n]);
      StepKeepsLoading(ws[n - 1], s, ws[n]);
    }
  }

  /**
   In every reachable state: a store that is marked as loading is a clean symbols-only store, exactly
   one load has its generation, and that load is on its way, or it has finished and the mtime
   has moved since it read it.
   */
  lemma LoadingMeans(ws: seq<World>, q: Life)
    requires Run(ws) && q in ws[|ws| - 1].procs && ws[|ws| - 1].procs[q].cache.loading
    ensures var d, p := ws[|ws| - 1].disk, ws[|ws| - 1].procs[q];
            && p.cache.store.Some? && p.cache.store.value.SymbolsOnly? && !p.cache.dirty
            && LastLoadExplains(d, p)
            && forall i :: 0 <= i < |p.tasks| - 1 ==> p.tasks[i].token < p.cache.generation
  {
    RunIsExplained(ws);
  }

  /** The flag is set and the load it speaks of is over. */
  predicate Orphaned(p: Proc) {
    p.cache.loading && p.tasks != [] && p.tasks[|p.tasks| - 1].stage.Finished?
  }

  /**
   When the load has read its calls, its test before publishing leaves the flag without a load exactly
   if the mtime has moved since the load read it; otherwise the load publishes, which clears the flag.
   */
  lemma OrphanedExactly(d: Disk, p: Proc)
    requires LoadingInv(d, p) && p.cache.loading && p.hold.Free?
    requires p.tasks[|p.tasks| - 1].stage.CallsRead? && p.tasks[|p.tasks| - 1].calls.Some?
    ensures var i := |p.tasks| - 1; var r := LoadAct(d, p, PublishCheck(i));
            && r.Some? && r.value.disk == d && r.value.proc.cache == p.cache
            && (Orphaned(r.value.proc) <==> p.tasks[i].mtime < d.mtime)
            && (!Orphaned(r.value.proc) ==>
                  var s := LoadAct(d, r.value.proc, PublishSet); s.Some? && !s.value.proc.cache.loading)
  {
  }

  /** Once there, the process serves its symbols-only store until it invalidates or ends: nothing else clears the flag. */
  lemma OrphanLasts(d: Disk, p: Proc, me: Life, e: Event)
    requires LoadingInv(d, p) && Orphaned(p) && Act(d, p, me, e).Some?
    requires !(e.Write? && e.write.Invalidate?)
    ensures var r := Act(d, p, me, e).value; Orphaned(r.proc) && r.proc.cache == p.cache
  {
  }

  /** Such a state is reached when another process commits and checkpoints between the two phases of a load. */
  lemma LoadingOutlivesItsLoad() returns (w: World)
    ensures Reachable(w) && 1 in w.procs && Orphaned(w.procs[1])
    ensures w.procs[1].cache == Cache(Some(SymbolsOnly(0)), false, 0, true)
  {
    var d, p := FirstStart();
    p := ColdGet(map[], d, 1, p);
    w := Then(At(map[], d, 1, p), Start(2));
    var q := Proc(Cache(None, false, 0, false), Free, [], {});
    assert w == At(map[1 := p], d, 2, q);
    d, q := WriteAndSettle(map[1 := p], d, 2, q, 7);
    w := Then(At(map[1 := p], d, 2, q), Checkpoint(1, 1));
    d := d.(main := 1, mtime := 1);
    assert w == At(map[2 := q], d, 1, p);
    p := LoadBehindMove(map[2 := q], d, 1, p);
    w := At(map[2 := q], d, 1, p);
  }

  /** A load whose mtime has moved reads its calls and gives up. */
  lemma LoadBehindMove(procs: map<Life, Proc>, d: Disk, q: Life, p: Proc) returns (p': Proc)
    requires Reachable(At(procs, d, q, p)) && p.hold.Free? && p.tasks != []
    requires p.tasks[|p.tasks| - 1].stage.Forked? && p.tasks[|p.tasks| - 1].mtime < d.mtime
    ensures Reachable(At(procs, d, q, p')) && p'.cache == p.cache
    ensures p'.tasks != [] && p'.tasks[|p'.tasks| - 1].stage.Finished?
  {
    var i := |p.tasks| - 1;
    var t := p.tasks[i].(calls := Some(|d.log|), stage := CallsRead);
    var p1 := p.(tasks := p.tasks[i := t]);
    ThenLoad(procs, d, q, p, LoadCalls(i), d, p1);
    p' := p.(tasks := p.tasks[i := t.(stage := Finished)]);
    assert p1.tasks[i := t.(stage := Finished)] == p'.tasks;
    ThenLoad(procs, d, q, p1, PublishCheck(i), d, p');
  }
}
