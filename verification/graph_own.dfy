/** What a process can rely on in the GraphStore protocol while it alone publishes snapshots. */
module GraphOwn {
  import opened Wrappers
  import opened GraphStore
  import opened GraphDated

  /** `life` is running and no other process is publishing a snapshot. */
  ghost predicate Alone(w: World, life: Life) {
    life in w.procs && forall a :: a in w.procs && InWindow(w.procs[a]) ==> a == life
  }

  /******* Own commits: what a process knows from its generation *******/

  /** What decides whether a version is good for a process: the commits, whether all its threads have invalidated, and its generation. */
  datatype Knows = Knows(log: seq<Life>, settled: bool, generation: nat, life: Life)

  function KnowsOf(d: Disk, p: Proc, life: Life): Knows {
    Knows(d.log, p.unsettled == {}, p.cache.generation, life)
  }

  /** A reader of version v has missed none of the commits of `life`. */
  predicate Covers(log: seq<Life>, v: nat, life: Life) {
    v <= |log| && life !in log[v..]
  }

  /** A version that misses no own commit, unless a thread has yet to invalidate. */
  predicate Good(k: Knows, v: nat) {
    v <= |k.log| && (k.settled ==> Covers(k.log, v, k.life))
  }

  predicate GoodContent(k: Knows, c: Content) {
    Good(k, c.symbols) && Good(k, c.calls)
  }

  predicate GoodStore(k: Knows, s: Store) {
    match s
    case SymbolsOnly(v) => Good(k, v)
    case Full(c) => GoodContent(k, c)
  }

  predicate GoodTask(k: Knows, t: Task) {
    && t.token <= k.generation
    && (t.token == k.generation ==> Good(k, t.symbols) && (t.calls.Some? ==> Good(k, t.calls.value)))
  }

  predicate GoodCache(k: Knows, c: Cache) {
    c.store.Some? && !c.dirty ==> GoodStore(k, c.store.value)
  }

  predicate GoodHold(k: Knows, d: Disk, p: Proc) {
    match p.hold
    case Tokened(token) => token == k.generation
    case Statted(token, _) => token == k.generation
    case StampSeen(token, _, seen) =>
      token == k.generation && (seen.Some? ==> d.snapshot.Some? && seen == d.stamp)
    case Accepted(token, _) => token == k.generation && d.snapshot.Some? && GoodContent(k, d.snapshot.value)
    case Rejected(token, _) => token == k.generation
    case SymbolsSeen(token, _, v) => token == k.generation && Good(k, v)
    case Publishing(i) => i < |p.tasks| && p.tasks[i].token == k.generation && !p.cache.dirty
    case Replacing(i) =>
      i < |p.tasks| && p.tasks[i].token == k.generation && !p.cache.dirty && StampBehind(d, p)
    case Stamping(i) =>
      && i < |p.tasks| && p.tasks[i].token == k.generation && !p.cache.dirty
      && p.tasks[i].calls.Some? && d.snapshot == Some(Loaded(p.tasks[i]))
    case _ => true
  }

  /** The stamp never runs ahead of the generation, and at the current one it names a snapshot with every own commit. */
  predicate GoodStamp(k: Knows, d: Disk) {
    d.stamp.Some? ==>
      && d.stamp.value.generation <= k.generation
      && (d.snapshot.Some? && d.stamp.value.generation == k.generation && k.settled ==>
            Covers(k.log, d.snapshot.value.symbols, k.life) && Covers(k.log, d.snapshot.value.calls, k.life))
  }

  ghost predicate GoodTasks(k: Knows, tasks: seq<Task>) {
    forall t :: t in tasks ==> GoodTask(k, t)
  }

  ghost predicate OwnInv(d: Disk, p: Proc, life: Life) {
    var k := KnowsOf(d, p, life);
    && GoodCache(k, p.cache)
    && GoodTasks(k, p.tasks)
    && GoodHold(k, d, p)
    && GoodStamp(k, d)
  }

  /** A commit by another process does not spoil what is good for `life`. */
  lemma GoodLater(k: Knows, author: Life, v: nat)
    requires author != k.life
    ensures Covers(k.log, v, k.life) ==> Covers(k.log + [author], v, k.life)
    ensures Good(k, v) ==> Good(k.(log := k.log + [author]), v)
  {
    if v <= |k.log| {
      assert (k.log + [author])[v..] == k.log[v..] + [author];
    }
  }

  /** Steps of other processes and checkpoints leave the invariant of `life` alone. */
  lemma OwnInvIsStable(d: Disk, d': Disk, p: Proc, life: Life)
    requires OwnInv(d, p, life)
    requires d'.log == d.log || exists author: Life :: author != life && d'.log == d.log + [author]
    requires d'.stamp == d.stamp && d'.snapshot == d.snapshot
    ensures OwnInv(d', p, life)
  {
    var k := KnowsOf(d, p, life);
    if d'.log != d.log {
      var author: Life :| author != life && d'.log == d.log + [author];
      forall v: nat
        ensures Covers(k.log, v, life) ==> Covers(d'.log, v, life)
        ensures Good(k, v) ==> Good(k.(log := d'.log), v)
      {
        GoodLater(k, author, v);
      }
      forall t | t in p.tasks ensures GoodTask(k.(log := d'.log), t) {
        assert GoodTask(k, t);
      }
    }
  }

  lemma CommitKeepsOwnInv(d: Disk, p: Proc, life: Life, t: Thread)
    requires OwnInv(d, p, life)
    ensures OwnInv(d.(log := d.log + [life]), p.(unsettled := p.unsettled + {t}), life)
  {
    var d', p' := d.(log := d.log + [life]), p.(unsettled := p.unsettled + {t});
    assert t in p'.unsettled;
    forall u | u in p'.tasks ensures GoodTask(KnowsOf(d', p', life), u) {
      assert GoodTask(KnowsOf(d, p, life), u);
    }
  }

  lemma InvalidateKeepsOwnInv(d: Disk, p: Proc, life: Life, t: Thread)
    requires OwnInv(d, p, life) && p.hold.Free?
    ensures OwnInv(d, p.(cache := InvalidateCache(p.cache), unsettled := p.unsettled - {t}), life)
  {
    var p' := p.(cache := InvalidateCache(p.cache), unsettled := p.unsettled - {t});
    forall u | u in p'.tasks ensures GoodTask(KnowsOf(d, p', life), u) {
      assert GoodTask(KnowsOf(d, p, life), u);
    }
  }

  lemma GoodNow(k: Knows)
    ensures Good(k, |k.log|)
  {
    assert k.log[|k.log|..] == [];
  }

  lemma GetKeepsOwnInv(d: Disk, p: Proc, life: Life, e: GetEvent)
    requires DiskDated(d) && OwnInv(d, p, life) && GetAct(d, p, e).Some?
    ensures var r := GetAct(d, p, e).value; OwnInv(r.disk, r.proc, life)
  {
    var r, k := GetAct(d, p, e).value, KnowsOf(d, p, life);
    GoodNow(k);
    assert KnowsOf(r.disk, r.proc, life) == k;
    assert GoodTasks(k, r.proc.tasks);
  }

  lemma GoodTaskSet(k: Knows, p: Proc, i: nat, t: Task)
    requires GoodTasks(k, p.tasks) && i < |p.tasks| && GoodTask(k, t)
    ensures GoodTasks(k, SetTask(p, i, t).tasks)
  {
  }

  lemma LoadCallsKeepsOwnInv(d: Disk, p: Proc, life: Life, i: nat)
    requires ProcDated(d, p) && OwnInv(d, p, life) && LoadAct(d, p, LoadCalls(i)).Some?
    ensures var r := LoadAct(d, p, LoadCalls(i)).value; OwnInv(r.disk, r.proc, life)
  {
    var k, t := KnowsOf(d, p, life), p.tasks[i];
    GoodNow(k);
    assert GoodTask(k, t);
    GoodTaskSet(k, p, i, t.(calls := Some(|d.log|), stage := CallsRead));
  }

  /** The events that only move a stage on, or give up. */
  lemma StageKeepsOwnInv(d: Disk, p: Proc, life: Life, e: LoadEvent)
    requires DiskDated(d) && ProcDated(d, p) && OwnInv(d, p, life) && LoadAct(d, p, e).Some?
    requires !e.LoadCalls? && !e.PublishSet? && !e.Replace? && !e.WriteStamp?
    ensures var r := LoadAct(d, p, e).value; OwnInv(r.disk, r.proc, life)
  {
    var k, i := KnowsOf(d, p, life), TaskOf(p, e);
    var t' := LoadAct(d, p, e).value.proc.tasks[i];
    assert p.tasks[i] in p.tasks && GoodTask(k, p.tasks[i]);
    GoodTaskSet(k, p, i, t');
    assert LoadAct(d, p, e).value.proc.tasks == SetTask(p, i, t').tasks;
  }

  /** The events under the lock that store, replace or stamp what the load has read. */
  lemma PublishKeepsOwnInv(d: Disk, p: Proc, life: Life, e: LoadEvent)
    requires DiskDated(d) && ProcDated(d, p) && OwnInv(d, p, life) && LoadAct(d, p, e).Some?
    requires e.PublishSet? || e.Replace? || e.WriteStamp?
    ensures var r := LoadAct(d, p, e).value; OwnInv(r.disk, r.proc, life)
  {
    var k, i := KnowsOf(d, p, life), p.hold.task;
    var t' := LoadAct(d, p, e).value.proc.tasks[i];
    assert p.tasks[i] in p.tasks && GoodTask(k, p.tasks[i]);
    GoodTaskSet(k, p, i, t');
    assert LoadAct(d, p, e).value.proc.tasks == SetTask(p, i, t').tasks;
  }

  /** Steps of `life` itself keep its invariant. */
  lemma ActKeepsOwnInv(d: Disk, p: Proc, life: Life, e: Event)
    requires DiskDated(d) && ProcDated(d, p) && OwnInv(d, p, life) && Act(d, p, life, e).Some?
    ensures var r := Act(d, p, life, e).value; OwnInv(r.disk, r.proc, life)
  {
    match e
    case Write(Commit(t)) => CommitKeepsOwnInv(d, p, life, t);
    case Write(Invalidate(t)) => InvalidateKeepsOwnInv(d, p, life, t);
    case Get(x) => GetKeepsOwnInv(d, p, life, x);
    case Load(x) =>
      if x.LoadCalls? {
        LoadCallsKeepsOwnInv(d, p, life, x.task);
      } else if x.PublishSet? || x.Replace? || x.WriteStamp? {
        PublishKeepsOwnInv(d, p, life, x);
      } else {
        StageKeepsOwnInv(d, p, life, x);
      }
  }

  lemma StartEstablishesOwnInv(d: Disk, life: Life)
    requires DiskDated(d) && life !in d.log
    ensures OwnInv(d, Proc(StartCache(d), Free, [], {}), life)
  {
  }

  /** Only a process in its window changes the snapshot or the stamp. */
  lemma OutsideWindow(d: Disk, p: Proc, me: Life, e: Event)
    requires Act(d, p, me, e).Some? && !InWindow(p)
    ensures var r := Act(d, p, me, e).value;
            && r.disk.snapshot == d.snapshot && r.disk.stamp == d.stamp
            && (r.disk.log == d.log || r.disk.log == d.log + [me]) && d.main <= r.disk.main
  {
  }

  lemma StepKeepsOwnInv(w: World, s: Step, w': World, life: Life)
    requires WorldDated(w) && Alone(w, life) && StepTo(w, s, w')
    requires OwnInv(w.disk, w.procs[life], life)
    requires life in w'.procs
    ensures OwnInv(w'.disk, w'.procs[life], life)
  {
    match s
    case Local(q, e) =>
      if q == life {
        ActKeepsOwnInv(w.disk, w.procs[q], life, e);
      } else {
        OutsideWindow(w.disk, w.procs[q], q, e);
        OwnInvIsStable(w.disk, w'.disk, w.procs[life], life);
      }
    case Checkpoint(_, _) => OwnInvIsStable(w.disk, w'.disk, w.procs[life], life);
    case Start(_) =>
    case Crash(_) =>
  }

  /** A process that alone publishes only makes safe steps. */
  lemma AloneStepIsSafe(w: World, s: Step, w': World, life: Life)
    requires WorldDated(w) && Alone(w, life) && StepTo(w, s, w') && OwnInv(w.disk, w.procs[life], life)
    ensures SafeStep(w, s)
  {
    if s.Local? && s.event == Load(Replace) {
      assert InWindow(w.procs[s.life]);
      assert TaskDated(w.disk, TaskToReplace(w, life));
    }
  }

  /**
   A run, safe up to the world k0 in which `life` has just started, from which on it is the only
   one to publish snapshots.
   */
  ghost predicate Session(ws: seq<World>, k0: nat, life: Life) {
    && Run(ws)
    && 0 < k0 < |ws|
    && life !in ws[k0 - 1].procs
    && SafeRun(ws[..k0])
    && (forall k :: k0 <= k < |ws| ==> Alone(ws[k], life))
  }

  lemma NextEstablishesOwnInv(w: World, w': World, life: Life)
    requires WorldDated(w) && Next(w, w') && life !in w.procs && life in w'.procs
    ensures WorldDated(w') && OwnInv(w'.disk, w'.procs[life], life)
    ensures FreshFrom(w'.disk, w'.procs[life], w'.disk.main)
  {
    var s :| StepTo(w, s, w');
    assert s == Start(life);
    StepKeepsDated(w, s, w');
    StartEstablishesOwnInv(w.disk, life);
  }

  lemma NextKeepsOwnInv(w: World, w': World, life: Life)
    requires WorldDated(w) && Alone(w, life) && Next(w, w') && life in w'.procs
    requires OwnInv(w.disk, w.procs[life], life)
    ensures WorldDated(w') && OwnInv(w'.disk, w'.procs[life], life)
  {
    var s :| StepTo(w, s, w');
    AloneStepIsSafe(w, s, w', life);
    StepKeepsDated(w, s, w');
    StepKeepsOwnInv(w, s, w', life);
  }

  lemma SessionPrefix(ws: seq<World>, k0: nat, life: Life, n: nat)
    requires Session(ws, k0, life) && k0 < n < |ws|
    ensures Session(ws[..n], k0, life) && Next(ws[n - 1], ws[n])
    ensures Alone(ws[n - 1], life) && life in ws[n].procs
  {
    RunPrefix(ws, n);
    assert ws[..n][..k0] == ws[..k0];
    assert Alone(ws[n], life);
  }

  lemma SessionBegins(ws: seq<World>, k0: nat, life: Life)
    requires Session(ws, k0, life)
    ensures WorldDated(ws[k0 - 1]) && Next(ws[k0 - 1], ws[k0])
    ensures life !in ws[k0 - 1].procs && life in ws[k0].procs
  {
    RunIsDated(ws[..k0]);
    assert NextAt(ws, k0) && Alone(ws[k0], life);
  }

  lemma {:induction false} SessionKeepsOwnInv(ws: seq<World>, k0: nat, life: Life)
    requires Session(ws, k0, life)
    ensures var w := ws[|ws| - 1]; WorldDated(w) && life in w.procs && OwnInv(w.disk, w.procs[life], life)
    decreases |ws|
  {
    var n := |ws| - 1;
    if n == k0 {
      SessionBegins(ws, k0, life);
      NextEstablishesOwnInv(ws[n - 1], ws[n], life);
    } else {
      var before := ws[..n];
      SessionPrefix(ws, k0, life, n);
      SessionKeepsOwnInv(before, k0, life);
      assert before[|before| - 1] == ws[n - 1];
      NextKeepsOwnInv(ws[n - 1], ws[n], life);
    }
  }

  /******* What a load brings in: at least what was in the main file *******/

  predicate StoreFrom(s: Store, b: nat) {
    match s
    case SymbolsOnly(v) => b <= v
    case Full(c) => b <= c.symbols && b <= c.calls
  }

  /** The store that is served, and the one that the holder of the lock is about to put in place, reach version b. */
  predicate FreshFrom(d: Disk, p: Proc, b: nat) {
    && b <= d.main
    && (p.cache.store.Some? && !p.cache.dirty ==> StoreFrom(p.cache.store.value, b))
    && match p.hold
       case Accepted(_, _) => d.snapshot.Some? ==> StoreFrom(Full(d.snapshot.value), b)
       case SymbolsSeen(_, _, v) => b <= v
       case Publishing(i) => i < |p.tasks| && p.tasks[i].calls.Some? && StoreFrom(Full(Loaded(p.tasks[i])), b)
       case _ => true
  }

  /** A load that passes the test before publishing covers the main file with both halves. */
  lemma PublishCheckCoversMain(d: Disk, p: Proc, i: nat)
    requires DiskDated(d) && ProcDated(d, p) && LoadAct(d, p, PublishCheck(i)).Some?
    requires LoadAct(d, p, PublishCheck(i)).value.proc.hold == Publishing(i)
    ensures p.tasks[i].calls.Some? && CoversMain(d, Loaded(p.tasks[i]))
  {
    assert TaskDated(d, p.tasks[i]);
  }

  /** The holder of the lock is about to publish what it has loaded, which reaches version b. */
  predicate AboutToPublish(d: Disk, p: Proc, i: nat, b: nat) {
    && b <= d.main && p.hold == Publishing(i) && i < |p.tasks|
    && p.tasks[i].stage.CallsRead? && p.tasks[i].calls.Some? && StoreFrom(Full(Loaded(p.tasks[i])), b)
  }

  lemma PublishedReaches(d: Disk, p: Proc, b: nat)
    requires p.hold.Publishing? && AboutToPublish(d, p, p.hold.task, b) && LoadAct(d, p, PublishSet).Some?
    ensures var r := LoadAct(d, p, PublishSet).value; FreshFrom(r.disk, r.proc, b)
  {
  }

  /** Nothing that happens between the test and the publication changes what is published. */
  lemma StepKeepsAboutToPublish(w: World, s: Step, w': World, life: Life, i: nat, b: nat)
    requires life in w.procs && AboutToPublish(w.disk, w.procs[life], i, b)
    requires StepTo(w, s, w') && life in w'.procs && w'.procs[life].hold == Publishing(i)
    ensures AboutToPublish(w'.disk, w'.procs[life], i, b)
  {
    if s.Local? && s.life == life {
      ActKeepsAboutToPublish(w.disk, w.procs[life], life, s.event, i, b);
    } else if s.Local? {
      MainOnlyGrows(w.disk, w.procs[s.life], s.life, s.event);
    }
  }

  lemma MainOnlyGrows(d: Disk, p: Proc, me: Life, e: Event)
    requires Act(d, p, me, e).Some?
    ensures d.main <= Act(d, p, me, e).value.disk.main
  {
  }

  lemma ActKeepsAboutToPublish(d: Disk, p: Proc, me: Life, e: Event, i: nat, b: nat)
    requires AboutToPublish(d, p, i, b) && Act(d, p, me, e).Some? && Act(d, p, me, e).value.proc.hold == Publishing(i)
    ensures var r := Act(d, p, me, e).value; AboutToPublish(r.disk, r.proc, i, b)
  {
  }

  /** The stretch of a run in which a process holds the lock to publish: from the test at j up to the world k. */
  ghost predicate HoldsToPublish(ws: seq<World>, j: nat, k: nat, life: Life, i: nat) {
    && j < k < |ws|
    && StepTo(ws[j], Local(life, Load(PublishCheck(i))), ws[j + 1])
    && forall l :: j < l <= k ==> life in ws[l].procs && ws[l].procs[life].hold == Publishing(i)
  }

  lemma {:induction false} StaysAboutToPublish(ws: seq<World>, j: nat, k: nat, life: Life, i: nat)
    requires Run(ws) && HoldsToPublish(ws, j, k, life, i) && WorldDated(ws[j])
    ensures AboutToPublish(ws[k].disk, ws[k].procs[life], i, ws[j].disk.main)
    decreases k
  {
    if k == j + 1 {
      var p := ws[j].procs[life];
      PublishCheckCoversMain(ws[j].disk, p, i);
    } else {
      StaysAboutToPublish(ws, j, k - 1, life, i);
      assert NextAt(ws, k);
      var s :| StepTo(ws[k - 1], s, ws[k]);
      StepKeepsAboutToPublish(ws[k - 1], s, ws[k], life, i, ws[j].disk.main);
    }
  }

  /**
   So what is served after a publication reaches the main file as it was at the test, whatever
   was committed, checkpointed or read by others between the two.
   */
  lemma PublicationRefreshes(ws: seq<World>, k0: nat, j: nat, k: nat, life: Life, i: nat)
    requires Session(ws, k0, life) && k0 <= j && k + 1 < |ws|
    requires HoldsToPublish(ws, j, k, life, i) && StepTo(ws[k], Local(life, Load(PublishSet)), ws[k + 1])
    ensures life in ws[k + 1].procs && FreshFrom(ws[k + 1].disk, ws[k + 1].procs[life], ws[j].disk.main)
  {
    var before := ws[..j + 1];
    SessionPrefix(ws, k0, life, j + 1);
    SessionKeepsOwnInv(before, k0, life);
    assert before[|before| - 1] == ws[j];
    StaysAboutToPublish(ws, j, k, life, i);
    PublishedReaches(ws[k].disk, ws[k].procs[life], ws[j].disk.main);
  }

  /** What is served after an invalidation has yet to be loaded, and will reach the main file as it is now. */
  lemma InvalidationRefreshes(d: Disk, p: Proc, life: Life, t: Thread)
    requires WriteAct(d, p, life, Invalidate(t)).Some?
    ensures FreshFrom(d, WriteAct(d, p, life, Invalidate(t)).value.proc, d.main)
  {
  }

  lemma GetKeepsFresh(d: Disk, p: Proc, life: Life, e: GetEvent, b: nat)
    requires DiskDated(d) && OwnInv(d, p, life) && GetAct(d, p, e).Some? && FreshFrom(d, p, b)
    ensures var r := GetAct(d, p, e).value; FreshFrom(r.disk, r.proc, b)
  {
  }

  lemma LoadKeepsFresh(d: Disk, p: Proc, e: LoadEvent, b: nat)
    requires DiskDated(d) && ProcDated(d, p) && LoadAct(d, p, e).Some? && FreshFrom(d, p, b)
    ensures var r := LoadAct(d, p, e).value; FreshFrom(r.disk, r.proc, b)
  {
    if e.PublishCheck? && LoadAct(d, p, e).value.proc.hold.Publishing? {
      PublishCheckCoversMain(d, p, e.task);
    } else if e.PublishSet? {
      PublishedReaches(d, p, b);
    }
  }

  lemma ActKeepsFresh(d: Disk, p: Proc, life: Life, e: Event, b: nat)
    requires DiskDated(d) && ProcDated(d, p) && OwnInv(d, p, life) && Act(d, p, life, e).Some?
    requires FreshFrom(d, p, b)
    ensures var r := Act(d, p, life, e).value; FreshFrom(r.disk, r.proc, b)
  {
    match e
    case Write(_) =>
    case Get(x) => GetKeepsFresh(d, p, life, x, b);
    case Load(x) => LoadKeepsFresh(d, p, x, b);
  }

  lemma NextKeepsFresh(w: World, w': World, life: Life, b: nat)
    requires WorldDated(w) && Alone(w, life) && Next(w, w') && life in w'.procs
    requires OwnInv(w.disk, w.procs[life], life) && FreshFrom(w.disk, w.procs[life], b)
    ensures FreshFrom(w'.disk, w'.procs[life], b)
  {
    var s :| StepTo(w, s, w');
    if s.Local? {
      if s.life == life {
        ActKeepsFresh(w.disk, w.procs[life], life, s.event, b);
      } else {
        OutsideWindow(w.disk, w.procs[s.life], s.life, s.event);
      }
    }
  }

  lemma {:induction false} SessionStaysFresh(ws: seq<World>, k0: nat, j: nat, b: nat, life: Life)
    requires Session(ws, k0, life) && k0 <= j < |ws| && life in ws[j].procs
    requires FreshFrom(ws[j].disk, ws[j].procs[life], b)
    ensures var w := ws[|ws| - 1]; life in w.procs && FreshFrom(w.disk, w.procs[life], b)
    decreases |ws|
  {
    var n := |ws| - 1;
    if j < n {
      var before := ws[..n];
      SessionPrefix(ws, k0, life, n);
      SessionKeepsOwnInv(before, k0, life);
      SessionStaysFresh(before, k0, j, b, life);
      assert before[|before| - 1] == ws[n - 1];
      NextKeepsFresh(ws[n - 1], ws[n], life, b);
    }
  }

  /** Every commit from position `from` on was made by `life`. */
  predicate AllOwn(log: seq<Life>, from: nat, life: Life) {
    forall v :: from <= v < |log| ==> log[v] == life
  }

  lemma LaterIsMember(log: seq<Life>, v: nat)
    requires v < |log|
    ensures log[v] in log[v..]
  {
  }

  lemma GoodIsCurrent(k: Knows, v: nat, b: nat)
    requires Good(k, v) && b <= v && k.settled && AllOwn(k.log, b, k.life)
    ensures v == |k.log|
  {
    if v < |k.log| {
      LaterIsMember(k.log, v);
      assert false;
    }
  }

  /**
   The store a process keeps. Once every thread has invalidated after its commits, a store that
   is not dirty misses no commit of this process. And when, at any earlier point, what it served
   reached version b, and all commits from b on are its own, both halves are the current version,
   never two different ones. Such a b is the main file as it was at the start, at any invalidation
   and at any publication.
   */
  lemma CleanStoreIsCurrent(ws: seq<World>, k0: nat, j: nat, b: nat, life: Life)
    requires Session(ws, k0, life) && k0 <= j < |ws| && life in ws[j].procs
    requires FreshFrom(ws[j].disk, ws[j].procs[life], b)
    ensures var w := ws[|ws| - 1];
            && life in w.procs
            && var p := w.procs[life];
               p.unsettled == {} && p.cache.store.Some? && !p.cache.dirty ==>
                 && Covers(w.disk.log, p.cache.store.value.SymbolVersion(), life)
                 && (p.cache.store.value.Full? ==> Covers(w.disk.log, p.cache.store.value.content.calls, life))
                 && (AllOwn(w.disk.log, b, life) ==>
                       p.cache.store.value in {SymbolsOnly(|w.disk.log|), Full(Content(|w.disk.log|, |w.disk.log|))})
  {
    SessionKeepsOwnInv(ws, k0, life);
    SessionStaysFresh(ws, k0, j, b, life);
    var w := ws[|ws| - 1];
    var p := w.procs[life];
    if p.unsettled == {} && p.cache.store.Some? && !p.cache.dirty && AllOwn(w.disk.log, b, life) {
      StoreIsCurrent(KnowsOf(w.disk, p, life), p.cache.store.value, b);
    }
  }

  lemma StoreIsCurrent(k: Knows, s: Store, b: nat)
    requires GoodStore(k, s) && StoreFrom(s, b) && k.settled && AllOwn(k.log, b, k.life)
    ensures s in {SymbolsOnly(|k.log|), Full(Content(|k.log|, |k.log|))}
  {
    match s
    case SymbolsOnly(v) => GoodIsCurrent(k, v, b);
    case Full(c) => GoodIsCurrent(k, c.symbols, b); GoodIsCurrent(k, c.calls, b);
  }

  /** At its start every process has such a point: the main file as it found it. */
  lemma SessionStartsFresh(ws: seq<World>, k0: nat, life: Life)
    requires Session(ws, k0, life)
    ensures life in ws[k0].procs && FreshFrom(ws[k0].disk, ws[k0].procs[life], ws[k0].disk.main)
  {
    SessionBegins(ws, k0, life);
    NextEstablishesOwnInv(ws[k0 - 1], ws[k0], life);
  }

  /**
   Regime (a). What `_snapshot_is_fresh` accepts has the current version in both halves as soon as
   no thread has yet to invalidate and every commit still outside the main file is this process's own.
   */
  lemma AcceptedSnapshotIsCurrent(ws: seq<World>, k0: nat, life: Life)
    requires Session(ws, k0, life)
    ensures var w := ws[|ws| - 1]; var p := w.procs[life];
            && SnapshotIsFresh(w.disk, p.cache)
            && p.unsettled == {}
            && AllOwn(w.disk.log, w.disk.main, life)
            ==> w.disk.snapshot.value == Content(|w.disk.log|, |w.disk.log|)
  {
    SessionKeepsOwnInv(ws, k0, life);
    var w := ws[|ws| - 1];
    var p := w.procs[life];
    if SnapshotIsFresh(w.disk, p.cache) && p.unsettled == {} && AllOwn(w.disk.log, w.disk.main, life) {
      var k := KnowsOf(w.disk, p, life);
      GoodIsCurrent(k, w.disk.snapshot.value.symbols, w.disk.main);
      GoodIsCurrent(k, w.disk.snapshot.value.calls, w.disk.main);
    }
  }
}
