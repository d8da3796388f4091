/**
 The GraphStore cache and its snapshot file (db/db_base.py).

 Many processes share one SQLite database in WAL mode. Each keeps an in-memory
 index of the symbols and calls tables, loads it in two phases, and dumps the
 full index to a snapshot file beside the database. The module describes every
 atomic action of the protocol as a transition, interleaves them freely, and
 says which database versions an index or an accepted snapshot can hold.
 */
module GraphStore {
  import opened Wrappers

  /** One life of a process, from start to exit or crash; never used twice. */
  type Life = nat

  type Thread = nat

  /******* The shared database and snapshot files *******/

  /** For each half of an index, the database version it was read at. */
  datatype Content = Content(symbols: nat, calls: nat)

  /** The side-car of the snapshot: the state the snapshot claims to be read from. */
  datatype Stamp = Stamp(generation: nat, mtime: nat)

  /**
   `log[v]` is the life that made commit number v, so |log| is the current version.
   The first `main` commits are in the main file; the others are still in the WAL.
   `mtime` is the modification time of the main file.
   */
  datatype Disk = Disk(log: seq<Life>, main: nat, mtime: nat,
                       snapshot: Option<Content>, stamp: Option<Stamp>)

  /** The generation a starting process inherits from the stamp. */
  function ReadSnapshotGeneration(d: Disk): nat {
    match d.stamp
    case Some(s) => s.generation
    case None => 0
  }

  /** A checkpoint copies the commits up to `to` into the main file; only a move gives a new mtime. */
  predicate CanMoveFrames(d: Disk, to: nat, mtime: nat) {
    d.main <= to <= |d.log| && (if to == d.main then mtime == d.mtime else mtime > d.mtime)
  }

  /******* One process *******/

  datatype Store =
    | SymbolsOnly(symbols: nat)
    | Full(content: Content)
  {
    function SymbolVersion(): nat {
      match this
      case SymbolsOnly(v) => v
      case Full(c) => c.symbols
    }
  }

  /** The fields guarded by the lock of one database object. */
  datatype Cache = Cache(store: Option<Store>, dirty: bool, generation: nat, loading: bool)

  datatype Stage = Forked | CallsRead | Published | Dumped | Finished

  /** A background load: the generation and mtime it started from and what it has read. */
  datatype Task = Task(token: nat, mtime: nat, symbols: nat, calls: Option<nat>, stage: Stage)

  /** Who holds the lock and how far that thread is; everything but `Free` excludes the others. */
  datatype Hold =
    | Free
    | Entered
    | Flushed
    | Tokened(token: nat)
    | Statted(token: nat, mtime: nat)
    | StampSeen(token: nat, mtime: nat, seen: Option<Stamp>)
    | Accepted(token: nat, mtime: nat)
    | Rejected(token: nat, mtime: nat)
    | SymbolsSeen(token: nat, mtime: nat, symbols: nat)
    | Publishing(task: nat)
    | Replacing(task: nat)
    | Stamping(task: nat)

  /** `unsettled` holds the threads that have committed and not yet invalidated. */
  datatype Proc = Proc(cache: Cache, hold: Hold, tasks: seq<Task>, unsettled: set<Thread>)

  /** What a writing thread does. */
  datatype WriteEvent =
    | Commit(thread: Thread)
    | Invalidate(thread: Thread)

  /** The steps of `_get_graph_store`; from `Enter` on, the lock is held. */
  datatype GetEvent =
    | Enter
    | PassiveCheckpoint(to: nat, now: nat)
    | ReadToken
    | ReadMtime
    | ReadStamp
    | Compare
    | LoadSnapshot
    | SnapshotUnreadable
    | ReadSymbols
    | Install
    | Fail

  /** The steps of `_load_full_graph_store`, on the thread that a get forked. */
  datatype LoadEvent =
    | LoadCalls(task: nat)
    | LoadFail(task: nat)
    | PublishCheck(task: nat)
    | PublishSet
    | Dump(task: nat)
    | WindowCheck(task: nat)
    | Replace
    | WriteStamp
    | WindowFail

  datatype Event =
    | Write(write: WriteEvent)
    | Get(get: GetEvent)
    | Load(load: LoadEvent)

  /******* The critical sections, as functions on the guarded fields *******/

  function StartCache(d: Disk): Cache {
    Cache(None, false, ReadSnapshotGeneration(d), false)
  }

  function InvalidateCache(c: Cache): Cache {
    c.(generation := c.generation + 1, dirty := true, loading := false)
  }

  function DropDirty(c: Cache): Cache {
    if c.dirty then c.(store := None, dirty := false) else c
  }

  function InstallSymbols(c: Cache, symbols: nat): Cache {
    c.(store := Some(SymbolsOnly(symbols)), loading := true)
  }

  function InstallFull(c: Cache, content: Content): Cache {
    c.(store := Some(Full(content)), loading := false)
  }

  function GetFailed(c: Cache): Cache {
    c.(store := None, loading := false)
  }

  function LoadFailed(c: Cache, token: nat): Cache {
    if token == c.generation then c.(loading := false) else c
  }

  /** The test made before publishing, and again before replacing the snapshot. */
  predicate StillCurrent(c: Cache, t: Task, now: nat) {
    t.token == c.generation && !c.dirty && t.mtime == now
  }

  /** What `_snapshot_is_fresh` answers. */
  predicate SnapshotIsFresh(d: Disk, c: Cache) {
    && d.snapshot.Some?
    && d.stamp.Some?
    && d.stamp.value.generation == c.generation
    && d.stamp.value.mtime == d.mtime
  }

  function Loaded(t: Task): Content
    requires t.calls.Some?
  {
    Content(t.symbols, t.calls.value)
  }

  /******* The transition of one event; None when the event cannot happen *******/

  datatype Outcome = Outcome(disk: Disk, proc: Proc)

  function WriteAct(d: Disk, p: Proc, me: Life, e: WriteEvent): Option<Outcome> {
    match e
    case Commit(t) =>
      // the lock guards the index, not the database: a thread may commit while another holds it
      Some(Outcome(d.(log := d.log + [me]), p.(unsettled := p.unsettled + {t})))
    case Invalidate(t) =>
      if p.hold.Free? then
        Some(Outcome(d, p.(cache := InvalidateCache(p.cache), unsettled := p.unsettled - {t})))
      else None
  }

  function GetAct(d: Disk, p: Proc, e: GetEvent): Option<Outcome> {
    match (e, p.hold)
    case (Enter, Free) =>
      var c := DropDirty(p.cache);
      Some(Outcome(d, p.(cache := c, hold := if c.store.Some? then Free else Entered)))
    case (PassiveCheckpoint(to, now), Entered) =>
      if CanMoveFrames(d, to, now) then Some(Outcome(d.(main := to, mtime := now), p.(hold := Flushed))) else None
    case (ReadToken, Flushed) => Some(Outcome(d, p.(hold := Tokened(p.cache.generation))))
    case (ReadMtime, Tokened(token)) => Some(Outcome(d, p.(hold := Statted(token, d.mtime))))
    case (ReadStamp, Statted(token, m)) =>
      Some(Outcome(d, p.(hold := StampSeen(token, m, if d.snapshot.Some? then d.stamp else None))))
    case (Compare, StampSeen(token, m, seen)) =>
      var agrees := seen.Some? && seen.value.generation == p.cache.generation && seen.value.mtime == d.mtime;
      Some(Outcome(d, p.(hold := if agrees then Hold.Accepted(token, m) else Rejected(token, m))))
    case (LoadSnapshot, Accepted(_, _)) =>
      if d.snapshot.Some? then
        Some(Outcome(d, p.(cache := InstallFull(p.cache, d.snapshot.value), hold := Free)))
      else None
    case (SnapshotUnreadable, Accepted(token, m)) => Some(Outcome(d, p.(hold := Rejected(token, m))))
    case (ReadSymbols, Rejected(token, m)) => Some(Outcome(d, p.(hold := SymbolsSeen(token, m, |d.log|))))
    case (Install, SymbolsSeen(token, m, v)) =>
      var t := Task(token, m, v, None, Forked);
      Some(Outcome(d, p.(cache := InstallSymbols(p.cache, v), hold := Free, tasks := p.tasks + [t])))
    case (Fail, hold) =>
      if InGet(hold) then Some(Outcome(d, p.(cache := GetFailed(p.cache), hold := Free))) else None
    case _ => None
  }

  function LoadAct(d: Disk, p: Proc, e: LoadEvent): Option<Outcome> {
    var i := TaskOf(p, e);
    if i >= |p.tasks| then None else
    var t := p.tasks[i];
    match (e, p.hold)
    case (LoadCalls(_), _) =>
      if t.stage.Forked? then
        Some(Outcome(d, SetTask(p, i, t.(calls := Some(|d.log|), stage := CallsRead))))
      else None
    case (LoadFail(_), Free) =>
      if t.stage.Forked? || t.stage.CallsRead? then
        Some(Outcome(d, SetTask(p, i, t.(stage := Finished)).(cache := LoadFailed(p.cache, t.token))))
      else None
    case (PublishCheck(_), Free) =>
      if !t.stage.CallsRead? then None
      else if StillCurrent(p.cache, t, d.mtime) then Some(Outcome(d, p.(hold := Publishing(i))))
      else
        // a load that is no longer current gives up and leaves `loading` as it is
        Some(Outcome(d, SetTask(p, i, t.(stage := Finished))))
    case (PublishSet, Publishing(_)) =>
      if t.calls.Some? then
        Some(Outcome(d, SetTask(p, i, t.(stage := Published)).(cache := InstallFull(p.cache, Loaded(t)), hold := Free)))
      else None
    case (Dump(_), _) =>
      if t.stage.Published? then Some(Outcome(d, SetTask(p, i, t.(stage := Dumped)))) else None
    case (WindowCheck(_), Free) =>
      if !t.stage.Dumped? then None
      else if StillCurrent(p.cache, t, d.mtime) then Some(Outcome(d, p.(hold := Replacing(i))))
      else Some(Outcome(d, SetTask(p, i, t.(stage := Finished))))
    case (Replace, Replacing(_)) =>
      if t.calls.Some? then Some(Outcome(d.(snapshot := Some(Loaded(t))), p.(hold := Stamping(i)))) else None
    case (WriteStamp, Stamping(_)) =>
      Some(Outcome(d.(stamp := Some(Stamp(t.token, t.mtime))), SetTask(p, i, t.(stage := Finished)).(hold := Free)))
    case (WindowFail, hold) =>
      if InWindow(p) then Some(Outcome(d, SetTask(p, i, t.(stage := Finished)).(hold := Free))) else None
    case _ => None
  }

  function Act(d: Disk, p: Proc, me: Life, e: Event): Option<Outcome> {
    match e
    case Write(x) => WriteAct(d, p, me, x)
    case Get(x) => GetAct(d, p, x)
    case Load(x) => LoadAct(d, p, x)
  }

  /** The task a load event is about; under the lock it is the one that took the lock. */
  function TaskOf(p: Proc, e: LoadEvent): nat {
    match e
    case LoadCalls(i) => i
    case LoadFail(i) => i
    case PublishCheck(i) => i
    case Dump(i) => i
    case WindowCheck(i) => i
    case _ => if p.hold.Publishing? || p.hold.Replacing? || p.hold.Stamping? then p.hold.task else |p.tasks|
  }

  function SetTask(p: Proc, i: nat, t: Task): Proc
    requires i < |p.tasks|
  {
    p.(tasks := p.tasks[i := t])
  }

  predicate InGet(h: Hold) {
    !h.Free? && !h.Publishing? && !h.Replacing? && !h.Stamping?
  }

  /** From the test before `os.replace` until the stamp is written. */
  predicate InWindow(p: Proc) {
    p.hold.Replacing? || p.hold.Stamping?
  }

  /******* The whole system *******/

  datatype World = World(disk: Disk, procs: map<Life, Proc>)

  datatype Step =
    | Local(life: Life, event: Event)
    | Checkpoint(to: nat, now: nat)
    | Start(life: Life)
    | Crash(life: Life)

  function Apply(w: World, s: Step): Option<World> {
    match s
    case Local(q, e) =>
      if q in w.procs then
        var r := Act(w.disk, w.procs[q], q, e);
        if r.Some? then Some(World(r.value.disk, w.procs[q := r.value.proc])) else None
      else None
    case Checkpoint(to, now) =>
      if CanMoveFrames(w.disk, to, now) then Some(w.(disk := w.disk.(main := to, mtime := now))) else None
    case Start(q) =>
      if q !in w.procs && q !in w.disk.log then
        Some(w.(procs := w.procs[q := Proc(StartCache(w.disk), Free, [], {})]))
      else None
    case Crash(q) =>
      if q in w.procs then Some(w.(procs := w.procs - {q})) else None
  }

  /** A database without a snapshot, all its commits in the main file, nobody running. */
  predicate Init(w: World) {
    && w.procs == map[]
    && w.disk.main == |w.disk.log|
    && w.disk.snapshot.None?
    && w.disk.stamp.None?
  }

  predicate StepTo(w: World, s: Step, w': World) {
    Apply(w, s) == Some(w')
  }

  ghost predicate Next(w: World, w': World) {
    exists s :: StepTo(w, s, w')
  }

  ghost predicate NextAt(ws: seq<World>, k: nat)
    requires 0 < k < |ws|
  {
    Next(ws[k - 1], ws[k])
  }

  ghost predicate Run(ws: seq<World>) {
    |ws| > 0 && Init(ws[0]) && forall k :: 0 < k < |ws| ==> NextAt(ws, k)
  }

  lemma RunPrefix(ws: seq<World>, n: nat)
    requires Run(ws) && 0 < n < |ws|
    ensures Run(ws[..n]) && Next(ws[n - 1], ws[n])
  {
    forall k | 0 < k < n ensures NextAt(ws[..n], k) {
      assert NextAt(ws, k);
    }
    assert NextAt(ws, n);
  }

  /******* The object that holds the guarded fields *******/

  /**
   The fields of one database object that the lock guards. The small methods are the critical
   sections, each equal to the function that the transitions use for it; `GetGraphStore` and
   `LoadFullGraphStore` run them in the order of the source, on a disk that nobody else touches.
   */
  class GraphCache {
    var store: Option<Store>
    var dirty: bool
    var generation: nat
    var loading: bool

    function View(): Cache
      reads this
    {
      Cache(store, dirty, generation, loading)
    }

    constructor (d: Disk)
      ensures View() == StartCache(d)
    {
      store, dirty, generation, loading := None, false, ReadSnapshotGeneration(d), false;
    }

    method Invalidate()
      modifies this
      ensures View() == InvalidateCache(old(View()))
      ensures forall t: Task, now :: t.token <= old(generation) ==> !StillCurrent(View(), t, now)
    {
      generation := generation + 1;
      dirty := true;
      loading := false;
    }

    /** The head of `_get_graph_store`: the store to serve at once, or None when a load must follow. */
    method EnterGet() returns (hit: Option<Store>)
      modifies this
      ensures View() == DropDirty(old(View())) && !dirty
      ensures hit == store
      ensures hit.Some? ==> hit == old(store) && !old(dirty)
    {
      if dirty {
        store := None;
        dirty := false;
      }
      return store;
    }

    method TakeSnapshot(content: Content)
      modifies this
      ensures View() == InstallFull(old(View()), content)
      ensures !old(dirty) ==> DropDirty(View()).store == Some(Full(content))
    {
      store, loading := Some(Full(content)), false;
    }

    method TakeSymbols(symbols: nat)
      modifies this
      ensures View() == InstallSymbols(old(View()), symbols)
      ensures !old(dirty) ==> DropDirty(View()).store == Some(SymbolsOnly(symbols))
      ensures forall t: Task, now :: StillCurrent(View(), t, now) <==> StillCurrent(old(View()), t, now)
    {
      store, loading := Some(SymbolsOnly(symbols)), true;
    }

    method AbandonGet()
      modifies this
      ensures View() == GetFailed(old(View()))
      ensures DropDirty(View()).store.None?
    {
      store, loading := None, false;
    }

    /** The end of a background load, with the mtime seen under the lock. */
    method Publish(t: Task, now: nat) returns (published: bool)
      requires t.calls.Some?
      modifies this
      ensures published == StillCurrent(old(View()), t, now)
      ensures View() == if published then InstallFull(old(View()), Loaded(t)) else old(View())
    {
      if t.token != generation || dirty || now != t.mtime {
        return false;
      }
      store, loading := Some(Full(Content(t.symbols, t.calls.value))), false;
      return true;
    }

    method AbandonLoad(token: nat)
      modifies this
      ensures View() == LoadFailed(old(View()), token)
      ensures token != old(generation) ==> View() == old(View())
      ensures store == old(store) && (token == generation ==> !loading)
    {
      if token == generation {
        loading := false;
      }
    }

    /**
     `_get_graph_store`: a store that is kept and clean is served as it is; otherwise a fresh snapshot
     that can be read, and failing that the current symbols, with the load that has to follow.
     Nothing is served or kept if the symbols cannot be read either.
     */
    method GetGraphStore(d: Disk, snapshotReadable: bool, symbolsReadable: bool)
      returns (served: Option<Store>, load: Option<Task>)
      modifies this
      ensures store == served && !dirty && generation == old(generation)
      ensures old(store).Some? && !old(dirty) ==> View() == old(View()) && load.None?
      ensures old(store).None? || old(dirty) ==>
                if SnapshotIsFresh(d, old(View())) && snapshotReadable
                then served == Some(Full(d.snapshot.value)) && !loading && load.None?
                else if symbolsReadable
                then served == Some(SymbolsOnly(|d.log|)) && loading
                     && load == Some(Task(generation, d.mtime, |d.log|, None, Forked))
                     && StillCurrent(View(), load.value, d.mtime)
                else served.None? && !loading && load.None?
    {
      load := None;
      served := EnterGet();
      if served.Some? {
        return;
      }
      var token, mtime := generation, d.mtime;
      if SnapshotIsFresh(d, View()) && snapshotReadable {
        TakeSnapshot(d.snapshot.value);
        return store, None;
      }
      if !symbolsReadable {
        AbandonGet();
        return None, None;
      }
      var symbols := |d.log|;
      TakeSymbols(symbols);
      return store, Some(Task(token, mtime, symbols, None, Forked));
    }

    /**
     `_load_full_graph_store`: a load that is no longer current, or that fails, leaves store, snapshot and
     stamp alone; a current one leaves a full store and the fresh snapshot of the same content.
     */
    method LoadFullGraphStore(t: Task, d: Disk, readable: bool) returns (d': Disk)
      modifies this
      ensures generation == old(generation) && dirty == old(dirty)
      ensures !readable || !StillCurrent(old(View()), t, d.mtime) ==> d' == d && store == old(store)
      ensures loading == (old(loading) && (if readable then !StillCurrent(old(View()), t, d.mtime)
                                           else t.token != generation))
      ensures readable && StillCurrent(old(View()), t, d.mtime) ==>
                && store == Some(Full(Content(t.symbols, |d.log|)))
                && d' == d.(snapshot := Some(Content(t.symbols, |d.log|)), stamp := Some(Stamp(t.token, t.mtime)))
                && SnapshotIsFresh(d', View())
    {
      d' := d;
      if !readable {
        AbandonLoad(t.token);
        return;
      }
      var full := t.(calls := Some(|d.log|));
      var published := Publish(full, d.mtime);
      if !published {
        return;
      }
      if t.token == generation && !dirty && d.mtime == t.mtime {
        d' := d.(snapshot := Some(Loaded(full)), stamp := Some(Stamp(t.token, t.mtime)));
      }
    }
  }
}
