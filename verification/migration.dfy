/** The versioned migration runner (`_migrate_schema` in db/db_base.py). */
module Migration {
  import opened Wrappers

  /** A statement of a migration function; `Autocommit` is one that ends the transaction by itself. */
  datatype Statement<!S> = Write(f: S -> S) | Autocommit

  type Body<!S> = seq<Statement<S>>

  /** The tables, and the rows of schema_version in the order they were inserted. */
  datatype Db<S> = Db(data: S, versions: seq<nat>)

  /** `_get_current_version`: MAX(version), or 0. */
  function CurrentVersion(versions: seq<nat>): nat {
    if versions == [] then 0
    else
      var before := CurrentVersion(versions[..|versions| - 1]);
      if versions[|versions| - 1] > before then versions[|versions| - 1] else before
  }

  function RunBody<S>(body: Body<S>, n: nat, s: S): S
    requires n <= |body|
  {
    if n == 0 then s
    else
      var t := RunBody(body, n - 1, s);
      match body[n - 1]
      case Write(f) => f(t)
      case Autocommit => t
  }

  /** What is durable after n statements, if the transaction is rolled back there. */
  function Durable<S>(body: Body<S>, n: nat, s: S): S
    requires n <= |body|
  {
    if n == 0 then s
    else if body[n - 1].Autocommit? then RunBody(body, n - 1, s)
    else Durable(body, n - 1, s)
  }

  /** The states of the tables before, between and after n statements: each write takes one to its result. */
  ghost predicate StatesOf<S>(states: seq<S>, body: Body<S>, n: nat, s: S) {
    && n <= |body| && |states| == n + 1 && states[0] == s
    && forall i :: 0 <= i < n ==> StepOf(body[i], states[i], states[i + 1])
  }

  ghost predicate StepOf<S>(st: Statement<S>, before: S, after: S) {
    match st
    case Write(f) => after == f(before)
    case Autocommit => after == before
  }

  /** The n statements lead from s to t. */
  ghost predicate Leads<S(!new)>(body: Body<S>, n: nat, s: S, t: S) {
    exists states :: StatesOf(states, body, n, s) && states[n] == t
  }

  /** Of those states, t is the one at the last statement that commits by itself, or the first if there is none. */
  ghost predicate LeavesDurable<S(!new)>(body: Body<S>, n: nat, s: S, t: S) {
    exists c: nat :: LastCommit(body, n, c) && Leads(body, c, s, t)
  }

  predicate LastCommit<S>(body: Body<S>, n: nat, c: nat) {
    && c <= n <= |body| && (c == 0 || body[c - 1].Autocommit?)
    && forall i :: c <= i < n ==> !body[i].Autocommit?
  }

  lemma {:induction false} RunBodyLeads<S(!new)>(body: Body<S>, n: nat, s: S)
    requires n <= |body|
    ensures Leads(body, n, s, RunBody(body, n, s))
  {
    if n == 0 {
      assert StatesOf([s], body, 0, s);
    } else {
      RunBodyLeads(body, n - 1, s);
      var states :| StatesOf(states, body, n - 1, s) && states[n - 1] == RunBody(body, n - 1, s);
      var more := states + [RunBody(body, n, s)];
      assert StatesOf(more, body, n, s);
    }
  }

  lemma {:induction false} DurableIsLeft<S(!new)>(body: Body<S>, n: nat, s: S)
    requires n <= |body|
    ensures LeavesDurable(body, n, s, Durable(body, n, s))
  {
    if n == 0 {
      RunBodyLeads(body, 0, s);
      assert LastCommit(body, 0, 0);
    } else if body[n - 1].Autocommit? {
      RunBodyLeads(body, n, s);
      assert LastCommit(body, n, n);
    } else {
      DurableIsLeft(body, n - 1, s);
      var c: nat :| LastCommit(body, n - 1, c) && Leads(body, c, s, Durable(body, n - 1, s));
      assert LastCommit(body, n, c);
    }
  }

  /** Nothing else is described by this: the statements fix the state they lead to. */
  lemma {:induction false} LeadsToOne<S(!new)>(body: Body<S>, n: nat, s: S, t: S)
    requires Leads(body, n, s, t)
    ensures t == RunBody(body, n, s)
  {
    var states :| StatesOf(states, body, n, s) && states[n] == t;
    if n > 0 {
      assert StatesOf(states[..n], body, n - 1, s) && states[..n][n - 1] == states[n - 1];
      LeadsToOne(body, n - 1, s, states[n - 1]);
      assert StepOf(body[n - 1], states[n - 1], states[n - 1 + 1]);
    }
  }

  /** Each of the versions from + 1 to `to` in order: its statements are applied and its row is added. */
  ghost predicate Migrated<S(!new)>(registry: map<nat, Body<S>>, from: nat, to: nat, a: Db<S>, b: Db<S>)
    decreases to
  {
    if to <= from then a == b
    else
      && to in registry
      && exists mid :: Migrated(registry, from, to - 1, a, mid) && b.versions == mid.versions + [to] &&
                       Leads(registry[to], |registry[to]|, mid.data, b.data)
  }

  /**
   The versions before v were migrated to; of v, what the statements before the fault had committed by
   themselves is left.
   */
  ghost predicate StoppedAt<S(!new)>(registry: map<nat, Body<S>>, from: nat, v: nat, fault: Option<Fault>,
                                     a: Db<S>, b: Db<S>)
  {
    && from < v && v in registry
    && exists mid :: Migrated(registry, from, v - 1, a, mid) && b.versions == mid.versions &&
                     LeavesDurable(registry[v], StatementsRun(fault, v, |registry[v]|), mid.data, b.data)
  }

  lemma {:induction false} UptoMigrates<S(!new)>(db: Db<S>, registry: map<nat, Body<S>>, from: nat, v: nat)
    requires Covers(registry, from, v)
    ensures Migrated(registry, from, v, db, Upto(db, registry, from, v))
    decreases v
  {
    if v > from {
      UptoMigrates(db, registry, from, v - 1);
      RunBodyLeads(registry[v], |registry[v]|, Upto(db, registry, from, v - 1).data);
    }
  }

  lemma InterruptedStops<S(!new)>(db: Db<S>, registry: map<nat, Body<S>>, from: nat, v: nat, fault: Option<Fault>)
    requires from < v && Covers(registry, from, v)
    ensures StoppedAt(registry, from, v, fault, db,
                      Interrupted(db, registry, from, v, StopPoint(fault, v, |registry[v]|)))
  {
    UptoMigrates(db, registry, from, v - 1);
    DurableIsLeft(registry[v], StatementsRun(fault, v, |registry[v]|), Upto(db, registry, from, v - 1).data);
  }

  ghost predicate Atomic<S(!new)>(body: Body<S>) {
    forall st :: st in body ==> st.Write?
  }

  /** An attempt is hit by a failure while migrating to `version`, before statement number `at`. */
  datatype Fault = Fault(version: nat, at: nat)

  predicate Covers<S>(registry: map<nat, Body<S>>, from: nat, to: nat) {
    forall v :: from < v <= to ==> v in registry
  }

  /** The migrations from + 1 to v, each applied once and in order. */
  function Upto<S>(db: Db<S>, registry: map<nat, Body<S>>, from: nat, v: nat): Db<S>
    requires Covers(registry, from, v)
    decreases v
  {
    if v <= from then db
    else
      var before := Upto(db, registry, from, v - 1);
      Db(RunBody(registry[v], |registry[v]|, before.data), before.versions + [v])
  }

  function StopPoint(fault: Option<Fault>, v: nat, size: nat): nat {
    if fault.Some? && fault.value.version == v then fault.value.at else size
  }

  /** How many of a version's statements are run: those before the fault, or all. */
  function StatementsRun(fault: Option<Fault>, v: nat, size: nat): nat {
    if fault.Some? && fault.value.version == v && fault.value.at < size then fault.value.at else size
  }

  datatype Outcome = Done | RegistryGap | NotRegistered | FailedAt(version: nat)

  /** What a run answers when the registry has no gap, and what it leaves of db0. */
  ghost predicate Answers<S>(db0: Db<S>, registry: map<nat, Body<S>>, from: nat, to: nat, fault: Option<Fault>,
                             r: Outcome, db: Db<S>)
  {
    && r != RegistryGap
    && (r == NotRegistered <==> from == 0 < to && 1 !in registry)
    && (r == NotRegistered ==> db == db0)
    && (r == Done ==>
          && Covers(registry, from, to) && db == Upto(db0, registry, from, to)
          && !Hits(registry, from, to, fault) && forall v :: from < v <= to ==> v !in db0.versions)
    && (r.FailedAt? ==>
          && from < r.version <= to && Covers(registry, from, to)
          && db == Interrupted(db0, registry, from, r.version, StopPoint(fault, r.version, |registry[r.version]|))
          && ((Hits(registry, from, to, fault) && fault.value.version == r.version) || r.version in db0.versions))
  }

  class Connection<S(!new)> {
    /** What is on disk, and what the open transaction has made of it. */
    var committed: Db<S>
    var working: Db<S>

    constructor (db: Db<S>)
      ensures committed == db && working == db
    {
      committed, working := db, db;
    }

    method Commit()
      modifies this`committed
      ensures committed == working
    {
      committed := working;
    }

    method Rollback()
      modifies this`working
      ensures working == committed
    {
      working := committed;
    }

    /** The body of one migration; false if a failure stops it. */
    method RunMigration(body: Body<S>, stop: Option<nat>) returns (ok: bool)
      requires working == committed
      modifies this
      ensures ok <==> stop.None? || stop.value >= |body|
      ensures var n := if ok then |body| else stop.value;
              && working == old(working).(data := RunBody(body, n, old(working.data)))
              && committed == old(committed).(data := Durable(body, n, old(committed.data)))
              && Leads(body, n, old(working.data), working.data)
              && LeavesDurable(body, n, old(working.data), committed.data)
    {
      for n := 0 to |body|
        invariant stop.Some? ==> n <= stop.value
        invariant working == old(working).(data := RunBody(body, n, old(working.data)))
        invariant committed == old(committed).(data := Durable(body, n, old(committed.data)))
      {
        if stop == Some(n) {
          RunBodyLeads(body, n, old(working.data));
          DurableIsLeft(body, n, old(working.data));
          return false;
        }
        match body[n]
        case Write(f) => working := working.(data := f(working.data));
        case Autocommit => Commit();
      }
      RunBodyLeads(body, |body|, old(working.data));
      DurableIsLeft(body, |body|, old(working.data));
      ok := true;
    }

    /** One transaction: the body, the version row, commit; on any failure a rollback. */
    method MigrateOne(body: Body<S>, v: nat, stop: Option<nat>) returns (ok: bool)
      requires working == committed
      modifies this
      ensures working == committed
      ensures ok <==> (stop.None? || stop.value > |body|) && v !in old(committed.versions)
      ensures ok ==> committed == Db(RunBody(body, |body|, old(committed.data)), old(committed.versions) + [v])
      ensures !ok ==> var n := if stop.Some? && stop.value < |body| then stop.value else |body|;
                      committed == old(committed).(data := Durable(body, n, old(committed.data)))
    {
      ok := RunMigration(body, stop);
      // the version row is refused if the version is there already
      if !ok || stop == Some(|body|) || v in working.versions {
        Rollback();
        return false;
      }
      working := working.(versions := working.versions + [v]);
      Commit();
    }

    /** The loop of `_migrate_schema` over the versions, each in a transaction of its own. */
    method MigrateVersions(registry: map<nat, Body<S>>, from: nat, to: nat, fault: Option<Fault>) returns (r: Outcome)
      requires working == committed
      requires forall v :: 2 <= v <= to && from < v ==> v in registry
      modifies this
      ensures working == committed
      ensures Answers(old(committed), registry, from, to, fault, r, committed)
    {
      var v := from + 1;
      while v <= to
        invariant from < v && (v <= to + 1 || v == from + 1)
        invariant working == committed
        invariant Covers(registry, from, v - 1) && committed == Upto(old(committed), registry, from, v - 1)
        invariant v > from + 1 ==> from > 0 || 1 in registry
        invariant !Hits(registry, from, v - 1, fault)
        invariant forall x :: from < x < v ==> x !in old(committed.versions)
      {
        if v !in registry {
          return NotRegistered;
        }
        UptoVersions(old(committed), registry, from, v - 1);
        var stop := if fault.Some? && fault.value.version == v then Some(fault.value.at) else None;
        var ok := MigrateOne(registry[v], v, stop);
        if !ok {
          return FailedAt(v);
        }
        v := v + 1;
      }
      r := Done;
    }

    /**
     `_migrate_schema`. Nothing changes if the registry has a gap. A failure at version v leaves what was
     there after v - 1, except for what the body of v committed by itself.
     */
    method MigrateSchema(registry: map<nat, Body<S>>, from: nat, to: nat, fault: Option<Fault>) returns (r: Outcome)
      requires working == committed
      modifies this
      ensures working == committed
      ensures r == RegistryGap <==> exists v :: 2 <= v <= to && from < v && v !in registry
      ensures r == RegistryGap ==> committed == old(committed)
      ensures r != RegistryGap ==> Answers(old(committed), registry, from, to, fault, r, committed)
      ensures r == Done ==> Migrated(registry, from, to, old(committed), committed)
      ensures r.FailedAt? ==> StoppedAt(registry, from, r.version, fault, old(committed), committed)
    {
      var first := if from + 1 >= 2 then from + 1 else 2;
      if exists v :: first <= v <= to && v !in registry {
        return RegistryGap;
      }
      r := MigrateVersions(registry, from, to, fault);
      if r == Done {
        UptoMigrates(old(committed), registry, from, to);
      } else if r.FailedAt? {
        InterruptedStops(old(committed), registry, from, r.version, fault);
      }
    }

    /** The upgrade of an existing database at startup: from the version found to the version of the program. */
    method UpgradeLegacy(registry: map<nat, Body<S>>, to: nat, fault: Option<Fault>) returns (r: Outcome)
      requires working == committed
      requires 0 < CurrentVersion(committed.versions) < to
      modifies this
      ensures working == committed
      ensures var from := CurrentVersion(old(committed.versions));
              if Covers(registry, from, to)
              then committed == Attempt(old(committed), registry, to, fault)
                   && (r == Done <==> !Hits(registry, from, to, fault))
              else r == RegistryGap && committed == old(committed)
    {
      var from := CurrentVersion(committed.versions);
      forall v | v in committed.versions ensures v <= from {
        CurrentVersionIsMax(committed.versions, v);
      }
      r := MigrateSchema(registry, from, to, fault);
    }
  }

  lemma {:induction false} CurrentVersionIsMax(versions: seq<nat>, v: nat)
    requires v in versions
    ensures v <= CurrentVersion(versions)
  {
    var n := |versions| - 1;
    if versions[n] != v {
      CurrentVersionIsMax(versions[..n], v);
    }
  }

  /** What a failure before statement `at` of version v leaves behind. */
  function Interrupted<S>(db: Db<S>, registry: map<nat, Body<S>>, from: nat, v: nat, at: nat): Db<S>
    requires from < v && Covers(registry, from, v)
  {
    var before, body := Upto(db, registry, from, v - 1), registry[v];
    before.(data := Durable(body, if at < |body| then at else |body|, before.data))
  }

  lemma {:induction false} UptoVersions<S>(db: Db<S>, registry: map<nat, Body<S>>, from: nat, v: nat)
    requires Covers(registry, from, v)
    ensures forall x :: x in Upto(db, registry, from, v).versions <==> x in db.versions || from < x <= v
    decreases v
  {
    if v > from {
      UptoVersions(db, registry, from, v - 1);
    }
  }

  /******* Interrupted runs *******/

  lemma {:induction false} AtomicBodyIsNotDurable<S(!new)>(body: Body<S>, n: nat, s: S)
    requires n <= |body| && Atomic(body)
    ensures Durable(body, n, s) == s
  {
    if n > 0 {
      assert body[n - 1] in body;
      AtomicBodyIsNotDurable(body, n - 1, s);
    }
  }

  /** With bodies that do not commit by themselves, a failure at version v leaves exactly the state after v - 1. */
  lemma FailureLeavesPrevious<S(!new)>(db: Db<S>, registry: map<nat, Body<S>>, from: nat, v: nat, at: nat)
    requires from < v && Covers(registry, from, v) && Atomic(registry[v])
    ensures Interrupted(db, registry, from, v, at) == Upto(db, registry, from, v - 1)
  {
    var body := registry[v];
    AtomicBodyIsNotDurable(body, if at < |body| then at else |body|, Upto(db, registry, from, v - 1).data);
  }

  /**
   A body a, then a statement that commits by itself, then b, as in the migration to version 31. A failure
   anywhere in b leaves a committed without its version row, and the next attempt applies a a second time.
   */
  lemma SelfCommitAppliesTwice<S(!new)>(db: Db<S>, registry: map<nat, Body<S>>, from: nat, v: nat,
                                        a: Body<S>, b: Body<S>, at: nat)
    requires from < v && Covers(registry, from, v) && registry[v] == a + [Autocommit] + b
    requires Atomic(b) && |a| < at
    ensures var before, left := Upto(db, registry, from, v - 1), Interrupted(db, registry, from, v, at);
            var once := RunBody(a, |a|, before.data);
            && left == before.(data := once)
            && Upto(left, registry, v - 1, v) == Db(RunBody(b, |b|, RunBody(a, |a|, once)), before.versions + [v])
            && Upto(db, registry, from, v) == Db(RunBody(b, |b|, once), before.versions + [v])
  {
    var body, before := registry[v], Upto(db, registry, from, v - 1);
    var n := if at < |body| then at else |body|;
    var once := RunBody(a, |a|, before.data);
    CommittedHalf(a, b, n, before.data);
    RunOfHalves(a, b, before.data);
    RunOfHalves(a, b, once);
    assert Upto(before.(data := once), registry, v - 1, v - 1) == before.(data := once);
  }

  lemma {:induction false} RunOfFirst<S>(a: Body<S>, more: Body<S>, n: nat, s: S)
    requires n <= |a|
    ensures RunBody(a + more, n, s) == RunBody(a, n, s)
  {
    if n > 0 {
      RunOfFirst(a, more, n - 1, s);
    }
  }

  lemma {:induction false} RunOfSecond<S>(a: Body<S>, b: Body<S>, n: nat, s: S)
    requires n <= |b|
    ensures RunBody(a + b, |a| + n, s) == RunBody(b, n, RunBody(a, |a|, s))
  {
    if n == 0 {
      RunOfFirst(a, b, |a|, s);
    } else {
      RunOfSecond(a, b, n - 1, s);
      assert (a + b)[|a| + n - 1] == b[n - 1];
    }
  }

  lemma RunOfHalves<S>(a: Body<S>, b: Body<S>, s: S)
    ensures RunBody(a + [Autocommit] + b, |a + [Autocommit] + b|, s) == RunBody(b, |b|, RunBody(a, |a|, s))
  {
    var first := a + [Autocommit];
    RunOfSecond(first, b, |b|, s);
    RunOfFirst(a, [Autocommit], |a|, s);
    assert first[|a|] == Autocommit;
  }

  /** Stopped behind its own commit, a body has made durable what came before it, and no more. */
  lemma {:induction false} CommittedHalf<S(!new)>(a: Body<S>, b: Body<S>, n: nat, s: S)
    requires Atomic(b) && |a| < n <= |a| + 1 + |b|
    ensures Durable(a + [Autocommit] + b, n, s) == RunBody(a, |a|, s)
  {
    var body := a + [Autocommit] + b;
    if n == |a| + 1 {
      assert body[|a|] == Autocommit && body == a + ([Autocommit] + b);
      RunOfFirst(a, [Autocommit] + b, |a|, s);
    } else {
      assert body[n - 1] == b[n - |a| - 2] && b[n - |a| - 2] in b;
      CommittedHalf(a, b, n - 1, s);
    }
  }

  lemma {:induction false} UptoInSteps<S>(db: Db<S>, registry: map<nat, Body<S>>, from: nat, v: nat, to: nat)
    requires from <= v <= to && Covers(registry, from, to)
    ensures Upto(Upto(db, registry, from, v), registry, v, to) == Upto(db, registry, from, to)
  {
    if v < to {
      UptoInSteps(db, registry, from, v, to - 1);
    }
  }

  lemma {:induction false} CurrentVersionOfUpto<S>(db: Db<S>, registry: map<nat, Body<S>>, v: nat)
    requires CurrentVersion(db.versions) <= v && Covers(registry, CurrentVersion(db.versions), v)
    ensures CurrentVersion(Upto(db, registry, CurrentVersion(db.versions), v).versions) == v
    decreases v
  {
    if v > CurrentVersion(db.versions) {
      CurrentVersionOfUpto(db, registry, v - 1);
      var before := Upto(db, registry, CurrentVersion(db.versions), v - 1).versions;
      assert (before + [v])[..|before|] == before;
    }
  }

  /** A fault hits an attempt that starts at `from`. */
  predicate Hits<S>(registry: map<nat, Body<S>>, from: nat, to: nat, fault: Option<Fault>) {
    && fault.Some? && from < fault.value.version <= to
    && fault.value.version in registry && fault.value.at <= |registry[fault.value.version]|
  }

  /** One start of the program: migrate from the version found, unless a fault hits. */
  function Attempt<S>(db: Db<S>, registry: map<nat, Body<S>>, to: nat, fault: Option<Fault>): Db<S>
    requires Covers(registry, CurrentVersion(db.versions), to)
  {
    var from := CurrentVersion(db.versions);
    if Hits(registry, from, to, fault) then
      Interrupted(db, registry, from, fault.value.version, fault.value.at)
    else Upto(db, registry, from, to)
  }

  ghost predicate AllAtomic<S(!new)>(registry: map<nat, Body<S>>) {
    forall v :: v in registry ==> Atomic(registry[v])
  }

  /** The states after each of some attempts in a row. */
  ghost predicate Attempts<S>(dbs: seq<Db<S>>, registry: map<nat, Body<S>>, to: nat, faults: seq<Option<Fault>>) {
    && |dbs| == |faults| + 1
    && forall k :: 0 <= k < |faults| ==>
         Covers(registry, CurrentVersion(dbs[k].versions), to) && dbs[k + 1] == Attempt(dbs[k], registry, to, faults[k])
  }

  /** db is what an uninterrupted run from db0 has reached at db's own version. */
  ghost predicate OnTheWay<S>(db0: Db<S>, db: Db<S>, registry: map<nat, Body<S>>, to: nat) {
    var from, v := CurrentVersion(db0.versions), CurrentVersion(db.versions);
    from <= v <= to && Covers(registry, from, to) && db == Upto(db0, registry, from, v)
  }

  lemma AttemptStaysOnTheWay<S(!new)>(db0: Db<S>, db: Db<S>, registry: map<nat, Body<S>>, to: nat, fault: Option<Fault>)
    requires OnTheWay(db0, db, registry, to) && AllAtomic(registry)
    ensures var db' := Attempt(db, registry, to, fault);
            && OnTheWay(db0, db', registry, to)
            && (Hits(registry, CurrentVersion(db.versions), to, fault) || CurrentVersion(db'.versions) == to)
  {
    var from, v := CurrentVersion(db0.versions), CurrentVersion(db.versions);
    var hit := Hits(registry, v, to, fault);
    var reached := if hit then fault.value.version - 1 else to;
    if hit {
      FailureLeavesPrevious(db, registry, v, fault.value.version, fault.value.at);
    }
    UptoInSteps(db0, registry, from, v, reached);
    CurrentVersionOfUpto(db0, registry, reached);
  }

  /**
   However many attempts failed and wherever, the database is always at the state of an uninterrupted
   run to its current version.
   */
  lemma {:induction false} AttemptsStayOnTheWay<S(!new)>(dbs: seq<Db<S>>, registry: map<nat, Body<S>>, to: nat,
                                                         faults: seq<Option<Fault>>, k: nat)
    requires Attempts(dbs, registry, to, faults) && AllAtomic(registry)
    requires OnTheWay(dbs[0], dbs[0], registry, to) && k <= |faults|
    ensures OnTheWay(dbs[0], dbs[k], registry, to)
    decreases k
  {
    if k > 0 {
      AttemptsStayOnTheWay(dbs, registry, to, faults, k - 1);
      assert dbs[(k - 1) + 1] == Attempt(dbs[k - 1], registry, to, faults[k - 1]);
      AttemptStaysOnTheWay(dbs[0], dbs[k - 1], registry, to, faults[k - 1]);
    }
  }

  /** And the first attempt that no fault hits completes that run. */
  lemma UnhitAttemptCompletes<S(!new)>(dbs: seq<Db<S>>, registry: map<nat, Body<S>>, to: nat,
                                       faults: seq<Option<Fault>>, k: nat)
    requires Attempts(dbs, registry, to, faults) && AllAtomic(registry)
    requires OnTheWay(dbs[0], dbs[0], registry, to) && k < |faults|
    requires !Hits(registry, CurrentVersion(dbs[k].versions), to, faults[k])
    ensures dbs[k + 1] == Upto(dbs[0], registry, CurrentVersion(dbs[0].versions), to)
  {
    AttemptsStayOnTheWay(dbs, registry, to, faults, k);
    AttemptStaysOnTheWay(dbs[0], dbs[k], registry, to, faults[k]);
  }
}
