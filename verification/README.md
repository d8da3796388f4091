# Call Warden: verified model of its hard core

Call Warden keeps a code graph in SQLite and answers questions about it. This project models the
parts of it whose correctness depends on more than one function, in Dafny 4.11, and proves what
they promise. `dafny verify dfyconfig.toml` checks everything.

| file | models |
|---|---|
| `graph_store.dfy` | the in-memory graph index, its two-phase load and its snapshot file, as a step system of many processes sharing one database in WAL mode; the object with the guarded fields |
| `graph_dated.dfy` | what the mtime alone vouches for in that system, and which replacing of the snapshot is safe |
| `graph_own.dfy` | what a process can rely on while it alone publishes |
| `graph_runs.dfy` | recovery, and runs that show where the promises end |
| `graph_loading.dfy` | the loading flag of that index: which load it speaks of, and when none is left |
| `migration.dfy` | the versioned schema migration runner with faults at any statement |
| `glob_regex.dfy` | the compiler from gitignore patterns to regular expressions, against segment-wise globs |
| `ignore_lines.dfy` | the parser of one ignore line |
| `ignore_eval.dfy` | the flat and the layered last-match-wins evaluator |
| `ignore_walk.dfy` | the matcher object and the directory walk that prunes with rules it is still loading |
| `ignore_order.dfy`, `ignore_exact.dfy` | on which trees that walk prunes with the rules that hold in the end, whatever the rules are |
| `ignore_backslash.dfy` | directory names with a backslash in that walk |
| `ignore_pruning.dfy` | rules, compiled patterns and evaluator together: what pruning can lose |
| `call_chain.dfy` | the batched, layered search for callers and callees |
| `call_cycles.dfy` | depth-bounded cycle detection with canonical rotation |
| `audit_chain.dfy` | the interleaved per-table signature chains, key rotation and the verifier |
| `agents_md.dfy` | the marker block that is rewritten inside AGENTS.md |
| `rule_candidates.dfy` | candidate rules, their review, and the bootstrap seeds |
| `rule_ranking.dfy` | scope matching and ranking of active rules |
| `callee_resolution.dfy` | the five-level callee resolution through four indexes |
| `compile_commands.dfy` | the compiler option parser and the aggregation of entries |
| `text.dfy`, `wrappers.dfy` | splitting, joining and stripping strings; option and result types |

How the source's world appears in the model:

- A database table is a sequence or a map. A database version is the number of commits; the WAL is
  the gap between that number and the number of commits in the main file. A checkpoint that moves
  frames gives the main file a new, later mtime.
- Threads and processes are interleaved step by step. The lock of one database object excludes its own
  threads only; commits and snapshot files are shared by all processes.
- A signature is a free term over key, previous signature and payload hash, in place of HMAC
  (section 2 of RFC 2104) and SHA-256.
- Drawn identifiers, times, rows in query order, `str.lower`, `fnmatch` and the verdict of a single
  pathspec pattern are parameters.
- The source's errors are results. Where the source updates fields or loops, the model does, and each
  such method is proved equal to a specification that the lemmas are about.

Where the code and its documentation disagree, the model follows the code. These are the differences:

- `**` inside a name, as in `a**b`, crosses separators; at the end of a pattern it does what one star does.
- `**` before an escaped separator stands for at least one directory, elsewhere for any number.
- A line that starts with `\!` negates, and a backslash at the end of a line keeps no blanks.
- Leading dots of a path are lost before matching, so `.env` at the root is matched as `env`.
- Directory-only rules apply to files in the fallback evaluator: the contract of `Overwrite` does not depend on the mark.
- `detect_cycles` has a default depth of 10 and misses longer rings. What is proved of it is that every node
  on a cycle that leads to no more nodes than the bound, and every function that calls itself, is in a reported
  one; that every cycle is reported is not claimed.
- Record id and operation of an audit row are not signed, and a chain cut at its end still verifies.
- Two or more include-path hits with exactly one sysroot hit resolve to the sysroot hit.
- A restarted process can serve a stale snapshot until the commits of its last life are checkpointed.
- A load that gives up because the mtime moved leaves its process on symbols only, marked as loading, until the
  next invalidation.
- Inserting the AGENTS.md block into a text with a lone end marker leaves a file that cannot be synced.

## Model

| member | source | states |
|---|---|---|
| GraphOwn.CleanStoreIsCurrent | db/db_base.py:3936-4061 | For any number of processes and any interleaving of commits, invalidations, gets, loads, checkpoints and crashes: once every thread of a process that alone publishes snapshots has invalidated after its commits, its store, if set and not dirty, misses none of its own commits in either half; and if at any earlier point what it served reached version b and all commits from b on are its own, both halves are exactly the current version, never a mix |
| GraphOwn.SessionStartsFresh | db/db_base.py:3883-3893 | The main file as found at the start is such a b |
| GraphOwn.InvalidationRefreshes | db/db_base.py:4148-4161 | The main file at any invalidation is such a b |
| GraphOwn.PublishCheckCoversMain | db/db_base.py:4026-4031 | A load that passes the test before publishing covers the main file with both halves: this is what the mtime in the test is for |
| GraphOwn.PublicationRefreshes | db/db_base.py:4013-4034 | So the main file at the test before any publication is such a b once the store is published, whatever others commit and checkpoint in between |
| GraphOwn.SessionStaysFresh | db/db_base.py:3936-4061 | Once what a process serves reaches version b, it does so for the rest of its session |
| GraphOwn.AcceptedSnapshotIsCurrent | db/db_base.py:3895-3915 | Regime (a): a snapshot whose stamp has the process's generation and the current mtime holds the current version in both halves, as soon as no thread has yet to invalidate and every commit outside the main file is the process's own |
| GraphDated.CheckpointedSnapshotIsCurrent | db/db_base.py:3883-3934 | Regime (b): in any history with restarts, crashes, also between replace and stamp, and overlapping publishing windows, a stamp with the current mtime vouches for the snapshot once all commits are in the main file, as long as every replace was safe; the generation plays no part |
| GraphDated.ReplaceIsSafeExactly | db/db_base.py:4045-4052 | The exact condition: a replace keeps everything dated if and only if the mtime is still the one its load started from, or its content covers the main file, or no stamp with the current mtime is there or about to be written by another process |
| GraphDated.UnsafeReplaceDoesHarm | db/db_base.py:4045-4052 | After any other replace, at once or with the pending stamp, a stamp with the current mtime vouches for a snapshot that lacks commits of the main file |
| GraphDated.ExclusiveRunIsSafe | db/db_base.py:4045-4052 | If publishing windows of different processes never overlap, every replace is safe |
| GraphDated.StepKeepsDated | db/db_base.py:3972-4061 | Every safe step of any process, checkpoint, start and crash keeps the dating invariant: whatever was read after an mtime still covers the main file while the mtime stands |
| GraphDated.RunIsDated | db/db_base.py:3936-4061 | The dating invariant holds in every world of every run whose replaces are safe |
| GraphOwn.ActKeepsOwnInv | db/db_base.py:3936-4061 | Each of the get, load and write steps of a process keeps its own invariant: what carries its generation misses no settled commit of its own |
| GraphOwn.OwnInvIsStable | db/db_base.py:3936-4061 | Steps of other processes and checkpoints keep the invariant of a process |
| GraphOwn.StepKeepsOwnInv | db/db_base.py:3936-4061 | Any step of the whole system keeps the invariant of a process that is the only publisher |
| GraphOwn.StartEstablishesOwnInv | db/db_base.py:3883-3893 | A start that inherits the generation of the stamp establishes that invariant, from the dating invariant alone |
| GraphOwn.SessionKeepsOwnInv | db/db_base.py:3936-4061 | The invariant holds from the start of a process to the end of any run in which it alone publishes |
| GraphRuns.ColdGet | db/db_base.py:3952-4003 | Undisturbed, a get without a usable store or snapshot installs the symbols of the current version and forks one load that carries its generation and mtime |
| GraphRuns.WarmGet | db/db_base.py:3983-3990 | Undisturbed, a get that finds a fresh snapshot serves its content |
| GraphRuns.UnreadableGet | db/db_base.py:3983-4004 | Undisturbed, a get whose fresh snapshot cannot be read installs the current symbols and forks one load |
| GraphRuns.GetFails | db/db_base.py:4005-4009 | A get that fails at any point keeps no store and no flag, and the next one starts over |
| GraphRuns.WindowIsMissed | db/db_base.py:4046-4050 | A load that is no longer current before the window is over and leaves cache and disk alone |
| GraphRuns.WindowFails | db/db_base.py:4046-4056 | A failure in the window gives the lock back and leaves on disk what was written by then |
| GraphRuns.LoadIntoWindow | db/db_base.py:4011-4051 | Undisturbed, any load that is still current, however many went before it, publishes the full store at the current version, dumps it and passes the test before the replace |
| GraphRuns.LeaveWindow | db/db_base.py:4048-4052 | Replace and stamp leave the content of that load on disk under the generation and mtime it was read at |
| GraphRuns.Recovery | db/db_base.py:3936-4061 | From any reachable state in which a process holds no lock and has no usable store, get, load and dump lead it, undisturbed, to a clean full store that is also the fresh snapshot: the snapshot if it was fresh, and otherwise the current version in both halves |
| GraphRuns.ForeignCommitMixesVersions | db/db_base.py:4026-4034 | A reachable state shows what is not promised: a foreign commit still in the WAL leaves a clean full store with its symbols from before it and its calls from after it |
| GraphRuns.PendingCommitMixesVersions | db/db_base.py:4011-4040 | A reachable state shows the condition is needed: with a commit that has not invalidated yet, a clean full store has symbols of version 0 and calls of version 1 |
| GraphLoading.LoadingOutlivesItsLoad | db/db_base.py:4028-4034 | Such a state is reachable: another process commits and checkpoints between the two phases of a load |
| GraphLoading.LoadingMeans | db/db_base.py:3998-4034 | In every reachable state a store marked as loading is a clean symbols-only store, exactly one load has its generation, and that load is on its way or has finished after the mtime moved |
| GraphLoading.OrphanedExactly | db/db_base.py:4026-4034 | The test before publishing leaves the flag without a load exactly if the mtime moved since the load read it; otherwise the load publishes and clears it |
| GraphLoading.OrphanLasts | db/db_base.py:3957-4034 | From then on no step of the process but an invalidation changes flag or store |
| GraphLoading.ActKeepsLoading | db/db_base.py:3936-4061 | Every get, load and write step keeps the invariant behind this |
| GraphRuns.RestartServesStaleSnapshot | db/db_base.py:3883-3915 | A reachable state in which a restarted process serves a stale snapshot as clean: the last commits of the life before are not in the main file and the inherited generation forgets their invalidations |
| GraphRuns.OverlappingWindowsAcceptStale | db/db_base.py:4045-4052 | A reachable instance of an unsafe replace: with every commit in the main file, an old snapshot is fresh because two processes passed the test before the replace one after the other |
| GraphStore.GraphCache.constructor | db/db_base.py:3883-3893 | A new object starts with no store and the generation of the stamp |
| GraphStore.GraphCache.Invalidate | db/db_base.py:4148-4161 | The critical section equals the transition used in the runs, and no load with an older token can be current afterwards |
| GraphStore.GraphCache.EnterGet | db/db_base.py:3957-3962 | A dirty store is dropped and the flag cleared; what is served at once was there and not dirty |
| GraphStore.GraphCache.Publish | db/db_base.py:4026-4034 | A load publishes exactly when token, dirty flag and mtime still match, and otherwise changes nothing |
| GraphStore.GraphCache.GetGraphStore | db/db_base.py:3957-4009 | The whole call, on a disk nobody else touches: a clean store is served as it is; otherwise the fresh snapshot if it can be read, else the current symbols and a load that is current, else nothing, with nothing kept |
| GraphStore.GraphCache.LoadFullGraphStore | db/db_base.py:4011-4061 | The whole load: failed or overtaken it leaves store, snapshot and stamp alone; current it leaves a full store and a fresh snapshot of the same content; when the loading flag stays set |
| Migration.Connection.RunMigration | db/db_base.py:4474-4476 | A body stopped anywhere leaves in the working state the last of the states its statements lead through one by one, and committed the state at its last own commit, or the old one |
| Migration.Connection.MigrateOne | db/db_base.py:4474-4486 | One version is applied and recorded together, or rolled back to what the body had committed by itself |
| Migration.Connection.MigrateSchema | db/db_base.py:4440-4486 | A registry gap changes nothing; success is exactly the versions from + 1 to to in order, the statements of each applied one by one and its row added; a failure at v leaves the state after v - 1 with what the statements of v before the fault had committed by themselves |
| Migration.Connection.MigrateVersions | db/db_base.py:4469-4486 | The loop over the versions: missing version 1, success and failure are each pinned down, and a version recorded before is never recorded again |
| Migration.RunBodyLeads | db/db_base.py:4474-4476 | The state after n statements is reached from the first by taking each write to its result |
| Migration.LeadsToOne | db/db_base.py:4474-4476 | And by those steps no other state is reached |
| Migration.DurableIsLeft | db/db_base.py:4474-4486 | What a rollback leaves is the state at the last statement that commits by itself, or the first state |
| Migration.Connection.UpgradeLegacy | db/db_base.py:4417-4486 | Starting from the version found, one attempt ends in the state the function Attempt gives and is done exactly when no fault hits; a registry with a gap is refused and changes nothing |
| Migration.FailureLeavesPrevious | db/db_base.py:4482-4486 | For a body that does not commit by itself a failure at v leaves exactly the state and versions after v - 1 |
| Migration.SelfCommitAppliesTwice | db/db_base.py:1973 | For any body with a commit of its own in the middle, as `executescript` makes one in v31, a failure behind it leaves the first half without its version row, and the rerun applies that half twice |
| Migration.AttemptStaysOnTheWay | db/db_base.py:4440-4486 | One interrupted or finished attempt leaves a state that an uninterrupted run passes through |
| Migration.AttemptsStayOnTheWay | db/db_base.py:4440-4486 | After any number of attempts failing anywhere, the database is at the state of an uninterrupted run to its current version |
| Migration.UnhitAttemptCompletes | db/db_base.py:4440-4486 | The first attempt that no fault hits ends in the state of one uninterrupted run |
| Migration.UptoInSteps | db/db_base.py:4469-4481 | Migrating to v and then on to the target equals migrating in one go |
| Migration.CurrentVersionOfUpto | db/db_base.py:4417-4438 | The version read back after migrating to v is v |
| GlobRegex.TranslateToRegex | analyzers/ignore_spec.py:105-164 | The index loop yields the same items as the translation by suffixes |
| GlobRegex.CompiledPatternIsGlob | analyzers/ignore_spec.py:105-164 | For patterns in which `**` is a whole segment, separators escaped or not, and newline-free paths with non-empty segments, search on the compiled pattern succeeds exactly when segment-wise glob matching, defined on the text of the pattern, accepts the path or an ancestor directory, from the root if anchored and from any segment otherwise |
| GlobRegex.NameMeansGlob | analyzers/ignore_spec.py:127-160 | A compiled name matches a segment exactly when the name does as a glob: `*` any text, `?` one character, a backslash the character behind it, anything else itself |
| GlobRegex.TranslateBySegments | analyzers/ignore_spec.py:124-160 | Translating a pattern is translating its segments and joining them; a backslash before a separator belongs to the separator |
| GlobRegex.ItemsAreGlob | analyzers/ignore_spec.py:124-162 | Matching the items of a list of segments from the start is accepting the path or one of its ancestors segment by segment |
| GlobRegex.NameThenTail | analyzers/ignore_spec.py:137-148 | A name pattern with `*` and `?` matches within one segment and hands the rest of the path on |
| GlobRegex.DirsSkipsSegments | analyzers/ignore_spec.py:127-132 | The expression for `**/` skips any number of whole segments and nothing else |
| GlobRegex.AcceptsBelow | analyzers/ignore_spec.py:162 | A match on a text stays one when a slash and anything else is appended |
| GlobRegex.FoundBelow | analyzers/ignore_spec.py:162 | A pattern that matches a directory matches everything below it |
| GlobRegex.OneOrMoreIsDirsBelow | analyzers/ignore_spec.py:133-155 | The expression for `**` and an escaped separator skips at least one whole segment and then any number |
| GlobRegex.StarsInsideNameCrossSegments | analyzers/ignore_spec.py:133-136 | `**` between any two names crosses separators: whatever the names match may be any number of directories apart, where with one star an anchored pattern takes its whole match from the first segment |
| GlobRegex.StarsAtTheEndAreOneStar | analyzers/ignore_spec.py:128-139 | At the end of any pattern without an open backslash `**` finds what one star finds, in every text without a newline |
| IgnoreLines.ParsedRulesAreCanonical | analyzers/ignore_spec.py:167-236 | A parsed rule is not empty, does not end in a slash, and is anchored if it has a slash inside |
| IgnoreLines.EscapedBangNegates | analyzers/ignore_spec.py:197-207 | A line that starts with `\!` gives the same rule as one that starts with `!`: the escape is lost |
| IgnoreLines.TrailingBackslashKeepsNothing | analyzers/ignore_spec.py:184-192 | A backslash at the end of a line does not keep trailing blanks |
| IgnoreLines.CommentsGiveNothing | analyzers/ignore_spec.py:192-196 | A line that starts with a number sign and a line of blanks give no rule |
| IgnoreLines.EscapedSharpIsKept | analyzers/ignore_spec.py:197-200 | Behind a backslash the number sign is read like any other first character of a pattern |
| IgnoreLines.WrittenRuleIsParsed | analyzers/ignore_spec.py:192-236 | Writing a rule down as a line, with its marks in order, and parsing the line gives the same rule: negation, anchor, directory mark and pattern |
| IgnoreEval.Overwrite | analyzers/ignore_spec.py:500-508 | The loop over one list of rules, with its branch for directory-only rules that changes nothing, continues the verdict of the list before |
| IgnoreEval.IsIgnoredLegacy | analyzers/ignore_spec.py:491-526 | The flat evaluator gives the verdict of the concatenated list of scoped rules |
| IgnoreEval.SectionVerdict | analyzers/ignore_spec.py:474-484 | The pattern loop finds whether any pattern matches and what the last match says |
| IgnoreEval.IsIgnoredPathspec | analyzers/ignore_spec.py:434-489 | The layered evaluator gives the verdict of the same concatenated list, without the empty scope of a path that ends in a slash |
| IgnoreEval.LayeredIsLastMatch | analyzers/ignore_spec.py:452-489 | Overriding the baseline ancestor by ancestor equals the last match in the concatenated list |
| IgnoreEval.DecideIsLastMatch | analyzers/ignore_spec.py:499-526 | That verdict is: the last rule in the list that matches decides, and without one nothing is ignored |
| IgnoreEval.DecideConcat | analyzers/ignore_spec.py:485-487 | A list behind another overrides it if anything in it matches, and otherwise leaves it alone |
| IgnoreEval.DirectoriesGetASlash | analyzers/ignore_spec.py:446-479 | With the layered evaluator a rule that wants a slash at the end applies exactly to what is asked about as a directory |
| IgnoreEval.EvaluatorsAgree | analyzers/ignore_spec.py:434-526 | With the same verdict of every rule on every scope the two evaluators agree on every path that does not end in a slash, and on one that does exactly when the directory's own rules match no empty scope or say there what the verdict is without them |
| IgnoreEval.TrailingSlashSeparatesEvaluators | analyzers/ignore_spec.py:469-471 | Every path that ends in a slash has rules on which they differ |
| IgnoreWalk.LeadingDotIsLost | analyzers/ignore_spec.py:423-426 | `.x` and `x` always get the same verdict |
| IgnoreWalk.NormalizeTakesTheStart | analyzers/ignore_spec.py:423-426 | Normalizing takes away dots and slashes at the start and nothing else |
| IgnoreWalk.DotPatternsMissRootNames | analyzers/ignore_spec.py:423-426 | No plain name pattern that starts with a dot matches a file or directory at the root |
| IgnoreWalk.IgnoreMatcher.constructor | analyzers/ignore_spec.py:309-324 | A new matcher has no rules |
| IgnoreWalk.IgnoreMatcher.AddDefaultRules | analyzers/ignore_spec.py:326-342 | Default rules are added in order in front of the workspace's |
| IgnoreWalk.IgnoreMatcher.IsIgnored | analyzers/ignore_spec.py:402-432 | With either evaluator the answer is the verdict on the normalized path with the rules loaded so far |
| IgnoreWalk.IgnoreMatcher.LoadWorkspaceIgnores | analyzers/ignore_spec.py:344-400 | Root rules are appended in order, and the walk does and loads what the visit of the root says, on any tree |
| IgnoreWalk.IgnoreMatcher.ChooseKept | analyzers/ignore_spec.py:392-400 | The directories kept are those neither skipped by name nor ignored by the rules loaded so far, in order, and the verdicts asked for are those |
| IgnoreWalk.IgnoreMatcher.Walk | analyzers/ignore_spec.py:372-400 | Walking top-down with the changing matcher gives the verdicts of the visit and loads its rules |
| IgnoreWalk.IgnoreMatcher.WalkKept | analyzers/ignore_spec.py:392-400 | Descending into the kept directories one after the other gives their verdicts and loads their rules in that order |
| IgnoreExact.WalkIsFinalExactly | analyzers/ignore_spec.py:372-400 | For each evaluator and each tree: every pruning decision of every walk is what the finished matcher answers, whatever stands in the .gitignore files and whatever rules are on file before, if and only if the tree is orderly, that is, the walk that prunes by name alone loads no directory later than it judges one that consults it |
| IgnoreExact.OrderlyWalkIsFinal | analyzers/ignore_spec.py:372-400 | On an orderly tree moreover each directory whose .gitignore was loaded is not ignored in the end, nor is any ancestor |
| IgnoreExact.DisorderlyTreeGoesWrong | analyzers/ignore_spec.py:372-400 | On any other tree one rule in one .gitignore is enough for the walk to keep a directory that the finished matcher ignores |
| IgnoreExact.WrongWalkIsDisorderly | analyzers/ignore_spec.py:392-400 | A walk that keeps what the finished matcher ignores gives the tree away as disorderly |
| IgnoreExact.CleanTreeIsOrderly | analyzers/ignore_spec.py:374-397 | Every tree without a backslash in a directory name is orderly |
| IgnoreExact.VisitTogether | analyzers/ignore_spec.py:378-400 | Until the one directory whose rule can match is loaded, a walk does step by step what the walk that prunes by name alone does, and from there on a part of it |
| IgnoreOrder.VisitIsPart | analyzers/ignore_spec.py:378-400 | Whatever its rules and its evaluator, a walk does some of the steps of the walk that prunes by name alone, in the same order |
| IgnoreOrder.OrderlyWalkIsSettled | analyzers/ignore_spec.py:372-400 | On an orderly tree no walk loads a directory later than it judges one that consults it |
| IgnoreWalk.WalkIsFinal | analyzers/ignore_spec.py:372-400 | In any single walk that loads no directory later than it judges one that consults it, every decision and every loaded directory stands in the end |
| IgnoreWalk.VisitIsHonest | analyzers/ignore_spec.py:392-400 | Every verdict of the walk is the one of the rules on file at that moment |
| IgnoreWalk.SettledVerdictIsFinal | analyzers/ignore_spec.py:372-400 | In such a walk a verdict is the one of the rules on file at the end |
| IgnoreWalk.VisitLoadsKept | analyzers/ignore_spec.py:378-400 | Before a directory is loaded, it and all its ancestors were judged and kept |
| IgnoreWalk.VisitIsTopDown | analyzers/ignore_spec.py:372-400 | No directory is loaded after something below it was judged |
| IgnoreWalk.UnambiguousWalkIsSettled | analyzers/ignore_spec.py:374-397 | Every walk is such a one if normalizing puts no directory on the way to another one that it does not hold |
| IgnoreWalk.CleanWalkIsSettled | analyzers/ignore_spec.py:374-397 | In particular on every tree without a backslash in a name |
| IgnoreWalk.ChildRelIsPath | analyzers/ignore_spec.py:374-396 | What the walk writes for a child, with the backslashes of its ancestors replaced, normalizes to the path of the child |
| IgnoreWalk.VerdictIsStable | analyzers/ignore_spec.py:463-487 | A verdict does not change when the rules of the directories it consults do not, the empty scope aside with the layered evaluator |
| IgnoreBackslash.BackslashNameIsJudgedEarly | analyzers/ignore_spec.py:396-399 | Any tree whose root has a directory x with rules and beside it a directory `x\y` is disorderly: the second is judged before the rules of the first are loaded, and with the rule y in x the walk keeps what the finished matcher ignores |
| IgnorePruning.PruningLosesOnlyNegations | analyzers/ignore_spec.py:372-400 | With the compiled patterns and the fallback evaluator, every path below an ignored directory is ignored unless a negated rule in scope matches that path |
| IgnorePruning.SectionsHitBelow | analyzers/ignore_spec.py:499-524 | Whatever matches a directory in a section matches everything below it in the same section |
| CallChain.LayeredSearch | analyzers/call_chain.py:37-91 | The search from any start with any batch size is exact: level d is the non-empty ring d, each node once with a real link from ring d - 1, up to the bound; the totals are the set sizes |
| CallChain.GetCallChainUp | analyzers/call_chain.py:20-91 | Level d lists, each once and with a real call to a function of the level before, exactly the functions whose shortest chain of calls to the start has d calls; all levels together are those within the bound |
| CallChain.GetCallChainDown | analyzers/call_chain.py:93-163 | Level d lists, each once and with a real call from a function of the level before, exactly the functions to which the shortest chain of calls from the start has d calls; all levels together are those within the bound |
| CallChain.UpIsCallers | analyzers/call_chain.py:56-69 | Upwards the ring at distance d is the functions that call the start in d steps and no fewer, rows without names aside |
| CallChain.DownIsCallees | analyzers/call_chain.py:128-141 | Downwards it is the functions that the start calls in d steps and no fewer |
| CallChain.CollectLevels | analyzers/call_chain.py:37-83 | The loop over depths collects every level up to the bound or the first empty one |
| CallChain.CollectLevel | analyzers/call_chain.py:48-83 | One level queried in chunks finds every new node exactly once, whatever the chunk size and row order |
| CallChain.RingIsShortestDistance | analyzers/call_chain.py:48-83 | A node is on ring d exactly when a path of d links leads to it and no shorter one does |
| CallChain.UpIsDown | analyzers/call_chain.py:20-163 | x is at distance d above y exactly when y is at distance d below x |
| CallChain.RingsStayEmpty | analyzers/call_chain.py:80-83 | Behind an empty level all further levels are empty, so stopping there loses nothing |
| CallChain.ExactIsUnique | analyzers/call_chain.py:37-91 | Two exact answers have the same nodes on every level, whatever the batches and orders were |
| CallCycles.DetectCycles | analyzers/call_chain.py:382-486 | What is reported is always a list of distinct simple cycles of real edges, least node first, within the bound; with fewer than 50 results every node on a cycle from which no more nodes than the bound can be reached is in one of them, whatever the rest of the graph, and so is, with a bound of at least 1, every function that calls itself; with a bound of at least the number of nodes nothing is reported exactly when there is no cycle |
| CallCycles.CycleFinder.Dfs | analyzers/call_chain.py:447-475 | A call of the search leaves stack and path set as they were; if the bound cannot cut it short it visits all that its node leads to and reports the root whenever an edge leads back to it; a node that is on the stack is reported at any depth within the bound |
| CallCycles.CycleFinder.Record | analyzers/call_chain.py:452-462 | Closing the path at a node records its cycle in normal form unless it is there |
| CallCycles.RootOnCycleIsReported | analyzers/call_chain.py:477-482 | If everything reachable from a root was explored with the root on the path, a root on a cycle is in a reported one |
| CallCycles.ReportIsComplete | analyzers/call_chain.py:477-486 | What has been found from each root together is complete in that sense |
| CallCycles.NodesOfGoodCycleAreOnCycle | analyzers/call_chain.py:453-461 | Every node of a reported cycle lies on a directed cycle |
| CallCycles.CanonicalIdentifiesRotations | analyzers/call_chain.py:456-459 | Two simple cycles have the same normal form exactly when they are rotations of each other |
| CallCycles.RotationKeepsCanonical | analyzers/call_chain.py:456-459 | Every rotation of a simple cycle has the same normal form |
| CallCycles.GoodCyclesDifferAsCycles | analyzers/call_chain.py:456-461 | Reported cycles that are rotations of each other are equal, so no cycle is reported twice |
| CallCycles.LongRingIsMissed | analyzers/call_chain.py:449-450 | A ring with more nodes than the depth bound is never reported although all its nodes are on a cycle |
| AuditChain.RunsVerify | db/db_audit_chain.py:222-578 | After any run of signing on any tables and rotations to new key ids at most one key is active, and the report for every table and every limit is clean |
| AuditChain.NextKeepsInv | db/db_audit_chain.py:222-460 | Each signing and each rotation to a new key id keeps that invariant |
| AuditChain.SigningKeepsVerified | db/db_audit_chain.py:408-447 | A signed row keeps a chain verified exactly when looking up its key id gives the key it was signed with |
| AuditChain.RotationKeepsVerified | db/db_audit_chain.py:269-287 | A rotation keeps a chain verified exactly when no row was signed under that key id with another secret |
| AuditChain.BrokenMeans | db/db_audit_chain.py:526-566 | A row is broken exactly when it does not continue its table's chain or its signature is not the expected one |
| AuditChain.ReasonsMean | db/db_audit_chain.py:526-556 | Each reason is given exactly for what it names, once, in the order of the tests |
| AuditChain.ExaminedAre | db/db_audit_chain.py:487-505 | A limit selects the first rows asked for: as many as it allows, a row exactly when fewer than that stand before it, in the order of their ids |
| AuditChain.LastSignatureMeans | db/db_audit_chain.py:411-419 | The predecessor to expect is the signature of the row of the table that has none of the table behind it |
| AuditChain.RotatedKeySigns | db/db_audit_chain.py:222-371 | After a rotation exactly the new key signs, its id leads to it, and no other id leads elsewhere than before |
| AuditChain.CleanReports | db/db_audit_chain.py:487-578 | With nothing broken every report is clean |
| AuditChain.FullReportIsUnion | db/db_audit_chain.py:487-516 | The report on all tables lists exactly the rows of the reports on the single tables |
| AuditChain.LongerChainSameReasons | db/db_audit_chain.py:518-569 | Later rows do not change the verdict on a row |
| AuditChain.SameEndSameChain | db/db_audit_chain.py:133-164 | Two chains of a table without broken rows that end in the same signature have the same links: same length, payloads and signatures, even across databases and keys |
| AuditChain.EditsBeforeTheLastRowAreSeen | db/db_audit_chain.py:518-569 | Replacing any stretch of rows before the last row of a table by a different one leaves a broken row |
| AuditChain.SwapIsSeen | db/db_audit_chain.py:518-569 | Swapping two rows before the last one leaves a broken row, even if their payloads are equal |
| AuditChain.BrokenTableIsReported | db/db_audit_chain.py:558-569 | A broken row is in the unlimited report on its table |
| AuditChain.DescriptionsAreNotSigned | db/db_audit_chain.py:161-164 | Changing record id and operation of any row changes no verdict |
| AuditChain.TruncationIsUnseen | db/db_audit_chain.py:518-569 | Cutting rows off at the end leaves nothing broken |
| AuditChain.AuditDb.constructor | db/db_audit_chain.py:167-180 | The tables start empty |
| AuditChain.AuditDb.GetActiveSigningKey | db/db_audit_chain.py:309-337 | An active key, else the environment key as "hmac", else none as "local" |
| AuditChain.AuditDb.RotateSigningKey | db/db_audit_chain.py:222-294 | Blank ids and empty secrets are refused and change nothing; otherwise the stripped id alone is active, and the id returned was active before |
| AuditChain.AuditDb.SignAuditRecord | db/db_audit_chain.py:373-460 | Exactly one row is appended, with the given table, record, operation and payload, linked to the last row of its table and signed with an active key |
| AuditChain.AuditDb.CheckRow | db/db_audit_chain.py:526-556 | The reasons for one row, in the order they are tested |
| AuditChain.AuditDb.VerifyAuditChain | db/db_audit_chain.py:462-578 | The single pass with remembered signatures counts the rows asked for up to the limit and reports, in order and with their reasons, exactly those broken in the whole chain that are asked for and have fewer than the limit of such rows before them |
| AgentsMd.SyncKeepsTheRest | db/db_agent_rules.py:931-980 | A sync changes only the text from the first start marker through the first end marker, and the next sync finds the start marker in the same place |
| AgentsMd.SyncIsIdempotent | db/db_agent_rules.py:931-980 | Syncing twice with the same rules gives the same text as once exactly when no rendered rule contains the end marker |
| AgentsMd.InsertMakesSyncPossible | db/db_agent_rules.py:1085-1104 | After inserting the block the next sync goes ahead exactly when the old text has no end marker, and then keeps the old text in front |
| AgentsMd.MarkersAfterSplice | db/db_agent_rules.py:932-933 | After a splice the first start marker is the block's own and the first end marker the first one in the block |
| AgentsMd.EndOfBlock | db/db_agent_rules.py:963-971 | The first end marker of a block is its last line exactly when no rendered rule contains one |
| AgentsMd.BlockListsRules | db/db_agent_rules.py:963-972 | Read line by line the block is the start marker, the hint, one line for each rule in order with id, title, severity and text in their places, and the end marker |
| AgentsMd.OccursInLines | db/db_agent_rules.py:971 | A marker occurs in joined lines exactly when it occurs in one of them |
| RuleCandidates.RuleStore.constructor | db/db_agent_rules.py:135-151 | The store starts empty |
| RuleCandidates.RuleStore.CandidateCreate | db/db_agent_rules.py:153-220 | Blank titles and texts are refused; otherwise one pending candidate is added under the drawn id, with title, text, scope, evidence, source, severity and confidence of its form |
| RuleCandidates.RuleStore.CandidateAccept | db/db_agent_rules.py:269-376 | Every refusal and the repeat leave the tables alone, each with its own error; otherwise rule, link and dated review are written together |
| RuleCandidates.RuleStore.CandidateReject | db/db_agent_rules.py:378-455 | Every refusal and the repeat leave the tables alone, each with its own error; otherwise the dated review and the reason are written |
| RuleCandidates.RuleStore.SeedBootstrap | db/db_agent_rules.py:521-655 | A real run applies every seed in order; a dry run reports the same actions and changes nothing; the counts are those of the reported actions |
| RuleCandidates.NormalizeSeverity | db/db_agent_rules.py:124-132 | The result is one of the four severities, and each of them stands for itself |
| RuleCandidates.SeverityIgnoresCase | db/db_agent_rules.py:124-132 | A severity in any mixture of cases stands for itself |
| RuleCandidates.SeedingTwiceIsOnce | db/db_agent_rules.py:551-645 | Seeding again, at any time, skips every seed and changes nothing |
| RuleCandidates.ActionsMean | db/db_agent_rules.py:551-645 | What is reported for a seed is what happens to its row: new, left as it was, or updated with title, text and time of creation as they should be |
| RuleCandidates.SeededRows | db/db_agent_rules.py:551-645 | Seeding leaves other rules alone, gives each seed's rule its text, scope, severity and evidence, and keeps a rule's source |
| RuleCandidates.RunsStayLinked | db/db_agent_rules.py:153-455 | Over all runs of create, accept, reject, seeding and outside removal of rules: accepted candidates link to the rule made from them unless it was removed, and any rule made from a candidate is that link |
| RuleCandidates.AcceptedHaveRules | db/db_agent_rules.py:153-455 | Over all runs in which nobody removes rules every accepted candidate has its rule |
| RuleCandidates.ApplyKeepsLinked | db/db_agent_rules.py:153-455 | Each single call keeps those links |
| RuleCandidates.OneRulePerCandidate | db/db_agent_rules.py:269-376 | No candidate ever has two rules |
| RuleCandidates.StatusMovesOnce | db/db_agent_rules.py:269-455 | Over any run no candidate is lost, its proposal never changes, and its status moves at most once, from pending to accepted or rejected |
| RuleCandidates.RunsStayTidy | db/db_agent_rules.py:182-215 | Over all runs every candidate has a stripped, non-empty title and text, one of the four severities, a source, and a confidence between 0 and 1 |
| RuleCandidates.LinkStays | db/db_agent_rules.py:269-376 | While nobody removes its rule, an accepted candidate and its rule keep their rows over any run |
| RuleCandidates.AcceptRebuilds | db/db_agent_rules.py:318-371 | Accepting makes a new rule exactly when the candidate is pending or its rule was removed; the rule is active and carries the proposal; failures change nothing |
| RuleCandidates.AcceptIsFinal | db/db_agent_rules.py:318-329 | Any time after a successful accept a second one returns the same rule and changes nothing, and a reject is refused |
| RuleCandidates.RejectIsFinal | db/db_agent_rules.py:420-441 | Any time after a successful reject its reason is on record, a second one changes nothing, and an accept is refused |
| RuleRanking.MatchField | db/db_agent_rules.py:1262-1311 | A field adds its label or refuses, exactly when it is stated and not satisfied |
| RuleRanking.MatchScope | db/db_agent_rules.py:1242-1313 | A scope matches exactly when every field it states is satisfied by some listed value, and the labels are those of the stated fields in order |
| RuleRanking.MatchesSpelledOut | db/db_agent_rules.py:1262-1311 | Key by key: which list of the scope is compared with which value of the context, and how |
| RuleRanking.LabelsSpelledOut | db/db_agent_rules.py:1215-1311 | The labels of a match key by key and in order; a global rule has one of its own |
| RuleRanking.GetApplicableRules | db/db_agent_rules.py:1159-1240 | The answer is the first `limit` of the matches among the scanned rules in the order of the stable sort, none for a limit of at most zero |
| RuleRanking.MatchesInMeans | db/db_agent_rules.py:1215-1228 | A scanned rule is among the matches, with its labels, exactly when its scope matches |
| RuleRanking.BestAreReturned | db/db_agent_rules.py:1230-1240 | As many as the limit allows are returned, in order, and no match left out ranks strictly above a returned one |
| RuleRanking.SortSorts | db/db_agent_rules.py:1230-1238 | The sort gives an ordered permutation |
| RuleRanking.OrderOfSeverities | db/db_agent_rules.py:1230-1238 | Critical comes before error, warning, info and anything else in this order; within a severity more fields come first, then newer rules |
| RuleRanking.SortIsStable | db/db_agent_rules.py:1230-1238 | Matches with equal keys keep the order in which they were scanned |
| RuleRanking.UnscannedAreOlder | db/db_agent_rules.py:1200-1213 | An active rule that is not scanned is no newer than 500 that are |
| RuleRanking.CountOfMatchedFields | db/db_agent_rules.py:1217-1236 | The match count is the number of stated fields, one for a global rule, and none for a scope of empty lists, which also matches everywhere |
| RuleRanking.StatingMoreMatchesLess | db/db_agent_rules.py:1262-1313 | Adding a field to a scope never enlarges the set of contexts it matches |
| RuleRanking.ListingMoreMatchesMore | db/db_agent_rules.py:1262-1313 | Adding values to a field that is stated never shrinks it |
| CalleeResolution.BuildSymbolIndex | analyzers/resolved_edges_engine.py:269-306 | Every lookup in the four indexes gives what a scan over the rows gives, with the last row winning where one is kept |
| CalleeResolution.ResolveIncludePath | analyzers/resolved_edges_engine.py:423-493 | The search-path level through the indexes answers with the include path exactly when one of the named rows is under an include path, and otherwise with the system directories exactly when one is under those |
| CalleeResolution.ResolveCallee | analyzers/resolved_edges_engine.py:309-366 | The five levels through the indexes equal the five levels over a scan of the rows |
| CalleeResolution.ComputeEdges | analyzers/resolved_edges_engine.py:131-155 | Each raw call becomes an edge in order or is skipped; edges and skipped add up to the number of calls |
| CalleeResolution.EdgesOf | analyzers/resolved_edges_engine.py:131-155 | The edges are exactly those of the calls whose caller is known |
| CalleeResolution.EdgesFollowCalls | analyzers/resolved_edges_engine.py:131-155 | The edges tell one after the other of the calls with a known caller: caller, resolved callee, name and line of each |
| CalleeResolution.CalleeIsARow | analyzers/resolved_edges_engine.py:337-366 | The id is 0 exactly for unresolved; any other answer is a row of the workspace under its own file with the qualified or simple name asked for |
| CalleeResolution.LevelsByCount | analyzers/resolved_edges_engine.py:337-366 | Which level answers and with which row, by counting rows: the last with the qualified name if any; else the only one of the name, even in the caller's file; else the last in that file; else the only one under an include path; else the only one under the system directories |
| CalleeResolution.IncludeMeans | analyzers/resolved_edges_engine.py:463-471 | A row is under an include path when its normalized file begins with a normalized path, wherever that ends |
| CalleeResolution.SysrootMeans | analyzers/resolved_edges_engine.py:473-481 | It is under the system directories when it is under no include path and its file begins with the last part of one of them |
| CalleeResolution.RivalsAreRuledOut | analyzers/resolved_edges_engine.py:346-366 | A unique simple name is the only row of that name; below level three no row of that name is in the caller's file |
| CalleeResolution.OnlyOneOnPath | analyzers/resolved_edges_engine.py:483-493 | A callee found through the search paths is the only row of its name there |
| CalleeResolution.UnresolvedExactly | analyzers/resolved_edges_engine.py:337-366 | When exactly a call stays unresolved; several include-path hits do not stop a lone sysroot hit |
| CalleeResolution.OrderIsIrrelevant | analyzers/resolved_edges_engine.py:282-304 | The answer is the same for every order of the rows exactly when the qualified name, or failing that the name in the caller's file, is on at most one row |
| CalleeResolution.NormIsNormal | analyzers/resolved_edges_engine.py:496-503 | A normalized path has no backslash and no slash at its end except for the root, and normalizing again changes nothing |
| CalleeResolution.NormDropsSlashes | analyzers/resolved_edges_engine.py:496-503 | Normalizing changes backslashes and drops slashes at the end, and nothing else |
| CalleeResolution.Basename | analyzers/resolved_edges_engine.py:477-478 | The result has no slash, and is the whole path or what stands behind its last slash |
| CompileCommands.CompileEntry.constructor | analyzers/compile_commands.py:34-45 | A new entry has its file and nothing else |
| CompileCommands.CompileEntry.ParseDefine | analyzers/compile_commands.py:215-221 | The macro is set to what stands behind the first equals sign, or to the empty value |
| CompileCommands.CompileEntry.ParseTokens | analyzers/compile_commands.py:139-212 | The index loop with steps of one and two tokens equals parsing by suffixes, with a missing last operand dropped |
| CompileCommands.Define | analyzers/compile_commands.py:215-221 | The name has no equals sign, and name and value together are the token |
| CompileCommands.SpellingsAgree | analyzers/compile_commands.py:152-179 | At any option boundary `-D X` and `-DX`, `-I p` and `-Ip` for non-empty operands, and `-isystem p` and `-I p`, parse to the same entry |
| CompileCommands.UndefineSpellingsDiffer | analyzers/compile_commands.py:195-203 | `-U X` and `-UX` are recorded as different flags |
| CompileCommands.FlagOperandsAreJoined | analyzers/compile_commands.py:181-200 | `-include X` and `-U X` in two tokens are recorded like one token with a blank in it |
| CompileCommands.DanglingOptionIsDropped | analyzers/compile_commands.py:152-200 | An option at the end of the line that lacks its operand leaves no trace |
| CompileCommands.StrayTokenIsDropped | analyzers/compile_commands.py:202-212 | A token behind the compiler that is neither an option nor an operand leaves no trace |
| CompileCommands.ParsedConcat | analyzers/compile_commands.py:139-212 | Parsing a line with all its operands and then more tokens is parsing the rest from there |
| CompileCommands.PrintThenParse | analyzers/compile_commands.py:139-212 | Printing a well-formed entry, its macros in any order, and parsing it gives it back |
| CompileCommands.ParsedSurvivesPrinting | analyzers/compile_commands.py:139-212 | Whatever the tokens, the parsed entry can be printed and parsed back |
| CompileCommands.AppendUnseen | analyzers/compile_commands.py:249-258 | The loop with its seen set appends each new item once |
| CompileCommands.AggregateBuildContext | analyzers/compile_commands.py:224-263 | The loop over entries gives the merge of the single entries |
| CompileCommands.AggregateOfConcat | analyzers/compile_commands.py:224-263 | Aggregating two lists together is merging their aggregates |
| CompileCommands.MergeIsAssociative | analyzers/compile_commands.py:224-263 | Merging does not depend on the grouping |
| CompileCommands.RepeatingEntriesChangesOnlyTheCount | analyzers/compile_commands.py:224-263 | Aggregating the same entries again changes nothing but the file count |
| CompileCommands.PathsInFirstOrder | analyzers/compile_commands.py:249-258 | Include paths and flags are those of all entries together, each once, in the order of first occurrence |
| CompileCommands.LastDefinitionWins | analyzers/compile_commands.py:245-246 | A macro has the value of the last entry that defines it |
| CompileCommands.NoOtherMacros | analyzers/compile_commands.py:245-246 | A macro that no entry defines is not in the aggregate |
| CompileCommands.LastEntryOfFile | analyzers/compile_commands.py:234-261 | A file has its last entry, and every entry is counted |
| CompileCommands.FirstCompilerWins | analyzers/compile_commands.py:241-242 | The compiler is the first one named, if any is |

## Left out

- CheckpointedSnapshotIsCurrent: assumes that every replace was safe; `ReplaceIsSafeExactly` and `UnsafeReplaceDoesHarm` say what that is and what happens otherwise, and `OverlappingWindowsAcceptStale` reaches such a state.
- CleanStoreIsCurrent: a clean store may lack commits of other processes, as in the source, where nothing invalidates it, and `ForeignCommitMixesVersions` reaches a mix; equality with the current version is claimed from the last point on at which what is served covered all foreign commits.
- AcceptedSnapshotIsCurrent: assumes that this process alone publishes snapshots while it runs.
- Recovery: says what an undisturbed process can do, not that it will.
- WalkIsFinal: is about one walk and a condition on its own trace; the exact condition, on the tree alone, is that of `WalkIsFinalExactly`.
- BackslashNameIsJudgedEarly: the two siblings are directories of the root; `DisorderlyTreeGoesWrong` covers every other place.
- CompiledPatternIsGlob: patterns with `**` inside a name are left out, as they are read differently (`StarsInsideNameCrossSegments`) unless they stand at the end (`StarsAtTheEndAreOneStar`).
- IgnoreMatcher: one list of rules stands for the parsed rules and for the pathspec patterns made from the same lines.
- ParsedRulesAreCanonical: regular expressions are compiled from the parsed rule on demand, not stored in it.
- FailureLeavesPrevious: assumes bodies without a commit of their own; `SelfCommitAppliesTwice` shows what happens otherwise.
- DetectCycles: that every simple cycle is reported is not claimed; which ones are depends on the order of neighbours.
- SignAuditRecord: if several keys were active, which one signs is left open, as the query has no order.
- GetApplicableRules: the table is given newest first, as the query delivers it; ties in time keep the given order.
- AcceptIsFinal: assumes that drawn identifiers are new and are not those of the seeds.
- SpellingsAgree: for an operand-less option just before, the next token is its operand and the two spellings differ.
- SQLite itself, SQL text, its locks and recovery, and durability after a power failure.
- The Rust extension and its short cuts, the rollback flags and their cache.
- The bits of HMAC and SHA-256, canonical JSON, the key file, and the security level in reports.
- The bodies of the schema migrations, which are mostly DDL.
- pathspec's own pattern language, character classes, and reading ignore files.
- Progress of a background load: nothing says that a load ends, only what it may publish.
- Error texts, status reports, translations and the sweep of stale temporary files.
- Writing and hashing AGENTS.md and the sync log, including `cleanup_sync_log`, whose age filter alone applies below `keep_latest`.
- Extraction of candidates from quality findings, which only calls the modelled creation.
- The caller map of the edge computation and the copy from the calls table, which add easy look-ups; the map is a parameter.
- Reading compilation databases, shell splitting and path normalization of imports.
- Scopes whose JSON has values that are not lists of strings.
- Branch diff, CI gates, installer, agent registry, command line, daemon client, coverage and issue statistics: easy members.
