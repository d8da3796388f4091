/**
 The matcher object of analyzers/ignore_spec.py and the directory walk that fills it:
 the walk prunes with the very rules it is still collecting.
 */
module IgnoreWalk {
  import opened Text
  import opened GlobRegex
  import opened IgnoreEval

  /******* Asking about one path *******/

  /** Backslashes become slashes, and any run of leading dots and slashes is dropped. */
  function Normalize(relPath: string): string {
    DropDotsAndSlashes(ForwardSlashes(relPath))
  }

  function DropDotsAndSlashes(s: string): (r: string)
    ensures r != "" ==> r[0] != '.' && r[0] != '/'
    ensures s == "" || (s[0] != '.' && s[0] != '/') ==> r == s
  {
    if s != "" && (s[0] == '.' || s[0] == '/') then DropDotsAndSlashes(s[1..]) else s
  }

  /** Normalizing takes away dots and slashes at the start and nothing else. */
  lemma NormalizeTakesTheStart(relPath: string)
    ensures var s, r := ForwardSlashes(relPath), Normalize(relPath);
            && |r| <= |s| && r == s[|s| - |r|..]
            && forall i :: 0 <= i < |s| - |r| ==> s[i] == '.' || s[i] == '/'
  {
    DroppedAtTheStart(ForwardSlashes(relPath));
  }

  lemma {:induction false} DroppedAtTheStart(s: string)
    ensures var r := DropDotsAndSlashes(s);
            && |r| <= |s| && r == s[|s| - |r|..]
            && forall i :: 0 <= i < |s| - |r| ==> s[i] == '.' || s[i] == '/'
  {
    if s != "" && (s[0] == '.' || s[0] == '/') {
      DroppedAtTheStart(s[1..]);
    }
  }

  /** What does not change during the walk: which evaluator answers, and the rules of the root. */
  datatype Config<!R> = Config(b: Backend<R>, layered: bool, global: seq<R>)

  /** The verdict on a path already cut into segments. */
  predicate IgnoredAt<R>(cfg: Config<R>, dirs: map<Parts, seq<R>>, parts: Parts, isDir: bool)
    requires parts != []
  {
    if cfg.layered then Decide(Facing(cfg.b, isDir), Sections(cfg.global, dirs, parts, Consulted(parts, |parts|)))
    else Decide(cfg.b, AllRules(cfg.global, dirs, parts))
  }

  predicate IsIgnoredIn<R>(cfg: Config<R>, dirs: map<Parts, seq<R>>, relPath: string, isDir: bool) {
    var p := Normalize(relPath);
    p != "" && IgnoredAt(cfg, dirs, Split(p, '/'), isDir)
  }

  /** A leading dot does not count: `.x` and `x` always get the same verdict. */
  lemma LeadingDotIsLost<R>(cfg: Config<R>, dirs: map<Parts, seq<R>>, s: string, isDir: bool)
    ensures IsIgnoredIn(cfg, dirs, "." + s, isDir) == IsIgnoredIn(cfg, dirs, s, isDir)
  {
    assert ForwardSlashes("." + s)[1..] == ForwardSlashes(s);
    assert ForwardSlashes("." + s)[0] == '.';
  }

  /** So a pattern that starts with a dot never matches a file or directory at the root. */
  lemma DotPatternsMissRootNames(pattern: string, anchored: bool, name: string)
    requires pattern != "" && pattern[0] == '.' && Without(pattern, '/') && PlainName(pattern)
    requires Without(name, '/') && Without(name, '\\') && Without(name, '\n') && Normalize(name) != ""
    ensures !Search(Regex(anchored, Translate(pattern)), Normalize(name))
  {
    assert ForwardSlashes(name) == name;
    NormalizedName(name);
    var p := Normalize(name);
    SplitPiece(pattern, '/');
    assert |pattern| >= 1 && pattern != "**";
    CompiledPatternIsGlob(pattern, anchored, [p]);
    var segs := SegsOf([pattern]);
    assert segs[0] == Name(pattern);
    forall a, b | 0 <= a < 1 && 0 <= b <= |[p][a..]| ensures !GlobMatches(segs, [p][a..][..b]) {
      assert b == 1 ==> [p][a..][..b] == [p];
    }
  }

  lemma {:induction false} NormalizedName(name: string)
    requires Without(name, '/') && Without(name, '\\') && Without(name, '\n')
    ensures Without(Normalize(name), '/') && Without(Normalize(name), '\n')
  {
    assert ForwardSlashes(name) == name;
    if name != "" && name[0] == '.' {
      assert ForwardSlashes(name[1..]) == name[1..];
      NormalizedName(name[1..]);
    }
  }

  /******* The tree that is walked *******/

  /** A directory: the rules of its own .gitignore, if any, and its subdirectories. */
  datatype Dir<R> = Dir(rules: seq<R>, children: seq<Child<R>>)

  datatype Child<R> = Child(name: string, dir: Dir<R>)

  const SKIPPED_NAMES: set<string> := {
    ".git", ".repo", "node_modules", "target", "dist", "build",
    ".next", "__pycache__", ".venv", "venv", "env", ".tox",
    "out", "output", "obj", "bin", "rootfs", "staging", "sysroot",
    "ccache", "prebuilt", "prebuilts", "blob", "toolchain"
  }

  predicate Skipped(name: string) {
    name in SKIPPED_NAMES || "." <= name
  }

  /** What a file system guarantees of a name. */
  predicate FileName(name: string) {
    name != "" && Without(name, '/')
  }

  /** What it guarantees of a tree: names that differ in each directory, all the way down. */
  predicate FileTree<R>(d: Dir<R>) {
    && (forall i :: 0 <= i < |d.children| ==> FileName(d.children[i].name) && FileTree(d.children[i].dir))
    && (forall i, j :: 0 <= i < j < |d.children| ==> d.children[i].name != d.children[j].name)
  }

  /** The path of a directory as the walk writes it: a backslash in a name becomes a slash. */
  function RelDir(rel: Parts): string {
    ForwardSlashes(Join(rel, '/'))
  }

  function ChildRel(rel: Parts, name: string): string {
    if RelDir(rel) == "" then name else RelDir(rel) + "/" + name
  }

  /** Where the rules of a directory are filed: under the segments of that path. */
  function Key(rel: Parts): Parts {
    Split(RelDir(rel), '/')
  }

  /******* The walk *******/

  /** What the walk does: file the rules of a directory, or ask whether a directory is ignored. */
  datatype Event<R> = Load(path: Parts, rules: seq<R>) | Judge(path: Parts, ignored: bool)

  /** The rules on file after some events. */
  function RulesAfter<R>(m: map<Parts, seq<R>>, es: seq<Event<R>>): map<Parts, seq<R>> {
    if es == [] then m
    else
      var before, last := RulesAfter(m, es[..|es| - 1]), es[|es| - 1];
      match last
      case Load(path, rules) => before[Key(path) := rules]
      case Judge(_, _) => before
  }

  function Loads<R>(d: Dir<R>, rel: Parts): seq<Event<R>> {
    if rel != [] && d.rules != [] then [Load(rel, d.rules)] else []
  }

  /** What the matcher answers about directories, with some rules on file. */
  function Answers<R>(cfg: Config<R>, m: map<Parts, seq<R>>): string -> bool {
    (relPath: string) => IsIgnoredIn(cfg, m, relPath, true)
  }

  predicate Pruned(answers: string -> bool, rel: Parts, name: string) {
    Skipped(name) || answers(ChildRel(rel, name))
  }

  /** A selection of the first n children, in their order. */
  predicate Selection(kept: seq<nat>, n: nat) {
    && |kept| <= n
    && (forall k :: 0 <= k < |kept| ==> kept[k] < n)
    && (forall k, l :: 0 <= k < l < |kept| ==> kept[k] < kept[l])
  }

  /** The children among the first n that are kept. */
  function Kept<R>(answers: string -> bool, d: Dir<R>, rel: Parts, n: nat): (kept: seq<nat>)
    requires n <= |d.children|
    ensures Selection(kept, n)
    ensures forall k :: 0 <= k < |kept| ==> !Pruned(answers, rel, d.children[kept[k]].name)
  {
    if n == 0 then []
    else
      Kept(answers, d, rel, n - 1) + if Pruned(answers, rel, d.children[n - 1].name) then [] else [n - 1]
  }

  /** The questions asked while choosing them; skipped names are not asked about. */
  function Asked<R>(answers: string -> bool, d: Dir<R>, rel: Parts, n: nat): seq<Event<R>>
    requires n <= |d.children|
  {
    if n == 0 then []
    else
      var name := d.children[n - 1].name;
      if Skipped(name) then Asked(answers, d, rel, n - 1)
      else Asked(answers, d, rel, n - 1) + [Judge(rel + [name], answers(ChildRel(rel, name)))]
  }

  lemma {:induction false} AskedAt<R>(answers: string -> bool, d: Dir<R>, rel: Parts, n: nat, i: nat)
    requires n <= |d.children| && i < |Asked(answers, d, rel, n)|
    ensures var e := Asked(answers, d, rel, n)[i];
            && e.Judge? && |e.path| == |rel| + 1 && rel <= e.path
            && e.ignored == answers(ChildRel(rel, e.path[|rel|]))
  {
    if n > 0 && i < |Asked(answers, d, rel, n - 1)| {
      AskedAt(answers, d, rel, n - 1, i);
    }
  }

  lemma AskedShape<R>(answers: string -> bool, d: Dir<R>, rel: Parts, n: nat)
    requires n <= |d.children|
    ensures forall i :: 0 <= i < |Asked(answers, d, rel, n)| ==>
              var e := Asked(answers, d, rel, n)[i]; e.Judge? && |e.path| == |rel| + 1 && rel <= e.path
  {
    forall i | 0 <= i < |Asked(answers, d, rel, n)|
      ensures var e := Asked(answers, d, rel, n)[i]; e.Judge? && |e.path| == |rel| + 1 && rel <= e.path
    {
      AskedAt(answers, d, rel, n, i);
    }
  }

  /** One directory: its rules are filed, all its subdirectories are judged, then the kept ones are visited. */
  function Visit<R>(cfg: Config<R>, m: map<Parts, seq<R>>, d: Dir<R>, rel: Parts): seq<Event<R>>
    decreases d, |d.children| + 1
  {
    var m1 := RulesAfter(m, Loads(d, rel));
    Loads(d, rel) + Asked(Answers(cfg, m1), d, rel, |d.children|) +
        Descend(cfg, m1, d, Kept(Answers(cfg, m1), d, rel, |d.children|), 0, rel)
  }

  /** The kept subdirectories from the k-th on. */
  function Descend<R>(cfg: Config<R>, m: map<Parts, seq<R>>, d: Dir<R>, kept: seq<nat>, k: nat, rel: Parts)
    : seq<Event<R>>
    requires k <= |kept| && Selection(kept, |d.children|)
    decreases d, |kept| - k
  {
    if k == |kept| then []
    else
      var c := d.children[kept[k]];
      var first := Visit(cfg, m, c.dir, rel + [c.name]);
      first + Descend(cfg, RulesAfter(m, first), d, kept, k + 1, rel)
  }

  /******* Rules and verdicts over a stretch of events *******/

  lemma {:induction false} RulesAfterConcat<R>(m: map<Parts, seq<R>>, a: seq<Event<R>>, b: seq<Event<R>>)
    ensures RulesAfter(m, a + b) == RulesAfter(RulesAfter(m, a), b)
  {
    if b == [] {
      assert a + b == a;
    } else {
      assert (a + b)[..|a + b| - 1] == a + b[..|b| - 1];
      RulesAfterConcat(m, a, b[..|b| - 1]);
    }
  }

  lemma {:induction false} JudgingFilesNothing<R>(m: map<Parts, seq<R>>, es: seq<Event<R>>)
    requires forall i :: 0 <= i < |es| ==> es[i].Judge?
    ensures RulesAfter(m, es) == m
  {
    if es != [] {
      JudgingFilesNothing(m, es[..|es| - 1]);
    }
  }

  /** Every verdict is the one of the rules on file at that moment. */
  ghost predicate Honest<R>(cfg: Config<R>, m: map<Parts, seq<R>>, es: seq<Event<R>>) {
    forall i :: 0 <= i < |es| ==> HonestAt(cfg, m, es, i)
  }

  ghost predicate HonestAt<R>(cfg: Config<R>, m: map<Parts, seq<R>>, es: seq<Event<R>>, i: nat)
    requires i < |es|
  {
    es[i].Judge? ==> es[i].ignored == IsIgnoredIn(cfg, RulesAfter(m, es[..i]), Join(es[i].path, '/'), true)
  }

  lemma HonestConcat<R>(cfg: Config<R>, m: map<Parts, seq<R>>, a: seq<Event<R>>, b: seq<Event<R>>)
    requires Honest(cfg, m, a) && Honest(cfg, RulesAfter(m, a), b)
    ensures Honest(cfg, m, a + b)
  {
    var es := a + b;
    forall i | 0 <= i < |es| ensures HonestAt(cfg, m, es, i) {
      if i < |a| {
        assert HonestAt(cfg, m, a, i) && es[..i] == a[..i];
      } else {
        assert HonestAt(cfg, RulesAfter(m, a), b, i - |a|) && es[..i] == a + b[..i - |a|];
        RulesAfterConcat(m, a, b[..i - |a|]);
      }
    }
  }

  /** What the walk writes for a child is, normalized, the path of the child. */
  lemma ChildRelIsPath(rel: Parts, name: string)
    requires rel == [] || Join(rel, '/') != ""
    ensures Normalize(ChildRel(rel, name)) == Normalize(Join(rel + [name], '/'))
  {
    if rel == [] {
      assert Join([name], '/') == name && RelDir(rel) == "";
      assert [] + [name] == [name];
    } else {
      var r := Join(rel, '/');
      JoinBelow(rel, [name], '/');
      ForwardSlashesConcat(r, "/" + name);
      ForwardSlashesConcat(RelDir(rel), "/" + name);
      assert ForwardSlashes(RelDir(rel)) == RelDir(rel);
      assert RelDir(rel) + "/" + name == RelDir(rel) + ("/" + name);
      assert r + "/" + name == r + ("/" + name);
    }
  }

  predicate FilePath(path: Parts) {
    forall i :: 0 <= i < |path| ==> FileName(path[i])
  }

  lemma FilePathHasText(path: Parts)
    requires path != [] && FilePath(path)
    ensures Join(path, '/') != ""
  {
    assert FileName(path[0]);
  }

  /** What is answered about a child is the verdict on its path. */
  lemma AnswersAreVerdicts<R>(cfg: Config<R>, m: map<Parts, seq<R>>, rel: Parts, name: string)
    requires FilePath(rel)
    ensures Answers(cfg, m)(ChildRel(rel, name)) == IsIgnoredIn(cfg, m, Join(rel + [name], '/'), true)
  {
    if rel != [] {
      FilePathHasText(rel);
    }
    ChildRelIsPath(rel, name);
  }

  lemma {:induction false} AskedIsHonest<R>(cfg: Config<R>, m: map<Parts, seq<R>>, d: Dir<R>, rel: Parts, n: nat)
    requires n <= |d.children| && FilePath(rel)
    ensures var es := Asked(Answers(cfg, m), d, rel, n); Honest(cfg, m, es) && RulesAfter(m, es) == m
  {
    var es := Asked(Answers(cfg, m), d, rel, n);
    AskedShape(Answers(cfg, m), d, rel, n);
    JudgingFilesNothing(m, es);
    forall i | 0 <= i < |es| ensures HonestAt(cfg, m, es, i) {
      AskedAt(Answers(cfg, m), d, rel, n, i);
      AnswersAreVerdicts(cfg, m, rel, es[i].path[|rel|]);
      assert es[i].path == rel + [es[i].path[|rel|]];
      JudgingFilesNothing(m, es[..i]);
    }
  }

  lemma {:induction false} VisitIsHonest<R>(cfg: Config<R>, m: map<Parts, seq<R>>, d: Dir<R>, rel: Parts)
    requires FileTree(d) && FilePath(rel)
    ensures Honest(cfg, m, Visit(cfg, m, d, rel))
    decreases d, |d.children| + 1
  {
    var loads := Loads(d, rel);
    var m1 := RulesAfter(m, loads);
    var asked, kept := Asked(Answers(cfg, m1), d, rel, |d.children|), Kept(Answers(cfg, m1), d, rel, |d.children|);
    assert Honest(cfg, m, loads);
    AskedIsHonest(cfg, m1, d, rel, |d.children|);
    HonestConcat(cfg, m, loads, asked);
    RulesAfterConcat(m, loads, asked);
    DescendIsHonest(cfg, m1, d, kept, 0, rel);
    HonestConcat(cfg, m, loads + asked, Descend(cfg, m1, d, kept, 0, rel));
  }

  lemma {:induction false} DescendIsHonest<R>(cfg: Config<R>, m: map<Parts, seq<R>>, d: Dir<R>,
                                              kept: seq<nat>, k: nat, rel: Parts)
    requires k <= |kept| && Selection(kept, |d.children|) && FileTree(d) && FilePath(rel)
    ensures Honest(cfg, m, Descend(cfg, m, d, kept, k, rel))
    decreases d, |kept| - k
  {
    if k < |kept| {
      var c := d.children[kept[k]];
      assert FileName(c.name);
      var first := Visit(cfg, m, c.dir, rel + [c.name]);
      VisitIsHonest(cfg, m, c.dir, rel + [c.name]);
      DescendIsHonest(cfg, RulesAfter(m, first), d, kept, k + 1, rel);
      HonestConcat(cfg, m, first, Descend(cfg, RulesAfter(m, first), d, kept, k + 1, rel));
    }
  }

  /******* When a verdict is final *******/

  /** The segments a question about a path is cut into. */
  function SegmentsOf(path: Parts): Parts {
    Split(Normalize(Join(path, '/')), '/')
  }

  /** How many ancestors an evaluator consults: the layered one passes over an empty scope. */
  function Reach(layered: bool, parts: Parts): nat
    requires parts != []
  {
    if layered then Consulted(parts, |parts|) else |parts| - 1
  }

  /** Rules filed under key are consulted for the path. */
  predicate OnTheWay(layered: bool, key: Parts, path: Parts) {
    |key| <= Reach(layered, SegmentsOf(path)) && key <= SegmentsOf(path)
  }

  /** No directory loaded later is consulted for one judged earlier. */
  ghost predicate Settled<R>(layered: bool, es: seq<Event<R>>) {
    forall i, j :: 0 <= i < j < |es| && es[i].Judge? && es[j].Load? ==>
      !OnTheWay(layered, Key(es[j].path), es[i].path)
  }

  /** Two rule maps agree at a directory: both lack it or both have the same rules. */
  predicate AgreeAt<R(==)>(m: map<Parts, seq<R>>, m': map<Parts, seq<R>>, key: Parts) {
    if key in m then key in m' && m'[key] == m[key] else key !in m'
  }

  /** Rules stay on file unless others are filed under the same key. */
  lemma {:induction false} FiledElsewhere<R>(m: map<Parts, seq<R>>, es: seq<Event<R>>, key: Parts)
    requires forall j :: 0 <= j < |es| && es[j].Load? ==> Key(es[j].path) != key
    ensures AgreeAt(m, RulesAfter(m, es), key)
  {
    if es != [] {
      FiledElsewhere(m, es[..|es| - 1], key);
    }
  }

  /** A verdict only depends on the rules of the proper ancestors of the path. */
  lemma {:induction false} VerdictReadsAncestors<R>(cfg: Config<R>, m: map<Parts, seq<R>>, m': map<Parts, seq<R>>,
                                                    parts: Parts, n: nat)
    requires n < |parts| && forall i :: 0 < i <= n ==> AgreeAt(m, m', parts[..i])
    ensures Sections(cfg.global, m, parts, n) == Sections(cfg.global, m', parts, n)
  {
    if n > 0 {
      VerdictReadsAncestors(cfg, m, m', parts, n - 1);
    }
  }

  lemma VerdictIsStable<R>(cfg: Config<R>, m: map<Parts, seq<R>>, m': map<Parts, seq<R>>, path: Parts, isDir: bool)
    requires forall i :: 0 < i <= Reach(cfg.layered, SegmentsOf(path)) ==> AgreeAt(m, m', SegmentsOf(path)[..i])
    ensures IsIgnoredIn(cfg, m, Join(path, '/'), isDir) == IsIgnoredIn(cfg, m', Join(path, '/'), isDir)
  {
    var parts := SegmentsOf(path);
    VerdictReadsAncestors(cfg, m, m', parts, Reach(cfg.layered, parts));
  }

  /** In a settled stretch the verdict of event i is the one of the rules on file at the end. */
  lemma SettledVerdictIsFinal<R>(cfg: Config<R>, m: map<Parts, seq<R>>, es: seq<Event<R>>, i: nat)
    requires Honest(cfg, m, es) && Settled(cfg.layered, es) && i < |es| && es[i].Judge?
    ensures es[i].ignored == IsIgnoredIn(cfg, RulesAfter(m, es), Join(es[i].path, '/'), true)
  {
    var atThat, later, parts := RulesAfter(m, es[..i]), es[i..], SegmentsOf(es[i].path);
    assert HonestAt(cfg, m, es, i);
    assert es == es[..i] + later;
    RulesAfterConcat(m, es[..i], later);
    forall k | 0 < k <= Reach(cfg.layered, parts) ensures AgreeAt(atThat, RulesAfter(atThat, later), parts[..k]) {
      forall j | 0 <= j < |later| && later[j].Load? ensures Key(later[j].path) != parts[..k] {
        assert later[j] == es[i + j];
      }
      FiledElsewhere(atThat, later, parts[..k]);
    }
    VerdictIsStable(cfg, atThat, RulesAfter(atThat, later), es[i].path, true);
  }

  /******* Which directories are loaded *******/

  /** The directory and all its ancestors were judged, and not ignored. */
  ghost predicate JudgedKept<R>(es: seq<Event<R>>, path: Parts) {
    forall n :: 0 < n <= |path| ==> Judge(path[..n], false) in es
  }

  ghost predicate LoadsKept<R>(before: seq<Event<R>>, es: seq<Event<R>>) {
    forall j :: 0 <= j < |es| && es[j].Load? ==> JudgedKept(before + es, es[j].path)
  }

  lemma LoadsKeptConcat<R>(before: seq<Event<R>>, a: seq<Event<R>>, b: seq<Event<R>>)
    requires LoadsKept(before, a) && LoadsKept(before + a, b)
    ensures LoadsKept(before, a + b)
  {
    var es := a + b;
    assert before + es == before + a + b;
    forall j | 0 <= j < |es| && es[j].Load? ensures JudgedKept(before + es, es[j].path) {
      if j < |a| {
        assert JudgedKept(before + a, a[j].path);
      } else {
        assert JudgedKept(before + a + b, b[j - |a|].path);
      }
    }
  }

  /** A kept child was judged so. */
  lemma {:induction false} KeptWasJudged<R>(answers: string -> bool, d: Dir<R>, rel: Parts, n: nat, i: nat)
    requires i < n <= |d.children| && !Pruned(answers, rel, d.children[i].name)
    ensures Judge(rel + [d.children[i].name], false) in Asked(answers, d, rel, n)
  {
    if i < n - 1 {
      KeptWasJudged(answers, d, rel, n - 1, i);
    } else {
      var es := Asked(answers, d, rel, n);
      assert es[|es| - 1] == Judge(rel + [d.children[i].name], false);
    }
  }

  lemma {:induction false} VisitLoadsKept<R>(cfg: Config<R>, m: map<Parts, seq<R>>, d: Dir<R>, rel: Parts,
                                             before: seq<Event<R>>)
    requires JudgedKept(before, rel)
    ensures LoadsKept(before, Visit(cfg, m, d, rel))
    decreases d, |d.children| + 1
  {
    var loads := Loads(d, rel);
    var m1 := RulesAfter(m, loads);
    var asked, kept := Asked(Answers(cfg, m1), d, rel, |d.children|), Kept(Answers(cfg, m1), d, rel, |d.children|);
    assert LoadsKept(before, loads);
    AskedShape(Answers(cfg, m1), d, rel, |d.children|);
    LoadsKeptConcat(before, loads, asked);
    var upTo := before + (loads + asked);
    forall k | 0 <= k < |kept| ensures JudgedKept(upTo, rel + [d.children[kept[k]].name]) {
      KeptWasJudged(Answers(cfg, m1), d, rel, |d.children|, kept[k]);
      JudgedBelow(upTo, rel, d.children[kept[k]].name);
    }
    DescendLoadsKept(cfg, m1, d, kept, 0, rel, upTo);
    LoadsKeptConcat(before, loads + asked, Descend(cfg, m1, d, kept, 0, rel));
  }

  lemma JudgedBelow<R>(es: seq<Event<R>>, rel: Parts, name: string)
    requires JudgedKept(es, rel) && Judge(rel + [name], false) in es
    ensures JudgedKept(es, rel + [name])
  {
    var path := rel + [name];
    forall n | 0 < n <= |path| ensures Judge(path[..n], false) in es {
      assert n <= |rel| ==> path[..n] == rel[..n];
      assert n == |path| ==> path[..n] == path;
    }
  }

  lemma {:induction false} DescendLoadsKept<R>(cfg: Config<R>, m: map<Parts, seq<R>>, d: Dir<R>, kept: seq<nat>, k: nat,
                                               rel: Parts, before: seq<Event<R>>)
    requires k <= |kept| && Selection(kept, |d.children|)
    requires forall l :: k <= l < |kept| ==> JudgedKept(before, rel + [d.children[kept[l]].name])
    ensures LoadsKept(before, Descend(cfg, m, d, kept, k, rel))
    decreases d, |kept| - k
  {
    if k < |kept| {
      var c := d.children[kept[k]];
      var first := Visit(cfg, m, c.dir, rel + [c.name]);
      VisitLoadsKept(cfg, m, c.dir, rel + [c.name], before);
      forall l | k < l < |kept| ensures JudgedKept(before + first, rel + [d.children[kept[l]].name]) {
        assert JudgedKept(before, rel + [d.children[kept[l]].name]);
      }
      DescendLoadsKept(cfg, RulesAfter(m, first), d, kept, k + 1, rel, before + first);
      LoadsKeptConcat(before, first, Descend(cfg, RulesAfter(m, first), d, kept, k + 1, rel));
    }
  }

  /** Every verdict given is the one under these rules. */
  ghost predicate VerdictsStand<R>(cfg: Config<R>, rules: map<Parts, seq<R>>, es: seq<Event<R>>) {
    forall i :: 0 <= i < |es| && es[i].Judge? ==>
      es[i].ignored == IsIgnoredIn(cfg, rules, Join(es[i].path, '/'), true)
  }

  /** Every directory that was loaded is kept under these rules, and so are its ancestors. */
  ghost predicate LoadedAreKept<R>(cfg: Config<R>, rules: map<Parts, seq<R>>, es: seq<Event<R>>) {
    forall j, n :: 0 <= j < |es| && es[j].Load? && 0 < n <= |es[j].path| ==>
      !IsIgnoredIn(cfg, rules, Join(es[j].path[..n], '/'), true)
  }

  lemma KeptLoadsStand<R>(cfg: Config<R>, rules: map<Parts, seq<R>>, es: seq<Event<R>>)
    requires VerdictsStand(cfg, rules, es) && LoadsKept([], es)
    ensures LoadedAreKept(cfg, rules, es)
  {
    forall j, n | 0 <= j < |es| && es[j].Load? && 0 < n <= |es[j].path|
      ensures !IsIgnoredIn(cfg, rules, Join(es[j].path[..n], '/'), true)
    {
      assert [] + es == es && JudgedKept([] + es, es[j].path);
      var i :| 0 <= i < |es| && es[i] == Judge(es[j].path[..n], false);
    }
  }

  /**
   In any walk that loads no directory later than it judges one which consults it: every
   verdict the walk asked for, to prune or to keep a directory, is what the finished matcher answers, and
   each directory whose .gitignore was loaded is kept by the finished matcher together with all its ancestors.
   */
  lemma WalkIsFinal<R>(cfg: Config<R>, m: map<Parts, seq<R>>, root: Dir<R>)
    requires FileTree(root) && Settled(cfg.layered, Visit(cfg, m, root, []))
    ensures var es := Visit(cfg, m, root, []);
            VerdictsStand(cfg, RulesAfter(m, es), es) && LoadedAreKept(cfg, RulesAfter(m, es), es)
  {
    var es := Visit(cfg, m, root, []);
    VisitIsHonest(cfg, m, root, []);
    forall i | 0 <= i < |es| && es[i].Judge?
      ensures es[i].ignored == IsIgnoredIn(cfg, RulesAfter(m, es), Join(es[i].path, '/'), true)
    {
      SettledVerdictIsFinal(cfg, m, es, i);
    }
    VisitLoadsKept(cfg, m, root, [], []);
    KeptLoadsStand(cfg, RulesAfter(m, es), es);
  }

  /******* Trees on which every walk is settled *******/

  /** The path of one directory is a proper ancestor of another's. */
  predicate Above(path: Parts, other: Parts) {
    |path| < |other| && path <= other
  }

  /** Normalizing puts no directory on the way to another one that it does not hold. */
  ghost predicate Unambiguous<R>(es: seq<Event<R>>) {
    forall i, j :: 0 <= i < |es| && 0 <= j < |es| && es[i].Judge? && es[j].Load? ==>
      OnTheWay(false, Key(es[j].path), es[i].path) ==> Above(es[j].path, es[i].path)
  }

  /** No directory is loaded after something below it was judged. */
  ghost predicate TopDown<R>(es: seq<Event<R>>) {
    forall i, j :: 0 <= i < j < |es| && es[i].Judge? && es[j].Load? ==> !Above(es[j].path, es[i].path)
  }

  /** Nothing happens above rel, and nothing is judged that is not below it. */
  ghost predicate StaysBelow<R>(es: seq<Event<R>>, rel: Parts) {
    forall i :: 0 <= i < |es| ==> rel <= es[i].path && (es[i].Judge? ==> |rel| < |es[i].path|)
  }

  lemma StaysBelowConcat<R>(a: seq<Event<R>>, b: seq<Event<R>>, rel: Parts)
    requires StaysBelow(a, rel) && StaysBelow(b, rel)
    ensures StaysBelow(a + b, rel)
  {
  }

  lemma TopDownConcat<R>(a: seq<Event<R>>, b: seq<Event<R>>)
    requires TopDown(a) && TopDown(b)
    requires forall i, j :: 0 <= i < |a| && 0 <= j < |b| && a[i].Judge? && b[j].Load? ==> !Above(b[j].path, a[i].path)
    ensures TopDown(a + b)
  {
    var es := a + b;
    forall i, j | 0 <= i < j < |es| && es[i].Judge? && es[j].Load? ensures !Above(es[j].path, es[i].path) {
      if i < |a| && j >= |a| {
        assert es[i] == a[i] && es[j] == b[j - |a|];
      }
    }
  }

  /** Filing a directory's own rules and judging its children. */
  lemma HeadIsTopDown<R>(answers: string -> bool, d: Dir<R>, rel: Parts)
    ensures var es := Loads(d, rel) + Asked(answers, d, rel, |d.children|);
            && TopDown(es) && StaysBelow(es, rel)
            && forall i :: 0 <= i < |es| && es[i].Judge? ==> |es[i].path| == |rel| + 1
  {
    AskedShape(answers, d, rel, |d.children|);
  }

  lemma {:induction false} VisitIsTopDown<R>(cfg: Config<R>, m: map<Parts, seq<R>>, d: Dir<R>, rel: Parts)
    requires FileTree(d)
    ensures TopDown(Visit(cfg, m, d, rel)) && StaysBelow(Visit(cfg, m, d, rel), rel)
    decreases d, |d.children| + 1
  {
    var m1 := RulesAfter(m, Loads(d, rel));
    var head, kept := Loads(d, rel) + Asked(Answers(cfg, m1), d, rel, |d.children|),
        Kept(Answers(cfg, m1), d, rel, |d.children|);
    var below := Descend(cfg, m1, d, kept, 0, rel);
    HeadIsTopDown(Answers(cfg, m1), d, rel);
    DescendIsTopDown(cfg, m1, d, kept, 0, rel);
    StaysBelowConcat(head, below, rel);
    TopDownConcat(head, below);
  }

  /** In the visits of the kept children everything is below one of them. */
  ghost predicate BelowSome<R>(es: seq<Event<R>>, d: Dir<R>, kept: seq<nat>, k: nat, rel: Parts)
    requires Selection(kept, |d.children|)
  {
    forall i :: 0 <= i < |es| ==> BelowOne(es[i].path, d, kept, k, rel)
  }

  /** The path is in one of the kept children from the k-th on. */
  ghost predicate BelowOne<R>(path: Parts, d: Dir<R>, kept: seq<nat>, k: nat, rel: Parts)
    requires Selection(kept, |d.children|)
  {
    exists l :: k <= l < |kept| && rel + [d.children[kept[l]].name] <= path
  }

  lemma {:induction false} DescendIsTopDown<R>(cfg: Config<R>, m: map<Parts, seq<R>>, d: Dir<R>,
                                               kept: seq<nat>, k: nat, rel: Parts)
    requires k <= |kept| && Selection(kept, |d.children|) && FileTree(d)
    ensures var es := Descend(cfg, m, d, kept, k, rel);
            && TopDown(es) && BelowSome(es, d, kept, k, rel) && StaysBelow(es, rel)
            && forall i :: 0 <= i < |es| ==> |rel| < |es[i].path|
    decreases d, |kept| - k
  {
    if k < |kept| {
      var c := d.children[kept[k]];
      var first := Visit(cfg, m, c.dir, rel + [c.name]);
      var others := Descend(cfg, RulesAfter(m, first), d, kept, k + 1, rel);
      VisitIsTopDown(cfg, m, c.dir, rel + [c.name]);
      DescendIsTopDown(cfg, RulesAfter(m, first), d, kept, k + 1, rel);
      ChildrenApart(first, others, d, kept, k, rel);
      BelowSomeConcat(first, others, d, kept, k, rel);
      BelowChildIsBelow(first, rel, c.name);
      TopDownConcat(first, others);
    }
  }

  lemma BelowSomeConcat<R>(first: seq<Event<R>>, others: seq<Event<R>>, d: Dir<R>, kept: seq<nat>, k: nat, rel: Parts)
    requires Selection(kept, |d.children|) && k < |kept|
    requires StaysBelow(first, rel + [d.children[kept[k]].name]) && BelowSome(others, d, kept, k + 1, rel)
    ensures BelowSome(first + others, d, kept, k, rel)
  {
    var es := first + others;
    forall i | 0 <= i < |es| ensures BelowOne(es[i].path, d, kept, k, rel) {
      if i < |first| {
        assert rel + [d.children[kept[k]].name] <= first[i].path;
      } else {
        assert BelowOne(others[i - |first|].path, d, kept, k + 1, rel);
      }
    }
  }

  lemma BelowChildIsBelow<R>(es: seq<Event<R>>, rel: Parts, name: string)
    requires StaysBelow(es, rel + [name])
    ensures StaysBelow(es, rel) && forall i :: 0 <= i < |es| ==> |rel| < |es[i].path| && es[i].path[|rel|] == name
  {
    forall i | 0 <= i < |es| ensures rel <= es[i].path && |rel| < |es[i].path| && es[i].path[|rel|] == name {
      assert rel + [name] <= es[i].path;
      assert (rel + [name])[|rel|] == name;
    }
  }

  /** What happens below one kept child and what happens below the later ones have no path in common. */
  lemma ChildrenApart<R>(first: seq<Event<R>>, others: seq<Event<R>>, d: Dir<R>, kept: seq<nat>, k: nat, rel: Parts)
    requires FileTree(d) && Selection(kept, |d.children|) && k < |kept|
    requires StaysBelow(first, rel + [d.children[kept[k]].name]) && BelowSome(others, d, kept, k + 1, rel)
    ensures forall i, j :: 0 <= i < |first| && 0 <= j < |others| ==>
              others[j].path != first[i].path && !Above(others[j].path, first[i].path)
  {
    BelowChildIsBelow(first, rel, d.children[kept[k]].name);
    forall i, j | 0 <= i < |first| && 0 <= j < |others|
      ensures others[j].path != first[i].path && !Above(others[j].path, first[i].path)
    {
      assert BelowOne(others[j].path, d, kept, k + 1, rel);
      var l :| k + 1 <= l < |kept| && rel + [d.children[kept[l]].name] <= others[j].path;
      assert others[j].path[|rel|] == (rel + [d.children[kept[l]].name])[|rel|];
    }
  }

  /**
   On a tree in which normalizing puts no directory on the way to another that it does not hold,
   every walk is settled, because it goes top-down.
   */
  lemma UnambiguousWalkIsSettled<R>(layered: bool, cfg: Config<R>, m: map<Parts, seq<R>>, root: Dir<R>)
    requires FileTree(root) && Unambiguous(Visit(cfg, m, root, []))
    ensures Settled(layered, Visit(cfg, m, root, []))
  {
    VisitIsTopDown(cfg, m, root, []);
  }

  /** A name without a backslash that the walk asks about. */
  predicate CleanName(name: string) {
    FileName(name) && Without(name, '\\')
  }

  predicate CleanDir<R>(d: Dir<R>) {
    forall i :: 0 <= i < |d.children| ==> CleanName(d.children[i].name) && CleanDir(d.children[i].dir)
  }

  predicate CleanPath(path: Parts) {
    (forall i :: 0 <= i < |path| ==> CleanName(path[i])) && (path != [] ==> path[0][0] != '.')
  }

  /** Without backslashes the key of a directory and the segments asked about are its path. */
  lemma CleanPathIsNormal(path: Parts)
    requires path != [] && CleanPath(path)
    ensures Key(path) == path == SegmentsOf(path)
  {
    var s := Join(path, '/');
    NoBackslash(path);
    assert ForwardSlashes(s) == s;
    SplitOfJoin(path, '/');
  }

  lemma {:induction false} NoBackslash(parts: Parts)
    requires parts != [] && CleanName(parts[0]) && forall i :: 0 < i < |parts| ==> CleanName(parts[i])
    ensures var s := Join(parts, '/'); s != "" && s[0] == parts[0][0] && Without(s, '\\')
  {
    if |parts| > 1 {
      NoBackslash(parts[1..]);
    }
  }

  ghost predicate CleanEvents<R>(es: seq<Event<R>>) {
    forall i :: 0 <= i < |es| ==> es[i].path != [] && CleanPath(es[i].path)
  }

  lemma {:induction false} CleanAsked<R>(answers: string -> bool, d: Dir<R>, rel: Parts, n: nat)
    requires n <= |d.children| && CleanDir(d) && CleanPath(rel)
    ensures CleanEvents(Asked(answers, d, rel, n))
  {
    if n > 0 {
      CleanAsked(answers, d, rel, n - 1);
    }
  }

  lemma {:induction false} CleanVisit<R>(cfg: Config<R>, m: map<Parts, seq<R>>, d: Dir<R>, rel: Parts)
    requires CleanDir(d) && CleanPath(rel)
    ensures CleanEvents(Visit(cfg, m, d, rel))
    decreases d, |d.children| + 1
  {
    var m1 := RulesAfter(m, Loads(d, rel));
    CleanAsked(Answers(cfg, m1), d, rel, |d.children|);
    CleanDescend(cfg, m1, d, Kept(Answers(cfg, m1), d, rel, |d.children|), 0, rel);
  }

  lemma {:induction false} CleanDescend<R>(cfg: Config<R>, m: map<Parts, seq<R>>, d: Dir<R>,
                                           kept: seq<nat>, k: nat, rel: Parts)
    requires k <= |kept| && Selection(kept, |d.children|) && CleanDir(d) && CleanPath(rel)
    requires forall l :: 0 <= l < |kept| ==> !Skipped(d.children[kept[l]].name)
    ensures CleanEvents(Descend(cfg, m, d, kept, k, rel))
    decreases d, |kept| - k
  {
    if k < |kept| {
      var c := d.children[kept[k]];
      var first := Visit(cfg, m, c.dir, rel + [c.name]);
      CleanVisit(cfg, m, c.dir, rel + [c.name]);
      CleanDescend(cfg, RulesAfter(m, first), d, kept, k + 1, rel);
    }
  }

  /** Trees without a backslash in a name are unambiguous, and so every walk of them is settled. */
  lemma CleanWalkIsSettled<R>(layered: bool, cfg: Config<R>, m: map<Parts, seq<R>>, root: Dir<R>)
    requires FileTree(root) && CleanDir(root)
    ensures Settled(layered, Visit(cfg, m, root, []))
  {
    var es := Visit(cfg, m, root, []);
    CleanVisit(cfg, m, root, []);
    forall i | 0 <= i < |es| ensures Key(es[i].path) == es[i].path == SegmentsOf(es[i].path) {
      CleanPathIsNormal(es[i].path);
    }
    UnambiguousWalkIsSettled(layered, cfg, m, root);
  }

  /******* The object *******/

  class IgnoreMatcher<R(!new)> {
    const b: Backend<R>
    const dirOnly: R -> bool
    const hasPathspec: bool
    var globalRules: seq<R>
    var dirRules: map<Parts, seq<R>>

    constructor (b: Backend<R>, dirOnly: R -> bool, hasPathspec: bool)
      ensures this.b == b && this.dirOnly == dirOnly && this.hasPathspec == hasPathspec
      ensures globalRules == [] && dirRules == map[]
    {
      this.b, this.dirOnly, this.hasPathspec, globalRules, dirRules := b, dirOnly, hasPathspec, [], map[];
    }

    function Settings(): Config<R>
      reads this`globalRules
    {
      Config(b, hasPathspec, globalRules)
    }

    /** Default rules come first, so that the rules of the workspace can override them. */
    method AddDefaultRules(rules: seq<R>)
      modifies this`globalRules
      ensures globalRules == old(globalRules) + rules
    {
      for k := 0 to |rules|
        invariant globalRules == old(globalRules) + rules[..k]
      {
        globalRules := globalRules + [rules[k]];
      }
    }

    method IsIgnored(relPath: string, isDir: bool) returns (ignored: bool)
      ensures ignored == IsIgnoredIn(Settings(), dirRules, relPath, isDir)
    {
      var p := Normalize(relPath);
      if p == "" {
        return false;
      }
      if hasPathspec {
        ignored := IsIgnoredPathspec(b, globalRules, dirRules, p, isDir);
      } else {
        ignored := IsIgnoredLegacy(b, dirOnly, globalRules, dirRules, p, isDir);
      }
    }

    /** The events are those of the walk, verdicts included. */
    method LoadWorkspaceIgnores(gitignore: seq<R>, callwardenignore: seq<R>, root: Dir<R>)
      returns (ghost events: seq<Event<R>>)
      modifies this`globalRules, this`dirRules
      ensures globalRules == old(globalRules) + gitignore + callwardenignore
      ensures events == Visit(Settings(), old(dirRules), root, [])
      ensures dirRules == RulesAfter(old(dirRules), events)
    {
      globalRules := globalRules + gitignore;
      globalRules := globalRules + callwardenignore;
      events := Walk(root, []);
    }

    /** The subdirectories to descend into, chosen with the rules loaded so far, and the verdicts given. */
    method ChooseKept(d: Dir<R>, rel: Parts) returns (kept: seq<nat>, ghost events: seq<Event<R>>)
      ensures kept == Kept(Answers(Settings(), dirRules), d, rel, |d.children|)
      ensures events == Asked(Answers(Settings(), dirRules), d, rel, |d.children|)
    {
      kept, events := [], [];
      for i := 0 to |d.children|
        invariant kept == Kept(Answers(Settings(), dirRules), d, rel, i)
        invariant events == Asked(Answers(Settings(), dirRules), d, rel, i)
      {
        var name := d.children[i].name;
        assert kept + [] == kept;
        if Skipped(name) {
          continue;
        }
        var ignored := IsIgnored(ChildRel(rel, name), true);
        events := events + [Judge(rel + [name], ignored)];
        if ignored {
          continue;
        }
        kept := kept + [i];
      }
    }

    /** One directory of the walk: load its rules, choose the subdirectories, then descend into those. */
    method Walk(d: Dir<R>, rel: Parts) returns (ghost events: seq<Event<R>>)
      modifies this`dirRules
      ensures events == Visit(Settings(), old(dirRules), d, rel)
      ensures dirRules == RulesAfter(old(dirRules), events)
      decreases d, 1
    {
      ghost var m0, loads := dirRules, Loads(d, rel);
      if rel != [] && d.rules != [] {
        dirRules := dirRules[Key(rel) := d.rules];
      }
      OwnRulesFiled(m0, d, rel);
      var kept, asked := ChooseKept(d, rel);
      AskedShape(Answers(Settings(), dirRules), d, rel, |d.children|);
      JudgingFilesNothing(dirRules, asked);
      ghost var below := WalkKept(d, kept, rel);
      events := loads + asked + below;
      RulesAfterConcat(m0, loads, asked);
      RulesAfterConcat(m0, loads + asked, below);
    }

    method WalkKept(d: Dir<R>, kept: seq<nat>, rel: Parts) returns (ghost events: seq<Event<R>>)
      requires Selection(kept, |d.children|)
      modifies this`dirRules
      ensures events == Descend(Settings(), old(dirRules), d, kept, 0, rel)
      ensures dirRules == RulesAfter(old(dirRules), events)
      decreases d, 0
    {
      events := [];
      ghost var m0, all := dirRules, Descend(Settings(), dirRules, d, kept, 0, rel);
      assert [] + all == all;
      for k := 0 to |kept|
        invariant all == events + Descend(Settings(), dirRules, d, kept, k, rel)
        invariant dirRules == RulesAfter(m0, events)
      {
        var c := d.children[kept[k]];
        ghost var before, m := events, dirRules;
        ghost var first := Walk(c.dir, rel + [c.name]);
        RulesAfterConcat(m0, before, first);
        events := before + first;
        Regroup(before, first, Descend(Settings(), dirRules, d, kept, k + 1, rel));
      }
      assert events + [] == events;
    }
  }

  lemma Regroup<R>(a: seq<R>, b: seq<R>, c: seq<R>)
    ensures a + (b + c) == (a + b) + c
  {
  }

  lemma OwnRulesFiled<R>(m: map<Parts, seq<R>>, d: Dir<R>, rel: Parts)
    ensures RulesAfter(m, Loads(d, rel)) == if rel != [] && d.rules != [] then m[Key(rel) := d.rules] else m
  {
    if rel != [] && d.rules != [] {
      var e: Event<R> := Load(rel, d.rules);
      assert [e][..0] == [];
    }
  }
}
