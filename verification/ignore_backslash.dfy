/** Directory names with a backslash, which the walk of analyzers/ignore_spec.py takes for two names. */
module IgnoreBackslash {
  import opened Text
  import opened IgnoreEval
  import opened IgnoreWalk
  import opened IgnoreOrder
  import opened IgnoreExact

  /** One rule, number 0, that ignores y in the directory it belongs to. */
  function OnlyIgnores(layered: bool, y: string): Config<int> {
    Config(Backend((r: int, s: string) => r == 0 && (s == y || s == y + "/"), (r: int) => true), layered, [])
  }

  lemma {:induction false} NothingOnFile(parts: Parts, n: nat)
    requires n <= |parts|
    ensures Sections<int>([], map[], parts, n) == []
  {
    if n > 0 {
      NothingOnFile(parts, n - 1);
    }
  }

  lemma NothingIgnoredYet(layered: bool, y: string, relPath: string)
    ensures !IsIgnoredIn(OnlyIgnores(layered, y), map[], relPath, true)
  {
    var parts := Split(Normalize(relPath), '/');
    NothingOnFile(parts, |parts| - 1);
    NothingOnFile(parts, Consulted(parts, |parts|));
  }

  /** A kept child with rules of its own is loaded. */
  lemma {:induction false} KeptIsLoaded<R>(cfg: Config<R>, m: map<Parts, seq<R>>, d: Dir<R>,
                                           kept: seq<nat>, k: nat, rel: Parts, l: nat)
    requires Selection(kept, |d.children|) && k <= l < |kept| && d.children[kept[l]].dir.rules != []
    ensures Load(rel + [d.children[kept[l]].name], d.children[kept[l]].dir.rules) in Descend(cfg, m, d, kept, k, rel)
    decreases |kept| - k
  {
    var c := d.children[kept[k]];
    var path, first := rel + [c.name], Visit(cfg, m, c.dir, rel + [c.name]);
    if k == l {
      assert Loads(c.dir, path) == [Load(path, c.dir.rules)];
      assert first[0] == Load(path, c.dir.rules);
    } else {
      KeptIsLoaded(cfg, RulesAfter(m, first), d, kept, k + 1, rel, l);
    }
  }

  /** A load of a child's own path carries the child's own rules. */
  lemma {:induction false} LoadsCarryRules<R>(cfg: Config<R>, m: map<Parts, seq<R>>, d: Dir<R>,
                                              kept: seq<nat>, k: nat, rel: Parts, j: nat)
    requires FileTree(d) && k <= |kept| && Selection(kept, |d.children|)
    requires var es := Descend(cfg, m, d, kept, k, rel);
             j < |es| && es[j].Load? && |es[j].path| == |rel| + 1
    ensures exists l :: 0 <= l < |kept| &&
              Descend(cfg, m, d, kept, k, rel)[j] ==
              Load(rel + [d.children[kept[l]].name], d.children[kept[l]].dir.rules)
    decreases |kept| - k
  {
    var c := d.children[kept[k]];
    var path, first := rel + [c.name], Visit(cfg, m, c.dir, rel + [c.name]);
    if j < |first| {
      OwnLoadIsFirst(cfg, m, c.dir, path, j);
    } else {
      LoadsCarryRules(cfg, RulesAfter(m, first), d, kept, k + 1, rel, j - |first|);
    }
  }

  lemma OwnLoadIsFirst<R>(cfg: Config<R>, m: map<Parts, seq<R>>, d: Dir<R>, rel: Parts, j: nat)
    requires FileTree(d)
    requires var es := Visit(cfg, m, d, rel); j < |es| && es[j].Load? && |es[j].path| == |rel|
    ensures Visit(cfg, m, d, rel)[j] == Load(rel, d.rules)
  {
    var m1 := RulesAfter(m, Loads(d, rel));
    var kept := Kept(Answers(cfg, m1), d, rel, |d.children|);
    AskedShape(Answers(cfg, m1), d, rel, |d.children|);
    DescendIsTopDown(cfg, m1, d, kept, 0, rel);
  }

  /** If all loads filed under a key carry the same rules, those are on file. */
  lemma {:induction false} FiledRules<R>(m: map<Parts, seq<R>>, es: seq<Event<R>>, key: Parts, rules: seq<R>, i: nat)
    requires i < |es| && es[i].Load? && Key(es[i].path) == key
    requires forall j :: 0 <= j < |es| && es[j].Load? && Key(es[j].path) == key ==> es[j].rules == rules
    ensures key in RulesAfter(m, es) && RulesAfter(m, es)[key] == rules
  {
    if i < |es| - 1 {
      FiledRules(m, es[..|es| - 1], key, rules, i);
    }
  }

  lemma LongPathsHaveSlashes(path: Parts)
    ensures |path| > 1 ==> !Without(RelDir(path), '/')
  {
    if |path| > 1 {
      var n := |path[0]|;
      assert Join(path, '/')[n] == '/';
      assert RelDir(path)[n] == '/';
    }
  }

  /** Only the directory itself is filed under a single clean name. */
  lemma KeyOfOne(path: Parts, x: string)
    requires path != [] && FilePath(path) && Without(x, '/') && Without(x, '\\') && Key(path) == [x]
    ensures path == [x]
  {
    JoinOfSplit(RelDir(path), '/');
    assert RelDir(path) == x;
    LongPathsHaveSlashes(path);
    var name := path[0];
    assert Join(path, '/') == name && ForwardSlashes(name) == x;
    forall i | 0 <= i < |x| ensures name[i] == x[i] {
      assert ForwardSlashes(name)[i] == x[i] != '/';
    }
    assert name == x;
  }

  lemma SegmentsOfBackslash(x: string, y: string)
    requires CleanName(x) && CleanName(y) && x[0] != '.'
    ensures Normalize(x + "\\" + y) == x + "/" + y && Split(x + "/" + y, '/') == [x, y]
  {
    ForwardSlashesConcat(x + "\\", y);
    ForwardSlashesConcat(x, "\\");
    assert ForwardSlashes(x) == x && ForwardSlashes(y) == y && ForwardSlashes("\\") == "/";
    SplitFirst(x, y, '/');
    SplitPiece(y, '/');
  }

  lemma IgnoredByOwnRule(layered: bool, rules: map<Parts, seq<int>>, x: string, y: string)
    requires CleanName(x) && CleanName(y) && x[0] != '.' && [x] in rules && rules[[x]] == [0]
    ensures IsIgnoredIn(OnlyIgnores(layered, y), rules, x + "\\" + y, true)
  {
    SegmentsOfBackslash(x, y);
    var parts, js := [x, y], [Judged(0, y)];
    assert parts[..1] == [x] && parts[1..] == [y] && Scoped([0], y) == js;
    assert Sections([], rules, parts, 1) == js;
    assert Consulted(parts, 2) == 1;
    assert js[|js| - 1] == Judged(0, y);
  }

  lemma SiblingIsFiled(cfg: Config<int>, root: Dir<int>, kept: seq<nat>, k: nat, x: string)
    requires FileTree(root) && Selection(kept, |root.children|) && k < |kept|
    requires root.children[kept[k]].name == x && CleanName(x) && root.children[kept[k]].dir.rules == [0]
    ensures var rules := RulesAfter(map[], Descend(cfg, map[], root, kept, 0, []));
            [x] in rules && rules[[x]] == [0]
  {
    var es := Descend(cfg, map[], root, kept, 0, []);
    KeptIsLoaded(cfg, map[], root, kept, 0, [], k);
    assert [] + [x] == [x];
    var i :| 0 <= i < |es| && es[i] == Load([x], [0]);
    SplitPiece(x, '/');
    assert Join([x], '/') == x && ForwardSlashes(x) == x && Key([x]) == [x];
    DescendPathsAreFiles(cfg, map[], root, kept, 0, []);
    forall j | 0 <= j < |es| && es[j].Load? && Key(es[j].path) == [x] ensures es[j].rules == [0] {
      KeyOfOne(es[j].path, x);
      LoadOfSibling(cfg, root, kept, k, x, j);
    }
    FiledRules(map[], es, [x], [0], i);
  }

  lemma LoadOfSibling(cfg: Config<int>, root: Dir<int>, kept: seq<nat>, k: nat, x: string, j: nat)
    requires FileTree(root) && Selection(kept, |root.children|) && k < |kept| && root.children[kept[k]].name == x
    requires var es := Descend(cfg, map[], root, kept, 0, []); j < |es| && es[j].Load? && es[j].path == [x]
    ensures Descend(cfg, map[], root, kept, 0, [])[j].rules == root.children[kept[k]].dir.rules
  {
    var e := Descend(cfg, map[], root, kept, 0, [])[j];
    LoadsCarryRules(cfg, map[], root, kept, 0, [], j);
    var l :| 0 <= l < |kept| && e == Load([] + [root.children[kept[l]].name], root.children[kept[l]].dir.rules);
    assert e.path[0] == root.children[kept[l]].name;
  }

  ghost predicate FileEvents<R>(es: seq<Event<R>>) {
    forall i :: 0 <= i < |es| ==> es[i].path != [] && FilePath(es[i].path)
  }

  lemma {:induction false} VisitPathsAreFiles<R>(cfg: Config<R>, m: map<Parts, seq<R>>, d: Dir<R>, rel: Parts)
    requires FileTree(d) && FilePath(rel)
    ensures FileEvents(Visit(cfg, m, d, rel))
    decreases d, |d.children| + 1
  {
    var m1 := RulesAfter(m, Loads(d, rel));
    AskedPathsAreFiles(Answers(cfg, m1), d, rel, |d.children|);
    DescendPathsAreFiles(cfg, m1, d, Kept(Answers(cfg, m1), d, rel, |d.children|), 0, rel);
  }

  lemma {:induction false} AskedPathsAreFiles<R>(answers: string -> bool, d: Dir<R>, rel: Parts, n: nat)
    requires n <= |d.children| && FileTree(d) && FilePath(rel)
    ensures FileEvents(Asked(answers, d, rel, n))
  {
    if n > 0 {
      AskedPathsAreFiles(answers, d, rel, n - 1);
      assert FileName(d.children[n - 1].name);
    }
  }

  lemma {:induction false} DescendPathsAreFiles<R>(cfg: Config<R>, m: map<Parts, seq<R>>, d: Dir<R>,
                                                   kept: seq<nat>, k: nat, rel: Parts)
    requires k <= |kept| && Selection(kept, |d.children|) && FileTree(d) && FilePath(rel)
    ensures FileEvents(Descend(cfg, m, d, kept, k, rel))
    decreases d, |kept| - k
  {
    if k < |kept| {
      var c := d.children[kept[k]];
      assert FileName(c.name);
      var first := Visit(cfg, m, c.dir, rel + [c.name]);
      VisitPathsAreFiles(cfg, m, c.dir, rel + [c.name]);
      DescendPathsAreFiles(cfg, RulesAfter(m, first), d, kept, k + 1, rel);
    }
  }

  /**
   How a tree comes to be disorderly. Whatever else is in it, a directory `x\y` beside a directory x that has
   rules of its own is judged before those are loaded, although they are consulted for it; with
   the rule y in x the walk keeps what the finished matcher ignores.
   */
  lemma BackslashNameIsJudgedEarly(layered: bool, root: Dir<int>, i: nat, j: nat, x: string, y: string)
    requires FileTree(root) && i < |root.children| && j < |root.children|
    requires root.children[i].name == x && root.children[j].name == x + "\\" + y && root.children[i].dir.rules == [0]
    requires CleanName(x) && CleanName(y) && !Skipped(x) && !Skipped(x + "\\" + y)
    ensures !Orderly(layered, root)
    ensures var cfg, path := OnlyIgnores(layered, y), x + "\\" + y;
            var es := Visit(cfg, map[], root, []);
            Judge([path], false) in es && IsIgnoredIn(cfg, RulesAfter(map[], es), path, true)
  {
    var cfg, path, n := OnlyIgnores(layered, y), x + "\\" + y, |root.children|;
    var none: map<Parts, seq<int>> := map[];
    var answers := Answers(cfg, none);
    var asked, kept := Asked(answers, root, [], n), Kept(answers, root, [], n);
    NothingIgnoredYet(layered, y, ChildRel([], x));
    NothingIgnoredYet(layered, y, ChildRel([], path));
    KeptWasJudged(answers, root, [], n, j);
    assert [] + [path] == [path];
    KeptHas(answers, root, [], n, i);
    var k :| 0 <= k < |kept| && kept[k] == i;
    SiblingIsFiled(cfg, root, kept, k, x);
    AskedIsHonest(cfg, none, root, [], n);
    RulesAfterConcat(none, asked, Descend(cfg, none, root, kept, 0, []));
    assert [] + asked == asked;
    IgnoredByOwnRule(layered, RulesAfter(none, Visit(cfg, none, root, [])), x, y);
    assert Join([path], '/') == path;
    WrongWalkIsDisorderly(cfg, none, root, [path]);
  }
}
