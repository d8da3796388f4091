/** What pruning an ignored directory can lose: the rules, the compiled patterns and the evaluator together. */
module IgnorePruning {
  import opened Text
  import opened GlobRegex
  import opened IgnoreEval
  import opened IgnoreLines

  /** The verdict of a parsed rule on a scope in the fallback evaluator. */
  ghost function Fallback(): Backend<Rule> {
    Backend((r: Rule, s: string) => Search(r.Compiled(), s), (r: Rule) => !r.negation)
  }

  /** If nothing that matches un-ignores, a path is ignored exactly when something matches. */
  lemma {:induction false} DecideIsAnyHit<R>(b: Backend<R>, js: seq<Judged<R>>)
    requires forall j :: j in js && Hits(b, j) ==> b.ignores(j.rule)
    ensures Decide(b, js) == AnyHit(b, js)
  {
    if js != [] {
      var n := |js| - 1;
      DecideIsAnyHit(b, js[..n]);
      assert js == js[..n] + [js[n]];
      AnyHitConcat(b, js[..n], [js[n]]);
    }
  }

  lemma AnyHitConcat<R>(b: Backend<R>, xs: seq<Judged<R>>, ys: seq<Judged<R>>)
    ensures AnyHit(b, xs + ys) <==> AnyHit(b, xs) || AnyHit(b, ys)
  {
    if k :| 0 <= k < |xs| && Hits(b, xs[k]) {
      assert (xs + ys)[k] == xs[k];
    }
    if k :| 0 <= k < |ys| && Hits(b, ys[k]) {
      assert (xs + ys)[|xs| + k] == ys[k];
    }
  }

  lemma SomeHit<R>(b: Backend<R>, js: seq<Judged<R>>)
    requires Decide(b, js)
    ensures AnyHit(b, js)
  {
    DecideIsLastMatch(b, js);
  }

  lemma ScopedHitsBelow(rules: seq<Rule>, dir: string, x: string)
    requires Without(dir, '\n') && AnyHit(Fallback(), Scoped(rules, dir))
    ensures AnyHit(Fallback(), Scoped(rules, dir + "/" + x))
  {
    var k :| 0 <= k < |rules| && Hits(Fallback(), Scoped(rules, dir)[k]);
    FoundBelow(rules[k].Compiled(), dir, x);
    assert Hits(Fallback(), Scoped(rules, dir + "/" + x)[k]);
  }

  lemma {:induction false} JoinWithout(parts: Parts, c: char)
    requires c != '/' && forall p :: p in parts ==> Without(p, c)
    ensures Without(Join(parts, '/'), c)
  {
    assert parts != [] ==> parts[0] in parts;
    if |parts| > 1 {
      JoinWithout(parts[1..], c);
    }
  }

  /** Whatever matches a directory in its own or an ancestor's section matches a path below it there. */
  lemma {:induction false} SectionsHitBelow(global: seq<Rule>, dirs: map<Parts, seq<Rule>>, dir: Parts, more: Parts, n: nat)
    requires n < |dir| && more != [] && forall p :: p in dir ==> Without(p, '\n')
    requires AnyHit(Fallback(), Sections(global, dirs, dir, n))
    ensures AnyHit(Fallback(), Sections(global, dirs, dir + more, n))
  {
    var path, x := dir + more, Join(more, '/');
    JoinBelow(dir[n..], more, '/');
    JoinWithout(dir[n..], '\n');
    assert path[n..] == dir[n..] + more && path[..n] == dir[..n];
    if n == 0 {
      assert dir[0..] == dir && path[0..] == path;
      ScopedHitsBelow(global, Join(dir, '/'), x);
    } else {
      var own := if dir[..n] in dirs then Scoped(dirs[dir[..n]], Join(dir[n..], '/')) else [];
      var below := if path[..n] in dirs then Scoped(dirs[path[..n]], Join(path[n..], '/')) else [];
      AnyHitConcat(Fallback(), Sections(global, dirs, dir, n - 1), own);
      AnyHitConcat(Fallback(), Sections(global, dirs, path, n - 1), below);
      if AnyHit(Fallback(), own) {
        ScopedHitsBelow(dirs[dir[..n]], Join(dir[n..], '/'), x);
      } else {
        SectionsHitBelow(global, dirs, dir, more, n - 1);
      }
    }
  }

  lemma {:induction false} MoreSectionsHit<R>(b: Backend<R>, global: seq<R>, dirs: map<Parts, seq<R>>, parts: Parts,
                                              n: nat, m: nat)
    requires n <= m <= |parts| && AnyHit(b, Sections(global, dirs, parts, n))
    ensures AnyHit(b, Sections(global, dirs, parts, m))
  {
    if n < m {
      MoreSectionsHit(b, global, dirs, parts, n, m - 1);
      AnyHitConcat(b, Sections(global, dirs, parts, m - 1),
                   if parts[..m] in dirs then Scoped(dirs[parts[..m]], Join(parts[m..], '/')) else []);
    }
  }

  lemma SomethingHitsBelow(global: seq<Rule>, dirs: map<Parts, seq<Rule>>, dir: Parts, more: Parts)
    requires dir != [] && more != [] && forall p :: p in dir ==> Without(p, '\n')
    requires Decide(Fallback(), AllRules(global, dirs, dir))
    ensures AnyHit(Fallback(), AllRules(global, dirs, dir + more))
  {
    SomeHit(Fallback(), AllRules(global, dirs, dir));
    SectionsHitBelow(global, dirs, dir, more, |dir| - 1);
    MoreSectionsHit(Fallback(), global, dirs, dir + more, |dir| - 1, |dir + more| - 1);
  }

  /**
   A path below an ignored directory is ignored as well, unless a negated rule in scope matches
   the path itself. So only such rules can be cut off when the walk prunes the directory.
   */
  lemma PruningLosesOnlyNegations(global: seq<Rule>, dirs: map<Parts, seq<Rule>>, dir: Parts, more: Parts)
    requires dir != [] && more != [] && forall p :: p in dir ==> Without(p, '\n')
    requires Decide(Fallback(), AllRules(global, dirs, dir))
    ensures Decide(Fallback(), AllRules(global, dirs, dir + more)) ||
            exists j :: j in AllRules(global, dirs, dir + more) && j.rule.negation && Hits(Fallback(), j)
  {
    SomethingHitsBelow(global, dirs, dir, more);
    var js := AllRules(global, dirs, dir + more);
    if forall j :: j in js && Hits(Fallback(), j) ==> !j.rule.negation {
      DecideIsAnyHit(Fallback(), js);
    }
  }
}
