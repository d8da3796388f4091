/**
 The two evaluators of analyzers/ignore_spec.py, and the rule they both implement:
 put the rules of the root and of every ancestor directory in one list, each with the
 part of the path it sees; the last rule that matches decides.
 */
module IgnoreEval {
  import opened Text

  /** A matching library: whether a rule matches a text, and whether a match ignores or un-ignores. */
  datatype Backend<!R> = Backend(hit: (R, string) -> bool, ignores: R -> bool)

  /** A rule with the part of the path it sees. */
  datatype Judged<R> = Judged(rule: R, scope: string)

  predicate Hits<R>(b: Backend<R>, j: Judged<R>) {
    b.hit(j.rule, j.scope)
  }

  /** The last match decides; without one the path is kept. */
  function Decide<R>(b: Backend<R>, js: seq<Judged<R>>): bool {
    if js == [] then false
    else
      var last := js[|js| - 1];
      if Hits(b, last) then b.ignores(last.rule) else Decide(b, js[..|js| - 1])
  }

  /** The last match, said with indexes. */
  lemma {:induction false} DecideIsLastMatch<R>(b: Backend<R>, js: seq<Judged<R>>)
    ensures Decide(b, js) <==>
            exists k :: 0 <= k < |js| && Hits(b, js[k]) && b.ignores(js[k].rule) &&
                        forall l :: k < l < |js| ==> !Hits(b, js[l])
  {
    if js != [] && !Hits(b, js[|js| - 1]) {
      var before := js[..|js| - 1];
      DecideIsLastMatch(b, before);
      if Decide(b, before) {
        var k :| 0 <= k < |before| && Hits(b, before[k]) && b.ignores(before[k].rule) &&
                 forall l :: k < l < |before| ==> !Hits(b, before[l]);
        assert Hits(b, js[k]);
        assert forall l :: k < l < |before| ==> js[l] == before[l];
      }
      forall k | 0 <= k < |js| && Hits(b, js[k]) && b.ignores(js[k].rule) &&
                 forall l :: k < l < |js| ==> !Hits(b, js[l])
        ensures Decide(b, before)
      {
        assert Hits(b, before[k]);
        assert forall l :: k < l < |before| ==> js[l] == before[l];
      }
    }
  }

  predicate AnyHit<R>(b: Backend<R>, js: seq<Judged<R>>) {
    exists k :: 0 <= k < |js| && Hits(b, js[k])
  }

  /** Later rules override earlier ones exactly when one of them matches. */
  lemma {:induction false} DecideConcat<R>(b: Backend<R>, xs: seq<Judged<R>>, ys: seq<Judged<R>>)
    ensures Decide(b, xs + ys) == if AnyHit(b, ys) then Decide(b, ys) else Decide(b, xs)
  {
    if ys == [] {
      assert xs + ys == xs;
    } else {
      var n := |ys| - 1;
      assert (xs + ys)[..|xs + ys| - 1] == xs + ys[..n];
      if !Hits(b, ys[n]) {
        DecideConcat(b, xs, ys[..n]);
        if AnyHit(b, ys) {
          var k :| 0 <= k < |ys| && Hits(b, ys[k]);
          assert Hits(b, ys[..n][k]);
        } else {
          assert forall k :: 0 <= k < n ==> ys[..n][k] == ys[k];
        }
      }
    }
  }

  function Scoped<R>(rules: seq<R>, scope: string): seq<Judged<R>> {
    seq(|rules|, i requires 0 <= i < |rules| => Judged(rules[i], scope))
  }

  /** A path cut at its slashes, and the rules of the directories by the same cut. */
  type Parts = seq<string>

  /** The root rules and those of the first n ancestors, shallow to deep. */
  function Sections<R>(global: seq<R>, dirs: map<Parts, seq<R>>, parts: Parts, n: nat): seq<Judged<R>>
    requires n <= |parts|
  {
    if n == 0 then Scoped(global, Join(parts, '/'))
    else
      Sections(global, dirs, parts, n - 1) +
      if parts[..n] in dirs then Scoped(dirs[parts[..n]], Join(parts[n..], '/')) else []
  }

  /** The concatenated list of scoped rules for a path. */
  function AllRules<R>(global: seq<R>, dirs: map<Parts, seq<R>>, parts: Parts): seq<Judged<R>>
    requires |parts| >= 1
  {
    Sections(global, dirs, parts, |parts| - 1)
  }

  /** What a directory path looks like to the library: with a slash at its end. */
  function Facing<R>(b: Backend<R>, isDir: bool): Backend<R> {
    Backend((r: R, s: string) => b.hit(r, if isDir then s + "/" else s), b.ignores)
  }

  /** Rules for directories only, which want a slash at the end, apply to what is asked about as a directory. */
  lemma DirectoriesGetASlash<R>(b: Backend<R>, rules: seq<R>, scope: string, isDir: bool)
    requires rules != [] && forall r :: r in rules ==> WantsSlash(b, r, scope)
    ensures Decide(Facing(b, isDir), Scoped(rules, scope)) <==> isDir || EndsInSlash(scope)
  {
    var f, js := Facing(b, isDir), Scoped(rules, scope);
    forall j | j in js ensures Hits(f, j) == (isDir || EndsInSlash(scope)) && f.ignores(j.rule) {
      assert j.scope == scope && j.rule in rules && WantsSlash(b, j.rule, scope);
    }
    DecideAlike(f, js, isDir || EndsInSlash(scope));
  }

  /** The rule ignores what ends in a slash, and only that. */
  predicate WantsSlash<R>(b: Backend<R>, r: R, scope: string) {
    b.ignores(r) && b.hit(r, scope + "/") && (b.hit(r, scope) <==> EndsInSlash(scope))
  }

  lemma {:induction false} DecideAlike<R>(f: Backend<R>, js: seq<Judged<R>>, hits: bool)
    requires js != [] && forall j :: j in js ==> Hits(f, j) == hits && f.ignores(j.rule)
    ensures Decide(f, js) == hits
  {
    if !hits && |js| > 1 {
      DecideAlike(f, js[..|js| - 1], hits);
    }
  }

  lemma ScopedStep<R>(b: Backend<R>, before: seq<Judged<R>>, rules: seq<R>, scope: string, k: nat)
    requires k < |rules|
    ensures var js, j := before + Scoped(rules[..k], scope), Judged(rules[k], scope);
            && before + Scoped(rules[..k + 1], scope) == js + [j]
            && Decide(b, js + [j]) == if Hits(b, j) then b.ignores(j.rule) else Decide(b, js)
  {
    var js, j := before + Scoped(rules[..k], scope), Judged(rules[k], scope);
    assert Scoped(rules[..k + 1], scope) == Scoped(rules[..k], scope) + [j];
    assert (js + [j])[..|js|] == js;
  }

  /** One rule list of the flat evaluator: each rule that matches overwrites the flag. */
  method Overwrite<R>(b: Backend<R>, dirOnly: R -> bool, rules: seq<R>, scope: string, isDir: bool,
                      flag: bool, ghost before: seq<Judged<R>>)
    returns (ignored: bool)
    requires flag == Decide(b, before)
    ensures ignored == Decide(b, before + Scoped(rules, scope))
  {
    ignored := flag;
    assert before + Scoped(rules[..0], scope) == before;
    for k := 0 to |rules|
      invariant ignored == Decide(b, before + Scoped(rules[..k], scope))
    {
      ScopedStep(b, before, rules, scope, k);
      var rule := rules[k];
      if dirOnly(rule) && !isDir {
        if b.hit(rule, scope) {
          ignored := b.ignores(rule);
        }
        continue;
      }
      if b.hit(rule, scope) {
        ignored := b.ignores(rule);
      }
    }
    assert rules[..|rules|] == rules;
  }

  /** `_is_ignored_legacy`: one flag, overwritten by every rule that matches. */
  method IsIgnoredLegacy<R>(b: Backend<R>, dirOnly: R -> bool, global: seq<R>, dirs: map<Parts, seq<R>>,
                            relPath: string, isDir: bool)
    returns (ignored: bool)
    ensures ignored == Decide(b, AllRules(global, dirs, Split(relPath, '/')))
  {
    var parts := Split(relPath, '/');
    JoinOfSplit(relPath, '/');
    ignored := Overwrite(b, dirOnly, global, relPath, isDir, false, []);
    assert [] + Scoped(global, relPath) == Sections(global, dirs, parts, 0);
    for i := 1 to |parts|
      invariant ignored == Decide(b, Sections(global, dirs, parts, i - 1))
    {
      var ancestor := parts[..i];
      ghost var before := Sections(global, dirs, parts, i - 1);
      if ancestor !in dirs {
        assert before + [] == before;
        continue;
      }
      ignored := Overwrite(b, dirOnly, dirs[ancestor], Join(parts[i..], '/'), isDir, ignored, before);
    }
  }

  lemma AnyHitStep<R>(b: Backend<R>, js: seq<Judged<R>>, j: Judged<R>)
    ensures AnyHit(b, js + [j]) <==> AnyHit(b, js) || Hits(b, j)
  {
    if AnyHit(b, js) {
      var k :| 0 <= k < |js| && Hits(b, js[k]);
      assert Hits(b, (js + [j])[k]);
    }
    assert (js + [j])[|js|] == j;
  }

  lemma SectionStep<R>(b: Backend<R>, rules: seq<R>, scope: string, k: nat)
    requires k < |rules|
    ensures var js, js', j := Scoped(rules[..k], scope), Scoped(rules[..k + 1], scope), Judged(rules[k], scope);
            && AnyHit(b, js') == (AnyHit(b, js) || Hits(b, j))
            && Decide(b, js') == if Hits(b, j) then b.ignores(j.rule) else Decide(b, js)
  {
    ScopedStep(b, [], rules, scope, k);
    assert forall rs: seq<R> :: [] + Scoped(rs, scope) == Scoped(rs, scope);
    AnyHitStep(b, Scoped(rules[..k], scope), Judged(rules[k], scope));
  }

  /** How many ancestors have been consulted before index i: one whose scope is empty is passed over. */
  function Consulted(parts: Parts, i: nat): nat
    requires 1 <= i <= |parts|
  {
    if i == |parts| > 1 && parts[i - 1] == "" then i - 2 else i - 1
  }

  /** One pattern list of the layered evaluator: whether any pattern matches, and what the last match says. */
  method SectionVerdict<R>(b: Backend<R>, rules: seq<R>, scope: string, isDir: bool)
    returns (matchedAny: bool, subIgnored: bool)
    ensures matchedAny == AnyHit(Facing(b, isDir), Scoped(rules, scope))
    ensures subIgnored == Decide(Facing(b, isDir), Scoped(rules, scope))
  {
    matchedAny, subIgnored := false, false;
    for k := 0 to |rules|
      invariant matchedAny == AnyHit(Facing(b, isDir), Scoped(rules[..k], scope))
      invariant subIgnored == Decide(Facing(b, isDir), Scoped(rules[..k], scope))
    {
      SectionStep(Facing(b, isDir), rules, scope, k);
      if b.hit(rules[k], if isDir then scope + "/" else scope) {
        matchedAny := true;
        subIgnored := b.ignores(rules[k]);
      }
    }
    assert rules[..|rules|] == rules;
  }

  /** What the rules of one more ancestor do to the verdict; an empty scope is not consulted. */
  lemma SectionOverrides<R>(f: Backend<R>, global: seq<R>, dirs: map<Parts, seq<R>>, parts: Parts, i: nat)
    requires 1 <= i < |parts|
    ensures var next := Decide(f, Sections(global, dirs, parts, Consulted(parts, i + 1)));
            var before := Decide(f, Sections(global, dirs, parts, Consulted(parts, i)));
            next == Overridden(f, dirs, parts, i, before)
  {
    var before, scope := Sections(global, dirs, parts, i - 1), Join(parts[i..], '/');
    assert scope == "" <==> i == |parts| - 1 && parts[i] == "";
    if parts[..i] in dirs {
      DecideConcat(f, before, Scoped(dirs[parts[..i]], scope));
    } else {
      assert before + [] == before;
    }
  }

  /** A verdict, overridden by the rules of the i-th ancestor if any of them matches. */
  predicate Overridden<R>(f: Backend<R>, dirs: map<Parts, seq<R>>, parts: Parts, i: nat, before: bool)
    requires i < |parts|
  {
    var ancestor, scope := parts[..i], Join(parts[i..], '/');
    if ancestor !in dirs || scope == "" || !AnyHit(f, Scoped(dirs[ancestor], scope)) then before
    else Decide(f, Scoped(dirs[ancestor], scope))
  }

  /** The verdict layer by layer: the root rules, then the ancestors before the i-th. */
  predicate Layered<R>(f: Backend<R>, global: seq<R>, dirs: map<Parts, seq<R>>, parts: Parts, i: nat)
    requires 1 <= i <= |parts|
  {
    if i == 1 then Decide(f, Scoped(global, Join(parts, '/')))
    else Overridden(f, dirs, parts, i - 1, Layered(f, global, dirs, parts, i - 1))
  }

  lemma {:induction false} LayeredIsLastMatch<R>(f: Backend<R>, global: seq<R>, dirs: map<Parts, seq<R>>, parts: Parts,
                                                 i: nat)
    requires 1 <= i <= |parts|
    ensures Layered(f, global, dirs, parts, i) == Decide(f, Sections(global, dirs, parts, Consulted(parts, i)))
  {
    if i > 1 {
      LayeredIsLastMatch(f, global, dirs, parts, i - 1);
      SectionOverrides(f, global, dirs, parts, i - 1);
    }
  }

  /** `_is_ignored_pathspec`: a verdict for the root rules, overridden by each ancestor that has any match. */
  method IsIgnoredPathspec<R>(b: Backend<R>, global: seq<R>, dirs: map<Parts, seq<R>>, relPath: string, isDir: bool)
    returns (ignored: bool)
    ensures var parts := Split(relPath, '/');
            ignored == Decide(Facing(b, isDir), Sections(global, dirs, parts, Consulted(parts, |parts|)))
  {
    var f, parts := Facing(b, isDir), Split(relPath, '/');
    JoinOfSplit(relPath, '/');
    // the library's match_file: the last match among the root patterns
    ignored := Decide(f, Scoped(global, relPath));
    for i := 1 to |parts|
      invariant ignored == Layered(f, global, dirs, parts, i)
    {
      var ancestor := parts[..i];
      if ancestor in dirs {
        var scope := Join(parts[i..], '/');
        if scope != "" {
          var matchedAny, subIgnored := SectionVerdict(b, dirs[ancestor], scope, isDir);
          if matchedAny {
            ignored := subIgnored;
          }
        }
      }
    }
    LayeredIsLastMatch(f, global, dirs, parts, |parts|);
  }

  lemma {:induction false} DecideSame<R>(b: Backend<R>, b': Backend<R>, js: seq<Judged<R>>)
    requires b.ignores == b'.ignores
    requires forall j :: j in js ==> Hits(b, j) == Hits(b', j)
    ensures Decide(b, js) == Decide(b', js)
  {
    if js != [] {
      DecideSame(b, b', js[..|js| - 1]);
    }
  }

  predicate EndsInSlash(s: string) {
    s != "" && s[|s| - 1] == '/'
  }

  /** On a path that ends in a slash: the rules of the directory it names, asked about an empty scope. */
  function OwnRules<R>(dirs: map<Parts, seq<R>>, parts: Parts): seq<Judged<R>> {
    if |parts| > 1 && parts[..|parts| - 1] in dirs then Scoped(dirs[parts[..|parts| - 1]], "") else []
  }

  lemma {:induction false} LastPart(s: string)
    ensures var parts := Split(s, '/');
            |parts| > 1 && parts[|parts| - 1] == "" <==> EndsInSlash(s)
  {
    if |s| > 1 {
      LastPart(s[1..]);
    }
  }

  /**
   With the same verdict of every rule on every scope, the layered evaluator and the flat one
   agree on every path that does not end in a slash. On one that does, they agree exactly when the
   directory's own rules match no empty scope or say there what the verdict is without them.
   */
  lemma EvaluatorsAgree<R(!new)>(flat: Backend<R>, layered: Backend<R>, global: seq<R>, dirs: map<Parts, seq<R>>,
                           relPath: string, isDir: bool)
    requires flat.ignores == layered.ignores
    requires forall j: Judged<R> :: Hits(flat, j) == Hits(Facing(layered, isDir), j)
    ensures var parts, f := Split(relPath, '/'), Facing(layered, isDir);
            var own := OwnRules(dirs, parts);
            Decide(flat, AllRules(global, dirs, parts)) ==
            Decide(f, Sections(global, dirs, parts, Consulted(parts, |parts|))) <==>
            || !EndsInSlash(relPath) || !AnyHit(f, own)
            || Decide(f, own) == Decide(f, Sections(global, dirs, parts, |parts| - 2))
  {
    var parts, f := Split(relPath, '/'), Facing(layered, isDir);
    LastPart(relPath);
    DecideSame(flat, f, AllRules(global, dirs, parts));
    if EndsInSlash(relPath) {
      assert Join(parts[|parts| - 1..], '/') == "";
      DecideConcat(f, Sections(global, dirs, parts, |parts| - 2), OwnRules(dirs, parts));
    }
  }

  /** A rule for the empty scope. */
  function EmptyScopeRule(): Backend<int> {
    Backend((r: int, s: string) => s == "" || s == "/", (r: int) => true)
  }

  lemma {:induction false} NoRulesBefore(key: Parts, parts: Parts, n: nat)
    requires n <= |parts| && n < |key|
    ensures Sections([], map[key := [0]], parts, n) == []
  {
    if n > 0 {
      NoRulesBefore(key, parts, n - 1);
      assert |parts[..n]| == n;
    }
  }

  lemma OwnRuleHits(parts: Parts, isDir: bool)
    requires |parts| > 1
    ensures var own := OwnRules(map[parts[..|parts| - 1] := [0]], parts);
            AnyHit(Facing(EmptyScopeRule(), isDir), own) && Decide(Facing(EmptyScopeRule(), isDir), own)
  {
    var own := OwnRules(map[parts[..|parts| - 1] := [0]], parts);
    assert own == [Judged(0, "")] && Hits(Facing(EmptyScopeRule(), isDir), own[0]);
  }

  /** Every path that ends in a slash has rules on which the two evaluators differ. */
  lemma TrailingSlashSeparatesEvaluators(relPath: string, isDir: bool)
    requires EndsInSlash(relPath)
    ensures var f, parts := Facing(EmptyScopeRule(), isDir), Split(relPath, '/');
            var dirs := map[parts[..|parts| - 1] := [0]];
            && Decide(f, AllRules([], dirs, parts))
            && !Decide(f, Sections([], dirs, parts, Consulted(parts, |parts|)))
  {
    var f, parts := Facing(EmptyScopeRule(), isDir), Split(relPath, '/');
    var key := parts[..|parts| - 1];
    LastPart(relPath);
    NoRulesBefore(key, parts, |parts| - 2);
    OwnRuleHits(parts, isDir);
    assert Join(parts[|parts| - 1..], '/') == "";
    DecideConcat(f, [], OwnRules(map[key := [0]], parts));
  }
}
