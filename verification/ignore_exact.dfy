/**
 The converse for the walk of analyzers/ignore_spec.py: on a tree that is not orderly, there are rules with
 which the walk keeps a directory that the finished matcher ignores.
 */
module IgnoreExact {
  import opened Text
  import opened IgnoreEval
  import opened IgnoreWalk
  import opened IgnoreOrder

  /** The same tree, the one rule of each .gitignore being the path of its directory. */
  function Labelled<S>(t: Dir<S>, rel: Parts): Dir<Parts>
    decreases t
  {
    Dir(if t.rules == [] then [] else [rel],
        seq(|t.children|, i requires 0 <= i < |t.children| =>
          Child(t.children[i].name, Labelled(t.children[i].dir, rel + [t.children[i].name]))))
  }

  lemma {:induction false} LabelledHasShape<S>(t: Dir<S>, rel: Parts)
    ensures SameShape(Labelled(t, rel), t)
    decreases t
  {
    forall i | 0 <= i < |t.children| ensures SameShape(Labelled(t, rel).children[i].dir, t.children[i].dir) {
      LabelledHasShape(t.children[i].dir, rel + [t.children[i].name]);
    }
  }

  lemma {:induction false} ShapeKeepsFiles<R, S>(d: Dir<R>, t: Dir<S>)
    requires SameShape(d, t) && FileTree(t)
    ensures FileTree(d)
    decreases t
  {
    forall i | 0 <= i < |d.children| ensures FileTree(d.children[i].dir) {
      ShapeKeepsFiles(d.children[i].dir, t.children[i].dir);
    }
  }

  /** One rule matters, q, and it ignores one scope. */
  function OnlyRule(layered: bool, q: Parts, scope: string): Config<Parts> {
    Config(Backend((r: Parts, s: string) => r == q && s == if layered then scope + "/" else scope, (r: Parts) => true),
           layered, [])
  }

  /******* As long as the rule is not on file *******/

  ghost predicate Lacks(m: map<Parts, seq<Parts>>, q: Parts) {
    forall k :: k in m ==> q !in m[k]
  }

  lemma {:induction false} SectionsLack(m: map<Parts, seq<Parts>>, q: Parts, parts: Parts, n: nat)
    requires Lacks(m, q) && n <= |parts|
    ensures forall j :: j in Sections([], m, parts, n) ==> j.rule != q
  {
    if n > 0 {
      SectionsLack(m, q, parts, n - 1);
    }
  }

  lemma NothingIgnored(layered: bool, q: Parts, scope: string, m: map<Parts, seq<Parts>>, relPath: string)
    requires Lacks(m, q)
    ensures !IsIgnoredIn(OnlyRule(layered, q, scope), m, relPath, true)
  {
    var cfg, parts := OnlyRule(layered, q, scope), Split(Normalize(relPath), '/');
    SectionsLack(m, q, parts, Reach(layered, parts));
    NothingHits(if layered then Facing(cfg.b, true) else cfg.b, Sections([], m, parts, Reach(layered, parts)));
  }

  /** Each directory loaded files its own path. */
  ghost predicate Own(es: seq<Event<Parts>>) {
    forall i :: 0 <= i < |es| && es[i].Load? ==> es[i].rules == [es[i].path]
  }

  ghost predicate Reaches<R>(es: seq<Event<R>>, q: Parts) {
    exists i :: 0 <= i < |es| && es[i].Load? && es[i].path == q
  }

  lemma {:induction false} StillLacks(m: map<Parts, seq<Parts>>, es: seq<Event<Parts>>, q: Parts)
    requires Lacks(m, q) && Own(es) && !Reaches(es, q)
    ensures Lacks(RulesAfter(m, es), q)
  {
    if es != [] {
      var before, last := es[..|es| - 1], es[|es| - 1];
      assert !Reaches(before, q) by {
        assert forall i :: 0 <= i < |before| ==> before[i] == es[i];
      }
      StillLacks(m, before, q);
    }
  }

  lemma OwnConcat(a: seq<Event<Parts>>, b: seq<Event<Parts>>)
    requires Own(a) && Own(b)
    ensures Own(a + b)
  {
  }

  lemma {:induction false} AskedFilesNothing(answers: string -> bool, d: Dir<Parts>, rel: Parts, n: nat)
    requires n <= |d.children|
    ensures Own(Asked(answers, d, rel, n))
  {
    AskedShape(answers, d, rel, n);
  }

  lemma {:induction false} VisitFilesOwn<S>(cfg: Config<Parts>, m: map<Parts, seq<Parts>>, t: Dir<S>, rel: Parts)
    ensures Own(Visit(cfg, m, Labelled(t, rel), rel))
    decreases t, |t.children| + 1
  {
    var d := Labelled(t, rel);
    var m1 := RulesAfter(m, Loads(d, rel));
    AskedFilesNothing(Answers(cfg, m1), d, rel, |d.children|);
    DescendFilesOwn(cfg, m1, t, Kept(Answers(cfg, m1), d, rel, |d.children|), 0, rel);
  }

  lemma {:induction false} DescendFilesOwn<S>(cfg: Config<Parts>, m: map<Parts, seq<Parts>>, t: Dir<S>, kept: seq<nat>,
                                              k: nat, rel: Parts)
    requires k <= |kept| && Selection(kept, |t.children|)
    ensures Own(Descend(cfg, m, Labelled(t, rel), kept, k, rel))
    decreases t, |kept| - k
  {
    if k < |kept| {
      var c := t.children[kept[k]];
      var first := Visit(cfg, m, Labelled(c.dir, rel + [c.name]), rel + [c.name]);
      VisitFilesOwn(cfg, m, c.dir, rel + [c.name]);
      DescendFilesOwn(cfg, RulesAfter(m, first), t, kept, k + 1, rel);
      OwnConcat(first, Descend(cfg, RulesAfter(m, first), Labelled(t, rel), kept, k + 1, rel));
    }
  }

  /******* Up to the load of q the walk goes where the full walk goes *******/

  /** Step by step the same up to the load of q, and from there on a part of it. */
  ghost predicate Together<R, S>(es: seq<Event<R>>, full: seq<Event<S>>, q: Parts)
    decreases full
  {
    if full == [] then es == []
    else
      && es != [] && SameStep(es[0], full[0])
      && if full[0].Load? && full[0].path == q then PartOf(es[1..], full[1..]) else Together(es[1..], full[1..], q)
  }

  lemma {:induction false} TogetherConcat<R, S>(a: seq<Event<R>>, b: seq<Event<R>>,
                                                a': seq<Event<S>>, b': seq<Event<S>>, q: Parts)
    requires Together(a, a', q) && if Reaches(a', q) then PartOf(b, b') else Together(b, b', q)
    ensures Together(a + b, a' + b', q)
    decreases a'
  {
    if a' == [] {
      assert a + b == b && a' + b' == b';
    } else {
      assert (a + b)[1..] == a[1..] + b && (a' + b')[1..] == a'[1..] + b';
      if a'[0].Load? && a'[0].path == q {
        PartOfConcat(a[1..], b, a'[1..], b');
      } else {
        ReachesLater(a', q);
        TogetherConcat(a[1..], b, a'[1..], b', q);
      }
    }
  }

  lemma ReachesLater<S>(es: seq<Event<S>>, q: Parts)
    requires es != [] && !(es[0].Load? && es[0].path == q)
    ensures Reaches(es, q) <==> Reaches(es[1..], q)
  {
    if Reaches(es, q) {
      var i :| 0 <= i < |es| && es[i].Load? && es[i].path == q;
      assert es[1..][i - 1] == es[i];
    }
  }

  /** The load of q, if any, divides the two. */
  lemma {:induction false} TogetherUpTo<R, S>(es: seq<Event<R>>, full: seq<Event<S>>, q: Parts, j: nat)
    requires Together(es, full, q) && j < |full| && full[j].Load? && full[j].path == q
    requires forall i :: 0 <= i < j && full[i].Load? ==> full[i].path != q
    ensures j < |es| && (forall i :: 0 <= i <= j ==> SameStep(es[i], full[i])) && PartOf(es[j + 1..], full[j + 1..])
  {
    if j > 0 {
      TogetherUpTo(es[1..], full[1..], q, j - 1);
      assert es[1..][j..] == es[j + 1..] && full[1..][j..] == full[j + 1..];
      forall i | 0 <= i <= j ensures SameStep(es[i], full[i]) {
        assert i > 0 ==> SameStep(es[1..][i - 1], full[1..][i - 1]);
      }
    }
  }

  lemma {:induction false} TogetherNeverReaches<R, S>(es: seq<Event<R>>, full: seq<Event<S>>, q: Parts)
    requires Together(es, full, q) && !Reaches(full, q)
    ensures !Reaches(es, q)
  {
    if full != [] {
      ReachesLater(full, q);
      TogetherNeverReaches(es[1..], full[1..], q);
      ReachesLater(es, q);
    }
  }

  /** Where nothing is ignored the same questions are asked and the same children kept. */
  lemma {:induction false} SilentAsked<R, S>(answers: string -> bool, d: Dir<R>, answers': string -> bool, t: Dir<S>,
                                             rel: Parts, n: nat, q: Parts)
    requires n <= |d.children| && SameShape(d, t)
    requires forall i :: 0 <= i < |d.children| ==>
               !answers(ChildRel(rel, d.children[i].name)) && !answers'(ChildRel(rel, d.children[i].name))
    ensures Kept(answers, d, rel, n) == Kept(answers', t, rel, n)
    ensures Together(Asked(answers, d, rel, n), Asked(answers', t, rel, n), q)
            && !Reaches(Asked(answers', t, rel, n), q)
  {
    AskedShape(answers', t, rel, n);
    if n > 0 {
      var name := d.children[n - 1].name;
      SilentAsked(answers, d, answers', t, rel, n - 1, q);
      if !Skipped(name) {
        var e: Event<R>, e': Event<S> := Judge(rel + [name], false), Judge(rel + [name], false);
        assert Together([e][1..], [e'][1..], q);
        TogetherConcat(Asked(answers, d, rel, n - 1), [e], Asked(answers', t, rel, n - 1), [e'], q);
      }
    }
  }

  lemma {:induction false} VisitTogether<S>(cfg: Config<Parts>, m: map<Parts, seq<Parts>>,
                                            m': map<Parts, seq<S>>, t: Dir<S>, rel: Parts, q: Parts, scope: string)
    requires cfg == OnlyRule(cfg.layered, q, scope) && Lacks(m, q)
    ensures Together(Visit(cfg, m, Labelled(t, rel), rel), Visit(Blind(false), m', t, rel), q)
    decreases t, |t.children| + 2
  {
    var d, blind: Config<S> := Labelled(t, rel), Blind(false);
    var loads, loads' := Loads(d, rel), Loads(t, rel);
    var m1, m1' := RulesAfter(m, loads), RulesAfter(m', loads');
    assert loads' != [] ==> Together(loads[1..], loads'[1..], q);
    LabelledHasShape(t, rel);
    if Reaches(loads', q) {
      RestIsPart(cfg, m1, d, m1', t, rel);
    } else {
      TogetherNeverReaches(loads, loads', q);
      StillLacks(m, loads, q);
      RestTogether(cfg, m1, m1', t, rel, q, scope);
    }
    TogetherConcat(loads, Rest(cfg, m1, d, rel), loads', Rest(blind, m1', t, rel), q);
    VisitIsLoadsAndRest(cfg, m, d, rel);
    VisitIsLoadsAndRest(blind, m', t, rel);
  }

  lemma {:induction false} RestTogether<S>(cfg: Config<Parts>, m: map<Parts, seq<Parts>>,
                                           m': map<Parts, seq<S>>, t: Dir<S>, rel: Parts, q: Parts, scope: string)
    requires cfg == OnlyRule(cfg.layered, q, scope) && Lacks(m, q)
    ensures Together(Rest(cfg, m, Labelled(t, rel), rel), Rest(Blind(false), m', t, rel), q)
    decreases t, |t.children| + 1
  {
    var d, n := Labelled(t, rel), |t.children|;
    var answers, answers' := Answers(cfg, m), Answers<S>(Blind(false), m');
    LabelledHasShape(t, rel);
    forall i | 0 <= i < n
      ensures !answers(ChildRel(rel, d.children[i].name)) && !answers'(ChildRel(rel, d.children[i].name))
    {
      NothingIgnored(cfg.layered, q, scope, m, ChildRel(rel, d.children[i].name));
      BlindKeeps(m', ChildRel(rel, d.children[i].name));
    }
    SilentAsked(answers, d, answers', t, rel, n, q);
    var kept := Kept(answers', t, rel, n);
    DescendTogether(cfg, m, m', t, kept, 0, rel, q, scope);
    TogetherConcat(Asked(answers, d, rel, n), Descend(cfg, m, d, kept, 0, rel),
                   Asked(answers', t, rel, n), Descend(Blind(false), m', t, kept, 0, rel), q);
  }

  lemma {:induction false} DescendTogether<S>(cfg: Config<Parts>, m: map<Parts, seq<Parts>>, m': map<Parts, seq<S>>,
                                              t: Dir<S>, kept: seq<nat>, k: nat, rel: Parts, q: Parts, scope: string)
    requires cfg == OnlyRule(cfg.layered, q, scope) && Lacks(m, q)
    requires k <= |kept| && Selection(kept, |t.children|)
    ensures Together(Descend(cfg, m, Labelled(t, rel), kept, k, rel), Descend(Blind(false), m', t, kept, k, rel), q)
    decreases t, |kept| - k
  {
    if k < |kept| {
      var c, d := t.children[kept[k]], Labelled(t, rel);
      var first, first' := Visit(cfg, m, Labelled(c.dir, rel + [c.name]), rel + [c.name]),
          Visit(Blind(false), m', c.dir, rel + [c.name]);
      var m1, m1' := RulesAfter(m, first), RulesAfter(m', first');
      VisitTogether(cfg, m, m', c.dir, rel + [c.name], q, scope);
      if Reaches(first', q) {
        LabelledHasShape(t, rel);
        forall l | k + 1 <= l < |kept| ensures kept[l] in kept[k + 1..] {
          assert kept[k + 1..][l - k - 1] == kept[l];
        }
        DescendIsPart(cfg, m1, d, kept, k + 1, m1', t, kept, k + 1, rel);
      } else {
        TogetherNeverReaches(first, first', q);
        VisitFilesOwn(cfg, m, c.dir, rel + [c.name]);
        StillLacks(m, first, q);
        DescendTogether(cfg, m1, m1', t, kept, k + 1, rel, q, scope);
      }
      TogetherConcat(first, Descend(cfg, m1, d, kept, k + 1, rel),
          first', Descend(Blind(false), m1', t, kept, k + 1, rel), q);
    }
  }

  /******* Each directory is loaded once *******/

  ghost predicate LoadsDiffer<R>(es: seq<Event<R>>) {
    forall i, j :: 0 <= i < j < |es| && es[i].Load? && es[j].Load? ==> es[i].path != es[j].path
  }

  lemma LoadsDifferConcat<R>(a: seq<Event<R>>, b: seq<Event<R>>)
    requires LoadsDiffer(a) && LoadsDiffer(b)
    requires forall i, j :: 0 <= i < |a| && 0 <= j < |b| && a[i].Load? && b[j].Load? ==> a[i].path != b[j].path
    ensures LoadsDiffer(a + b)
  {
  }

  lemma {:induction false} VisitLoadsOnce<R>(cfg: Config<R>, m: map<Parts, seq<R>>, d: Dir<R>, rel: Parts)
    requires FileTree(d)
    ensures LoadsDiffer(Visit(cfg, m, d, rel))
    decreases d, |d.children| + 1
  {
    var m1 := RulesAfter(m, Loads(d, rel));
    var kept := Kept(Answers(cfg, m1), d, rel, |d.children|);
    AskedShape(Answers(cfg, m1), d, rel, |d.children|);
    DescendLoadsOnce(cfg, m1, d, kept, 0, rel);
    DescendIsTopDown(cfg, m1, d, kept, 0, rel);
    LoadsDifferConcat(Loads(d, rel) + Asked(Answers(cfg, m1), d, rel, |d.children|), Descend(cfg, m1, d, kept, 0, rel));
  }

  lemma {:induction false} DescendLoadsOnce<R>(cfg: Config<R>, m: map<Parts, seq<R>>, d: Dir<R>,
                                               kept: seq<nat>, k: nat, rel: Parts)
    requires k <= |kept| && Selection(kept, |d.children|) && FileTree(d)
    ensures LoadsDiffer(Descend(cfg, m, d, kept, k, rel))
    decreases d, |kept| - k
  {
    if k < |kept| {
      var c := d.children[kept[k]];
      var first := Visit(cfg, m, c.dir, rel + [c.name]);
      var others := Descend(cfg, RulesAfter(m, first), d, kept, k + 1, rel);
      VisitLoadsOnce(cfg, m, c.dir, rel + [c.name]);
      DescendLoadsOnce(cfg, RulesAfter(m, first), d, kept, k + 1, rel);
      VisitIsTopDown(cfg, m, c.dir, rel + [c.name]);
      DescendIsTopDown(cfg, RulesAfter(m, first), d, kept, k + 1, rel);
      ChildrenApart(first, others, d, kept, k, rel);
      LoadsDifferConcat(first, others);
    }
  }

  /******* The rule that comes too late *******/

  predicate FiledUnder<R>(e: Event<R>, key: Parts) {
    e.Load? && Key(e.path) == key
  }

  /** The last load filed under a key. */
  lemma {:induction false} LastUnder<R>(es: seq<Event<R>>, key: Parts, j: nat) returns (l: nat)
    requires j < |es| && FiledUnder(es[j], key)
    ensures j <= l < |es| && FiledUnder(es[l], key)
    ensures forall i :: l < i < |es| ==> !FiledUnder(es[i], key)
    decreases |es| - j
  {
    if i :| j < i < |es| && FiledUnder(es[i], key) {
      l := LastUnder(es, key, i);
    } else {
      l := j;
    }
  }

  lemma {:induction false} OneHitIgnores<R>(f: Backend<R>, js: seq<Judged<R>>, k: nat)
    requires k < |js| && Hits(f, js[k]) && forall r: R :: f.ignores(r)
    ensures Decide(f, js)
  {
    if !Hits(f, js[|js| - 1]) {
      OneHitIgnores(f, js[..|js| - 1], k);
    }
  }

  lemma {:induction false} SectionsHave<R>(m: map<Parts, seq<R>>, parts: Parts, key: Parts,
                                           q: R, n: nat) returns (k: nat)
    requires 0 < |key| <= n <= |parts| && key <= parts && key in m && m[key] == [q]
    ensures var js := Sections([], m, parts, n); k < |js| && js[k] == Judged(q, Join(parts[|key|..], '/'))
  {
    if n == |key| {
      assert parts[..n] == key;
      k := |Sections([], m, parts, n - 1)|;
    } else {
      k := SectionsHave(m, parts, key, q, n - 1);
    }
  }

  /** Once it is on file the rule ignores the path it is made for. */
  lemma IgnoredInTheEnd(layered: bool, m: map<Parts, seq<Parts>>, path: Parts, key: Parts, q: Parts)
    requires key != [] && OnTheWay(layered, key, path) && key in m && m[key] == [q]
    ensures IsIgnoredIn(OnlyRule(layered, q, Join(SegmentsOf(path)[|key|..], '/')), m, Join(path, '/'), true)
  {
    var parts := SegmentsOf(path);
    var cfg := OnlyRule(layered, q, Join(parts[|key|..], '/'));
    var f := if layered then Facing(cfg.b, true) else cfg.b;
    var k := SectionsHave(m, parts, key, q, Reach(layered, parts));
    OneHitIgnores(f, Sections([], m, parts, Reach(layered, parts)), k);
  }

  /** The rules after a load that nothing filed later replaces. */
  lemma FiledLast(upTo: seq<Event<Parts>>, later: seq<Event<Parts>>, q: Parts)
    requires upTo != [] && upTo[|upTo| - 1] == Load(q, [q])
    requires forall i :: 0 <= i < |later| ==> !FiledUnder(later[i], Key(q))
    ensures var m := RulesAfter(map[], upTo + later); Key(q) in m && m[Key(q)] == [q]
  {
    RulesAfterConcat(map[], upTo, later);
    FiledNow(upTo, q);
    forall j | 0 <= j < |later| && later[j].Load? ensures Key(later[j].path) != Key(q) {
      assert !FiledUnder(later[j], Key(q));
    }
    FiledElsewhere(RulesAfter(map[], upTo), later, Key(q));
  }

  lemma FiledNow(es: seq<Event<Parts>>, q: Parts)
    requires es != [] && es[|es| - 1] == Load(q, [q])
    ensures var m := RulesAfter(map[], es); Key(q) in m && m[Key(q)] == [q]
  {
  }

  /** A walk in which every verdict is what the finished matcher answers. */
  ghost predicate StaysRight<R>(cfg: Config<R>, m: map<Parts, seq<R>>, d: Dir<R>) {
    var es := Visit(cfg, m, d, []);
    VerdictsStand(cfg, RulesAfter(m, es), es)
  }

  /**
   On a tree that is not orderly, some directory is judged before one that it consults is loaded. One rule
   in that one is enough: the walk keeps the directory and the finished matcher ignores it.
   */
  lemma DisorderlyTreeGoesWrong<S>(layered: bool, t: Dir<S>) returns (cfg: Config<Parts>, path: Parts)
    requires FileTree(t) && !Orderly(layered, t)
    ensures cfg.layered == layered
    ensures var es := Visit(cfg, map[], Labelled(t, []), []);
            Judge(path, false) in es && IsIgnoredIn(cfg, RulesAfter(map[], es), Join(path, '/'), true)
  {
    var full := FullWalk(t);
    var i, j :| 0 <= i < j < |full| && full[i].Judge?
        && full[j].Load? && OnTheWay(layered, Key(full[j].path), full[i].path);
    path := full[i].path;
    var key := Key(full[j].path);
    var l := LastUnder(full, key, j);
    var q, scope := full[l].path, Join(SegmentsOf(path)[|key|..], '/');
    cfg := OnlyRule(layered, q, scope);
    var es := Visit(cfg, map[], Labelled(t, []), []);
    VisitTogether(cfg, map[], map[], t, [], q, scope);
    VisitLoadsOnce(Blind<S>(false), map[], t, []);
    TogetherUpTo(es, full, q, l);
    VisitFilesOwn(cfg, map[], t, []);
    KeptSoFar(cfg, t, q, scope, full, es, i, l);
    assert SameStep(es[l], full[l]);
    FiledInTheEnd(es, q, l, full[l + 1..]);
    IgnoredInTheEnd(layered, RulesAfter(map[], es), path, key, q);
  }

  lemma FiledInTheEnd<S>(es: seq<Event<Parts>>, q: Parts, l: nat, rest: seq<Event<S>>)
    requires l < |es| && es[l] == Load(q, [q])
    requires PartOf(es[l + 1..], rest) && forall i :: 0 <= i < |rest| ==> !FiledUnder(rest[i], Key(q))
    ensures var m := RulesAfter(map[], es); Key(q) in m && m[Key(q)] == [q]
  {
    var upTo, later := es[..l + 1], es[l + 1..];
    NothingUnderLater(later, rest, Key(q));
    FiledLast(upTo, later, q);
    assert es == upTo + later;
  }

  /** What is judged before q is loaded is kept. */
  lemma KeptSoFar<S>(cfg: Config<Parts>, t: Dir<S>, q: Parts, scope: string,
                     full: seq<Event<S>>, es: seq<Event<Parts>>, i: nat, l: nat)
    requires FileTree(t) && cfg == OnlyRule(cfg.layered, q, scope)
             && es == Visit(cfg, map[], Labelled(t, []), []) && Own(es)
    requires i < l < |full| && l < |es| && full[i].Judge? && full[l].Load? && full[l].path == q && LoadsDiffer(full)
    requires forall k :: 0 <= k <= l ==> SameStep(es[k], full[k])
    ensures es[i] == Judge(full[i].path, false)
  {
    LabelledHasShape(t, []);
    ShapeKeepsFiles(Labelled(t, []), t);
    VisitIsHonest(cfg, map[], Labelled(t, []), []);
    assert HonestAt(cfg, map[], es, i);
    assert !Reaches(es[..i], q) by {
      forall k | 0 <= k < i && es[..i][k].Load? ensures es[..i][k].path != q {
        assert SameStep(es[k], full[k]);
      }
    }
    StillLacks(map[], es[..i], q);
    NothingIgnored(cfg.layered, q, scope, RulesAfter(map[], es[..i]), Join(es[i].path, '/'));
  }

  lemma NothingUnderLater<R, S>(es: seq<Event<R>>, full: seq<Event<S>>, key: Parts)
    requires PartOf(es, full) && forall k :: 0 <= k < |full| ==> !FiledUnder(full[k], key)
    ensures forall i :: 0 <= i < |es| ==> !FiledUnder(es[i], key)
  {
    forall i | 0 <= i < |es| ensures !FiledUnder(es[i], key) {
      StepInWhole(es, full, i);
    }
  }

  /******* Exactly when *******/

  /** In an orderly tree every verdict of every walk is final, and every directory loaded is kept in the end. */
  lemma OrderlyWalkIsFinal<R, S>(cfg: Config<R>, m: map<Parts, seq<R>>, d: Dir<R>, t: Dir<S>)
    requires FileTree(t) && SameShape(d, t) && Orderly(cfg.layered, t)
    ensures var es := Visit(cfg, m, d, []);
            StaysRight(cfg, m, d) && LoadedAreKept(cfg, RulesAfter(m, es), es)
  {
    ShapeKeepsFiles(d, t);
    OrderlyWalkIsSettled(cfg, m, d, t);
    WalkIsFinal(cfg, m, d);
  }

  lemma {:induction false} SameShapeAsItself<R>(d: Dir<R>)
    ensures SameShape(d, d)
  {
    forall i | 0 <= i < |d.children| ensures SameShape(d.children[i].dir, d.children[i].dir) {
      SameShapeAsItself(d.children[i].dir);
    }
  }

  /** A walk that keeps what the finished matcher ignores gives the tree away. */
  lemma WrongWalkIsDisorderly<R>(cfg: Config<R>, m: map<Parts, seq<R>>, t: Dir<R>, path: Parts)
    requires var es := Visit(cfg, m, t, []);
             FileTree(t) && Judge(path, false) in es && IsIgnoredIn(cfg, RulesAfter(m, es), Join(path, '/'), true)
    ensures !Orderly(cfg.layered, t)
  {
    SameShapeAsItself(t);
    if Orderly(cfg.layered, t) {
      OrderlyWalkIsFinal(cfg, m, t, t);
    }
  }

  /**
   The walk may prune with the rules loaded so far, whatever is in the .gitignore files and whatever rules
   are on file already, exactly when the tree is orderly.
   */
  lemma WalkIsFinalExactly<S>(layered: bool, t: Dir<S>)
    requires FileTree(t)
    ensures Orderly(layered, t) <==>
            forall cfg: Config<Parts>, m: map<Parts, seq<Parts>>, d: Dir<Parts> ::
              cfg.layered == layered && SameShape(d, t) ==> StaysRight(cfg, m, d)
  {
    if Orderly(layered, t) {
      forall cfg: Config<Parts>, m: map<Parts, seq<Parts>>, d: Dir<Parts> | cfg.layered == layered && SameShape(d, t)
        ensures StaysRight(cfg, m, d)
      {
        OrderlyWalkIsFinal(cfg, m, d, t);
      }
    } else {
      var cfg, path := DisorderlyTreeGoesWrong(layered, t);
      LabelledHasShape(t, []);
      assert !StaysRight(cfg, map[], Labelled(t, []));
    }
  }

  /** Trees without a backslash in a name are orderly. */
  lemma CleanTreeIsOrderly<R>(layered: bool, t: Dir<R>)
    requires FileTree(t) && CleanDir(t)
    ensures Orderly(layered, t)
  {
    CleanWalkIsSettled(layered, Blind<R>(false), map[], t);
  }
}
