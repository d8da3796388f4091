/**
 When the walk of analyzers/ignore_spec.py prunes with the rules that hold in the end: exactly on the
 trees in which no directory is reached too late for one that consults it, whatever the rules are.
 */
module IgnoreOrder {
  import opened Text
  import opened IgnoreEval
  import opened IgnoreWalk

  /******* The order of a walk, rules left aside *******/

  /** Nothing matches, so that a walk goes everywhere but into the skipped names. */
  function Blind<R>(layered: bool): Config<R> {
    Config(Backend((r: R, s: string) => false, (r: R) => false), layered, [])
  }

  /** What a walk does when it prunes by name alone; this depends on the tree and on nothing else. */
  function FullWalk<R>(t: Dir<R>): seq<Event<R>> {
    Visit(Blind(false), map[], t, [])
  }

  /** A condition on names and their order: a directory with rules is reached before those that consult it. */
  ghost predicate Orderly<R>(layered: bool, t: Dir<R>) {
    Settled(layered, FullWalk(t))
  }

  /** The same names in the same order, and rules in the same directories. */
  predicate SameShape<R, S>(d: Dir<R>, t: Dir<S>) {
    && (d.rules == [] <==> t.rules == [])
    && |d.children| == |t.children|
    && forall i :: 0 <= i < |d.children| ==>
         d.children[i].name == t.children[i].name && SameShape(d.children[i].dir, t.children[i].dir)
  }

  /** The same thing happens to the same directory; rules and verdicts may differ. */
  predicate SameStep<R, S>(e: Event<R>, f: Event<S>) {
    e.Load? == f.Load? && e.path == f.path
  }

  lemma {:induction false} NothingHits<R>(f: Backend<R>, js: seq<Judged<R>>)
    requires forall j :: j in js ==> !Hits(f, j)
    ensures !Decide(f, js)
  {
    if js != [] {
      NothingHits(f, js[..|js| - 1]);
    }
  }

  lemma BlindKeeps<R>(m: map<Parts, seq<R>>, relPath: string)
    ensures !Answers(Blind(false), m)(relPath)
  {
    var cfg: Config<R>, p := Blind(false), Normalize(relPath);
    if p != "" {
      NothingHits(cfg.b, AllRules(cfg.global, m, Split(p, '/')));
    }
  }

  /** A child that is not pruned is kept. */
  lemma {:induction false} KeptHas<R>(answers: string -> bool, d: Dir<R>, rel: Parts, n: nat, i: nat)
    requires i < n <= |d.children| && !Pruned(answers, rel, d.children[i].name)
    ensures i in Kept(answers, d, rel, n)
  {
    var kept := Kept(answers, d, rel, n);
    if i < n - 1 {
      KeptHas(answers, d, rel, n - 1, i);
    } else {
      assert kept[|kept| - 1] == i;
    }
  }

  /** The full walk keeps whatever another one keeps. */
  lemma BlindKeepsMore<R, S>(answers: string -> bool, d: Dir<R>, m: map<Parts, seq<S>>, t: Dir<S>, rel: Parts)
    requires SameShape(d, t)
    ensures forall i :: i in Kept(answers, d, rel, |d.children|) ==>
            i in Kept(Answers(Blind(false), m), t, rel, |t.children|)
  {
    forall i | i in Kept(answers, d, rel, |d.children|)
      ensures i in Kept(Answers(Blind(false), m), t, rel, |t.children|)
    {
      BlindKeeps(m, ChildRel(rel, t.children[i].name));
      KeptHas(Answers(Blind(false), m), t, rel, |t.children|, i);
    }
  }

  /******* Walks that leave something out *******/

  /** The steps of es are some of those of full, in the same order. */
  ghost predicate PartOf<R, S>(es: seq<Event<R>>, full: seq<Event<S>>)
    decreases full
  {
    || es == []
    || (full != [] && PartOf(es, full[1..]))
    || (full != [] && SameStep(es[0], full[0]) && PartOf(es[1..], full[1..]))
  }

  lemma {:induction false} PartOfConcat<R, S>(a: seq<Event<R>>, b: seq<Event<R>>, a': seq<Event<S>>, b': seq<Event<S>>)
    requires PartOf(a, a') && PartOf(b, b')
    ensures PartOf(a + b, a' + b')
    decreases a'
  {
    var es, full := a + b, a' + b';
    if a' == [] {
      assert es == b && full == b';
    } else {
      assert full[1..] == a'[1..] + b' && full[0] == a'[0];
      if PartOf(a, a'[1..]) {
        PartOfConcat(a, b, a'[1..], b');
      } else {
        assert es[1..] == a[1..] + b;
        PartOfConcat(a[1..], b, a'[1..], b');
      }
    }
  }

  /** One step of the part is a step of the whole, and two are two, in their order. */
  lemma {:induction false} StepInWhole<R, S>(es: seq<Event<R>>, full: seq<Event<S>>, i: nat)
    requires PartOf(es, full) && i < |es|
    ensures exists k :: 0 <= k < |full| && SameStep(es[i], full[k])
    decreases full
  {
    if PartOf(es, full[1..]) {
      StepInWhole(es, full[1..], i);
      var k :| 0 <= k < |full[1..]| && SameStep(es[i], full[1..][k]);
      assert SameStep(es[i], full[k + 1]);
    } else if i > 0 {
      StepInWhole(es[1..], full[1..], i - 1);
      var k :| 0 <= k < |full[1..]| && SameStep(es[1..][i - 1], full[1..][k]);
      assert SameStep(es[i], full[k + 1]);
    }
  }

  lemma {:induction false} StepsInWhole<R, S>(es: seq<Event<R>>, full: seq<Event<S>>, i: nat, j: nat)
    requires PartOf(es, full) && i < j < |es|
    ensures exists k, l :: 0 <= k < l < |full| && SameStep(es[i], full[k]) && SameStep(es[j], full[l])
    decreases full
  {
    var k: nat, l: nat;
    if PartOf(es, full[1..]) {
      StepsInWhole(es, full[1..], i, j);
      k, l :| 0 <= k < l < |full[1..]| && SameStep(es[i], full[1..][k]) && SameStep(es[j], full[1..][l]);
      k, l := k + 1, l + 1;
    } else if i > 0 {
      StepsInWhole(es[1..], full[1..], i - 1, j - 1);
      k, l :| 0 <= k < l < |full[1..]| && SameStep(es[1..][i - 1], full[1..][k])
          && SameStep(es[1..][j - 1], full[1..][l]);
      k, l := k + 1, l + 1;
    } else {
      StepInWhole(es[1..], full[1..], j - 1);
      k := 0;
      l :| 0 <= l < |full[1..]| && SameStep(es[1..][j - 1], full[1..][l]);
      l := l + 1;
    }
    assert SameStep(es[i], full[k]) && SameStep(es[j], full[l]);
  }

  lemma {:induction false} AskedAlike<R, S>(answers: string -> bool, answers': string -> bool, d: Dir<R>, t: Dir<S>,
                                            rel: Parts, n: nat)
    requires n <= |d.children| && SameShape(d, t)
    ensures PartOf(Asked(answers, d, rel, n), Asked(answers', t, rel, n))
  {
    if n > 0 {
      var name := d.children[n - 1].name;
      AskedAlike(answers, answers', d, t, rel, n - 1);
      if !Skipped(name) {
        var e: Event<R>, e': Event<S> := Judge(rel + [name], answers(ChildRel(rel, name))),
            Judge(rel + [name], answers'(ChildRel(rel, name)));
        assert PartOf([e][1..], [e'][1..]);
        PartOfConcat(Asked(answers, d, rel, n - 1), [e], Asked(answers', t, rel, n - 1), [e']);
      }
    }
  }

  lemma LoadsAlike<R, S>(d: Dir<R>, t: Dir<S>, rel: Parts)
    requires SameShape(d, t)
    ensures PartOf(Loads(d, rel), Loads(t, rel))
  {
    if rel != [] && d.rules != [] {
      assert PartOf(Loads(d, rel)[1..], Loads(t, rel)[1..]);
    }
  }

  /** The children of one directory, judged and visited. */
  function Rest<R>(cfg: Config<R>, m: map<Parts, seq<R>>, d: Dir<R>, rel: Parts): seq<Event<R>> {
    Asked(Answers(cfg, m), d, rel, |d.children|) +
    Descend(cfg, m, d, Kept(Answers(cfg, m), d, rel, |d.children|), 0, rel)
  }

  lemma VisitIsLoadsAndRest<R>(cfg: Config<R>, m: map<Parts, seq<R>>, d: Dir<R>, rel: Parts)
    ensures Visit(cfg, m, d, rel) == Loads(d, rel) + Rest(cfg, RulesAfter(m, Loads(d, rel)), d, rel)
  {
  }

  /** Whatever its rules and its evaluator, a walk does some of the steps of the full walk in the same order. */
  lemma {:induction false} VisitIsPart<R, S>(cfg: Config<R>, m: map<Parts, seq<R>>, d: Dir<R>,
                                             m': map<Parts, seq<S>>, t: Dir<S>, rel: Parts)
    requires SameShape(d, t)
    ensures PartOf(Visit(cfg, m, d, rel), Visit(Blind(false), m', t, rel))
    decreases t, |t.children| + 2
  {
    var m1, m1' := RulesAfter(m, Loads(d, rel)), RulesAfter(m', Loads(t, rel));
    LoadsAlike(d, t, rel);
    RestIsPart(cfg, m1, d, m1', t, rel);
    PartOfConcat(Loads(d, rel), Rest(cfg, m1, d, rel), Loads(t, rel), Rest(Blind(false), m1', t, rel));
    VisitIsLoadsAndRest(cfg, m, d, rel);
    VisitIsLoadsAndRest(Blind(false), m', t, rel);
  }

  lemma {:induction false} RestIsPart<R, S>(cfg: Config<R>, m: map<Parts, seq<R>>, d: Dir<R>,
                                            m': map<Parts, seq<S>>, t: Dir<S>, rel: Parts)
    requires SameShape(d, t)
    ensures PartOf(Rest(cfg, m, d, rel), Rest(Blind(false), m', t, rel))
    decreases t, |t.children| + 1
  {
    var n, answers, answers' := |d.children|, Answers(cfg, m), Answers<S>(Blind(false), m');
    var kept, kept' := Kept(answers, d, rel, n), Kept(answers', t, rel, n);
    AskedAlike(answers, answers', d, t, rel, n);
    BlindKeepsMore(answers, d, m', t, rel);
    DescendIsPart(cfg, m, d, kept, 0, m', t, kept', 0, rel);
    PartOfConcat(Asked(answers, d, rel, n), Descend(cfg, m, d, kept, 0, rel),
                 Asked(answers', t, rel, n), Descend(Blind(false), m', t, kept', 0, rel));
  }

  /** The choices still to come, one smaller choice passed over. */
  lemma PassOver(kept: seq<nat>, k: nat, kept': seq<nat>, k': nat, n: nat)
    requires Selection(kept, n) && Selection(kept', n) && k < |kept| && k' < |kept'|
    requires forall l :: k <= l < |kept| ==> kept[l] in kept'[k'..]
    ensures forall l :: k <= l < |kept| && kept[l] != kept'[k'] ==> kept[l] in kept'[k' + 1..]
    ensures kept[k] != kept'[k'] ==> forall l :: k <= l < |kept| ==> kept[l] in kept'[k' + 1..]
  {
    forall l | k <= l < |kept| && kept[l] != kept'[k'] ensures kept[l] in kept'[k' + 1..] {
      var i :| 0 <= i < |kept'[k'..]| && kept'[k'..][i] == kept[l];
      assert kept'[k' + 1..][i - 1] == kept[l];
    }
    if kept[k] != kept'[k'] {
      var i :| 0 <= i < |kept'[k'..]| && kept'[k'..][i] == kept[k];
      assert kept'[k' + i] == kept[k] > kept'[k'];
    }
  }

  lemma {:induction false} DescendIsPart<R, S>(cfg: Config<R>, m: map<Parts, seq<R>>, d: Dir<R>, kept: seq<nat>, k: nat,
                                               m': map<Parts, seq<S>>, t: Dir<S>, kept': seq<nat>, k': nat, rel: Parts)
    requires SameShape(d, t) && Selection(kept, |d.children|) && Selection(kept', |t.children|)
    requires k <= |kept| && k' <= |kept'| && forall l :: k <= l < |kept| ==> kept[l] in kept'[k'..]
    ensures PartOf(Descend(cfg, m, d, kept, k, rel), Descend(Blind(false), m', t, kept', k', rel))
    decreases t, |kept'| - k'
  {
    if k < |kept| {
      assert kept[k] in kept'[k'..];
      PassOver(kept, k, kept', k', |d.children|);
      var c' := t.children[kept'[k']];
      var first' := Visit(Blind(false), m', c'.dir, rel + [c'.name]);
      var others' := Descend(Blind(false), RulesAfter(m', first'), t, kept', k' + 1, rel);
      if kept[k] == kept'[k'] {
        var c := d.children[kept[k]];
        var first := Visit(cfg, m, c.dir, rel + [c.name]);
        VisitIsPart(cfg, m, c.dir, m', c'.dir, rel + [c.name]);
        DescendIsPart(cfg, RulesAfter(m, first), d, kept, k + 1, RulesAfter(m', first'), t, kept', k' + 1, rel);
        PartOfConcat(first, Descend(cfg, RulesAfter(m, first), d, kept, k + 1, rel), first', others');
      } else {
        DescendIsPart(cfg, m, d, kept, k, RulesAfter(m', first'), t, kept', k' + 1, rel);
        PartOfConcat([], Descend(cfg, m, d, kept, k, rel), first', others');
        assert [] + Descend(cfg, m, d, kept, k, rel) == Descend(cfg, m, d, kept, k, rel);
      }
    }
  }

  /** In an orderly tree every walk is settled, whatever the rules. */
  lemma OrderlyWalkIsSettled<R, S>(cfg: Config<R>, m: map<Parts, seq<R>>, d: Dir<R>, t: Dir<S>)
    requires SameShape(d, t) && Orderly(cfg.layered, t)
    ensures Settled(cfg.layered, Visit(cfg, m, d, []))
  {
    var es, full := Visit(cfg, m, d, []), FullWalk(t);
    VisitIsPart(cfg, m, d, map[], t, []);
    forall i, j | 0 <= i < j < |es| && es[i].Judge? && es[j].Load?
      ensures !OnTheWay(cfg.layered, Key(es[j].path), es[i].path)
    {
      StepsInWhole(es, full, i, j);
      var k, l :| 0 <= k < l < |full| && SameStep(es[i], full[k]) && SameStep(es[j], full[l]);
    }
  }
}
