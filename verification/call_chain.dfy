/** Layered search in the call graph (analyzers/call_chain.py). */
module CallChain {

  type Name = string

  /** One row of the current call versions. */
  datatype Edge = Edge(caller: Name, callee: Name)

  /** A step of a search: from `via`, the search finds `found`. */
  datatype Link = Link(found: Name, via: Name)

  /** Upwards, a callee leads to its callers; rows with an empty name are never used. */
  function LinksUp(edges: set<Edge>): set<Link> {
    set e | e in edges && e.caller != "" && e.callee != "" :: Link(e.caller, e.callee)
  }

  function LinksDown(edges: set<Edge>): set<Link> {
    set e | e in edges && e.caller != "" && e.callee != "" :: Link(e.callee, e.caller)
  }

  /******* Distances *******/

  /** The nodes within d steps of the start. */
  function Ball(links: set<Link>, start: Name, d: nat): set<Name> {
    if d == 0 then {start}
    else Ball(links, start, d - 1) + Successors(links, Ball(links, start, d - 1))
  }

  function Successors(links: set<Link>, from: set<Name>): set<Name> {
    set l | l in links && l.via in from :: l.found
  }

  /** The nodes at distance exactly d. */
  function Ring(links: set<Link>, start: Name, d: nat): set<Name> {
    if d == 0 then {start} else Ball(links, start, d) - Ball(links, start, d - 1)
  }

  ghost predicate IsPath(links: set<Link>, path: seq<Name>) {
    |path| > 0 && forall i :: 0 < i < |path| ==> Link(path[i], path[i - 1]) in links
  }

  ghost predicate PathTo(links: set<Link>, start: Name, path: seq<Name>, end: Name) {
    IsPath(links, path) && path[0] == start && path[|path| - 1] == end
  }

  lemma {:induction false} PathStaysInBall(links: set<Link>, start: Name, path: seq<Name>, end: Name, d: nat)
    requires PathTo(links, start, path, end) && |path| - 1 <= d
    ensures end in Ball(links, start, d)
    decreases d
  {
    if d > 0 {
      if |path| == 1 {
        PathStaysInBall(links, start, path, end, d - 1);
      } else {
        PathStaysInBall(links, start, path[..|path| - 1], path[|path| - 2], d - 1);
        assert Link(path[|path| - 1], path[|path| - 2]) in links;
      }
    }
  }

  lemma {:induction false} BallHasPath(links: set<Link>, start: Name, end: Name, d: nat) returns (path: seq<Name>)
    requires end in Ball(links, start, d)
    ensures PathTo(links, start, path, end) && |path| - 1 <= d
    decreases d
  {
    if d == 0 {
      path := [start];
    } else if end in Ball(links, start, d - 1) {
      path := BallHasPath(links, start, end, d - 1);
    } else {
      var l :| l in links && l.via in Ball(links, start, d - 1) && l.found == end;
      var before := BallHasPath(links, start, l.via, d - 1);
      path := before + [end];
      assert Link(end, before[|before| - 1]) in links;
    }
  }

  /** A ring is what its name says: a shortest path of length d ends in each of its nodes. */
  lemma RingIsShortestDistance(links: set<Link>, start: Name, end: Name, d: nat)
    ensures end in Ring(links, start, d) <==>
            && (exists path :: PathTo(links, start, path, end) && |path| - 1 == d)
            && (forall path :: PathTo(links, start, path, end) ==> |path| - 1 >= d)
  {
    forall path, k: nat | PathTo(links, start, path, end) && |path| - 1 <= k ensures end in Ball(links, start, k) {
      PathStaysInBall(links, start, path, end, k);
    }
    if end in Ring(links, start, d) {
      var path := BallHasPath(links, start, end, d);
    }
    if d > 0 && end in Ball(links, start, d - 1) {
      var path := BallHasPath(links, start, end, d - 1);
    }
  }

  /******* In terms of calls *******/

  /** A row that is used: rows with an empty name are not. */
  predicate IsCall(edges: set<Edge>, caller: Name, callee: Name) {
    Edge(caller, callee) in edges && caller != "" && callee != ""
  }

  /** Calls from each function to the next. */
  ghost predicate IsCallPath(edges: set<Edge>, path: seq<Name>) {
    |path| > 0 && forall i :: 0 < i < |path| ==> IsCall(edges, path[i - 1], path[i])
  }

  ghost predicate Calls(edges: set<Edge>, path: seq<Name>, caller: Name, callee: Name) {
    IsCallPath(edges, path) && path[0] == caller && path[|path| - 1] == callee
  }

  /** The shortest chain of calls from one function to another has d calls. */
  ghost predicate CallsAway(edges: set<Edge>, caller: Name, callee: Name, d: nat) {
    && (exists path :: Calls(edges, path, caller, callee) && |path| - 1 == d)
    && (forall path :: Calls(edges, path, caller, callee) ==> |path| - 1 >= d)
  }

  lemma CallsAreDown(edges: set<Edge>, path: seq<Name>, caller: Name, callee: Name)
    ensures Calls(edges, path, caller, callee) <==> PathTo(LinksDown(edges), caller, path, callee)
  {
    if Calls(edges, path, caller, callee) {
      forall i | 0 < i < |path| ensures Link(path[i], path[i - 1]) in LinksDown(edges) {
        assert IsCall(edges, path[i - 1], path[i]);
        var e := Edge(path[i - 1], path[i]);
        assert e in edges && Link(e.callee, e.caller) in LinksDown(edges);
      }
    }
    if PathTo(LinksDown(edges), caller, path, callee) {
      forall i | 0 < i < |path| ensures IsCall(edges, path[i - 1], path[i]) {
        assert Link(path[i], path[i - 1]) in LinksDown(edges);
      }
    }
  }

  /** Downwards, a level holds the functions that the start calls in that many steps and no fewer. */
  lemma DownIsCallees(edges: set<Edge>, start: Name, x: Name, d: nat)
    ensures x in Ring(LinksDown(edges), start, d) <==> CallsAway(edges, start, x, d)
  {
    RingIsShortestDistance(LinksDown(edges), start, x, d);
    forall path ensures Calls(edges, path, start, x) <==> PathTo(LinksDown(edges), start, path, x) {
      CallsAreDown(edges, path, start, x);
    }
  }

  /** Upwards, a level holds the functions that call the start in that many steps and no fewer. */
  lemma UpIsCallers(edges: set<Edge>, start: Name, x: Name, d: nat)
    ensures x in Ring(LinksUp(edges), start, d) <==> CallsAway(edges, x, start, d)
  {
    UpIsDown(edges, x, start, d);
    DownIsCallees(edges, x, start, d);
  }

  lemma {:induction false} ReversedPath(edges: set<Edge>, path: seq<Name>) returns (back: seq<Name>)
    requires IsPath(LinksUp(edges), path)
    ensures IsPath(LinksDown(edges), back) && |back| == |path|
    ensures back[0] == path[|path| - 1] && back[|back| - 1] == path[0]
  {
    if |path| == 1 {
      back := path;
    } else {
      var tail := ReversedPath(edges, path[..|path| - 1]);
      back := [path[|path| - 1]] + tail;
      var l := Link(path[|path| - 1], path[|path| - 2]);
      assert l in LinksUp(edges);
      assert Link(l.via, l.found) in LinksDown(edges);
      forall i | 0 < i < |back| ensures Link(back[i], back[i - 1]) in LinksDown(edges) {
        assert i > 1 ==> Link(tail[i - 1], tail[i - 2]) in LinksDown(edges);
      }
    }
  }

  function Flip(edges: set<Edge>): set<Edge> {
    set e | e in edges :: Edge(e.callee, e.caller)
  }

  lemma FlipSwapsLinks(edges: set<Edge>)
    ensures LinksUp(Flip(edges)) == LinksDown(edges) && LinksDown(Flip(edges)) == LinksUp(edges)
  {
    forall e | e in edges ensures Edge(e.callee, e.caller) in Flip(edges) {
    }
    assert forall l :: l in LinksDown(edges) ==> Edge(l.found, l.via) in Flip(edges);
    assert forall l :: l in LinksUp(edges) ==> Edge(l.via, l.found) in Flip(edges);
  }

  lemma UpInBallIsDownInBall(edges: set<Edge>, x: Name, y: Name, d: nat)
    requires x in Ball(LinksUp(edges), y, d)
    ensures y in Ball(LinksDown(edges), x, d)
  {
    var path := BallHasPath(LinksUp(edges), y, x, d);
    var back := ReversedPath(edges, path);
    PathStaysInBall(LinksDown(edges), x, back, y, d);
  }

  /** The two directions agree: x is d levels above y exactly when y is d levels below x. */
  lemma UpIsDown(edges: set<Edge>, x: Name, y: Name, d: nat)
    ensures x in Ring(LinksUp(edges), y, d) <==> y in Ring(LinksDown(edges), x, d)
  {
    FlipSwapsLinks(edges);
    forall k: nat ensures x in Ball(LinksUp(edges), y, k) <==> y in Ball(LinksDown(edges), x, k) {
      if x in Ball(LinksUp(edges), y, k) {
        UpInBallIsDownInBall(edges, x, y, k);
      }
      if y in Ball(LinksDown(edges), x, k) {
        UpInBallIsDownInBall(Flip(edges), y, x, k);
      }
    }
  }

  /** The next ring only has to be looked for from the last one. */
  lemma NextRing(links: set<Link>, start: Name, d: nat)
    ensures Ball(links, start, d) + Successors(links, Ring(links, start, d)) == Ball(links, start, d + 1)
    ensures Ring(links, start, d + 1) == Successors(links, Ring(links, start, d)) - Ball(links, start, d)
  {
    if d > 0 {
      assert Successors(links, Ball(links, start, d)) ==
             Successors(links, Ball(links, start, d - 1)) + Successors(links, Ring(links, start, d));
    }
  }

  /** After an empty ring there are no others. */
  lemma {:induction false} RingsStayEmpty(links: set<Link>, start: Name, d: nat, e: nat)
    requires d <= e && Ring(links, start, d) == {}
    ensures Ring(links, start, e) == {}
    decreases e
  {
    if d < e {
      RingsStayEmpty(links, start, d, e - 1);
      assert Successors(links, {}) == {};
      NextRing(links, start, e - 1);
    }
  }

  /******* The search *******/

  datatype Found = Found(name: Name, via: Name, depth: nat)

  datatype Chain = Chain(start: Name, maxDepthReached: nat, total: nat, levels: seq<seq<Found>>, all: set<Name>)

  function NamesOf(level: seq<Found>): set<Name> {
    set f | f in level :: f.name
  }

  ghost predicate Distinct(level: seq<Found>) {
    forall i, j :: 0 <= i < j < |level| ==> level[i].name != level[j].name
  }

  /** Level d lists the ring at distance d, each node once and with a real edge into the ring before. */
  ghost predicate LevelExact(links: set<Link>, start: Name, level: seq<Found>, d: nat)
    requires d > 0
  {
    && NamesOf(level) == Ring(links, start, d) && Distinct(level)
    && forall f :: f in level ==>
         f.depth == d && Link(f.name, f.via) in links && f.via in Ring(links, start, d - 1)
  }

  /** Listed once each, the entries of a level are as many as its nodes. */
  lemma {:induction false} LevelSize(level: seq<Found>)
    requires Distinct(level)
    ensures |level| == |NamesOf(level)|
  {
    if level != [] {
      var n := |level| - 1;
      LevelSize(level[..n]);
      assert level == level[..n] + [level[n]];
      assert NamesOf(level) == NamesOf(level[..n]) + {level[n].name};
    }
  }

  ghost predicate LevelsExact(links: set<Link>, start: Name, levels: seq<seq<Found>>) {
    forall k :: 0 <= k < |levels| ==> levels[k] != [] && LevelExact(links, start, levels[k], k + 1)
  }

  /** Every ring that is not empty, up to the depth bound, in order; and the totals. */
  ghost predicate Exact(links: set<Link>, c: Chain, maxDepth: int) {
    && LevelsExact(links, c.start, c.levels)
    && |c.levels| == c.maxDepthReached <= (if maxDepth < 0 then 0 else maxDepth)
    && (forall d :: c.maxDepthReached < d <= maxDepth ==> Ring(links, c.start, d) == {})
    && c.all == Ball(links, c.start, c.maxDepthReached) - {c.start}
    && c.total == |c.all|
  }

  /** The elements of a set in any order: the order of a Python set, or of the rows of a query. */
  method InSomeOrder<T(==)>(s: set<T>) returns (q: seq<T>)
    ensures forall x :: x in q <==> x in s
    ensures |q| == |s|
    ensures forall i, j :: 0 <= i < j < |q| ==> q[i] != q[j]
  {
    q := [];
    var rest := s;
    while rest != {}
      invariant rest <= s
      invariant forall x :: x in q <==> x in s - rest
      invariant |q| + |rest| == |s|
      invariant forall i, j :: 0 <= i < j < |q| ==> q[i] != q[j]
      decreases rest
    {
      var x :| x in rest;
      q := q + [x];
      rest := rest - {x};
    }
  }

  /** One query: the distinct rows whose near end is in the chunk. */
  method Query(links: set<Link>, chunk: seq<Name>) returns (rows: seq<Link>)
    ensures forall l :: l in rows <==> l in links && l.via in chunk
  {
    var matching := set l | l in links && l.via in chunk;
    rows := InSomeOrder(matching);
  }

  function RowSet(rows: seq<Link>): set<Link> {
    set l | l in rows
  }

  /** The rows a query for some nodes finds. */
  function LinksFrom(links: set<Link>, from: set<Name>): set<Link> {
    set l | l in links && l.via in from
  }

  function FoundIn(links: set<Link>): set<Name> {
    set l | l in links :: l.found
  }

  /**
   What is known while one level is being collected: `known` was visited before the level,
   `seen` are the rows read so far.
   */
  ghost predicate Collecting(known: set<Name>, seen: set<Link>, d: nat,
                             visited: set<Name>, next: set<Name>, level: seq<Found>) {
    && next == FoundIn(seen) - known && visited == known + next
    && NamesOf(level) == next && Distinct(level)
    && forall f :: f in level ==> f.depth == d && Link(f.name, f.via) in seen
  }

  lemma CollectOld(known: set<Name>, seen: set<Link>, d: nat,
                   visited: set<Name>, next: set<Name>, level: seq<Found>, row: Link)
    requires Collecting(known, seen, d, visited, next, level) && row.found in visited
    ensures Collecting(known, seen + {row}, d, visited, next, level)
  {
    assert FoundIn(seen + {row}) == FoundIn(seen) + {row.found};
  }

  lemma CollectNew(known: set<Name>, seen: set<Link>, d: nat,
                   visited: set<Name>, next: set<Name>, level: seq<Found>, row: Link)
    requires Collecting(known, seen, d, visited, next, level) && row.found !in visited
    ensures Collecting(known, seen + {row}, d, visited + {row.found}, next + {row.found},
                       level + [Found(row.found, row.via, d)])
  {
    var f := Found(row.found, row.via, d);
    assert FoundIn(seen + {row}) == FoundIn(seen) + {row.found};
    assert NamesOf(level + [f]) == NamesOf(level) + {f.name};
    forall i | 0 <= i < |level| ensures level[i].name != f.name {
      assert level[i].name in NamesOf(level);
    }
  }

  /** The rows of one chunk. */
  method CollectRows(rows: seq<Link>, d: nat, visited0: set<Name>, next0: set<Name>, level0: seq<Found>,
                     ghost known: set<Name>, ghost seen: set<Link>)
    returns (visited: set<Name>, next: set<Name>, level: seq<Found>)
    requires Collecting(known, seen, d, visited0, next0, level0)
    requires forall l :: l in rows ==> l.found != ""
    ensures Collecting(known, seen + RowSet(rows), d, visited, next, level)
  {
    visited, next, level := visited0, next0, level0;
    ghost var done := seen;
    for k := 0 to |rows|
      invariant done == seen + RowSet(rows[..k])
      invariant Collecting(known, done, d, visited, next, level)
    {
      if rows[k].found != "" && rows[k].found !in visited {
        CollectNew(known, done, d, visited, next, level, rows[k]);
        visited := visited + {rows[k].found};
        next := next + {rows[k].found};
        level := level + [Found(rows[k].found, rows[k].via, d)];
      } else {
        CollectOld(known, done, d, visited, next, level, rows[k]);
      }
      done := done + {rows[k]};
    }
    assert rows[..|rows|] == rows;
  }

  /** The callers (or callees) of one level, asked for in chunks. */
  method CollectLevel(links: set<Link>, d: nat, current: set<Name>, known: set<Name>, batch: nat)
    returns (visited: set<Name>, next: set<Name>, level: seq<Found>)
    requires batch > 0 && forall l :: l in links ==> l.found != "" && l.via != ""
    ensures Collecting(known, LinksFrom(links, current), d, visited, next, level)
  {
    visited, next, level := known, {}, [];
    ghost var seen: set<Link> := {};
    var named := set c | c in current && c != "";
    var names := InSomeOrder(named);
    var i := 0;
    while i < |names|
      invariant 0 <= i <= |names|
      invariant forall l :: l in seen <==> l in links && l.via in names[..i]
      invariant Collecting(known, seen, d, visited, next, level)
    {
      var hi := if i + batch <= |names| then i + batch else |names|;
      var rows := Query(links, names[i..hi]);
      visited, next, level := CollectRows(rows, d, visited, next, level, known, seen);
      assert names[..hi] == names[..i] + names[i..hi];
      seen := seen + RowSet(rows);
      i := hi;
    }
    assert names[..|names|] == names;
    assert seen == LinksFrom(links, current);
  }

  lemma LevelIsExact(links: set<Link>, start: Name, d: nat, visited: set<Name>, next: set<Name>, level: seq<Found>)
    requires Collecting(Ball(links, start, d), LinksFrom(links, Ring(links, start, d)), d + 1, visited, next, level)
    ensures visited == Ball(links, start, d + 1) && next == Ring(links, start, d + 1)
    ensures LevelExact(links, start, level, d + 1)
  {
    NextRing(links, start, d);
    assert FoundIn(LinksFrom(links, Ring(links, start, d))) == Successors(links, Ring(links, start, d));
  }

  method NextLevel(links: set<Link>, ghost start: Name, depth: nat, current: set<Name>, known: set<Name>, batch: nat)
    returns (visited: set<Name>, next: set<Name>, level: seq<Found>)
    requires batch > 0 && forall l :: l in links ==> l.found != "" && l.via != ""
    requires known == Ball(links, start, depth) && current == Ring(links, start, depth)
    ensures visited == Ball(links, start, depth + 1) && next == Ring(links, start, depth + 1)
    ensures LevelExact(links, start, level, depth + 1)
  {
    visited, next, level := CollectLevel(links, depth + 1, current, known, batch);
    LevelIsExact(links, start, depth, visited, next, level);
  }

  lemma EmptyLevel(links: set<Link>, start: Name, d: nat)
    requires d > 0 && LevelExact(links, start, [], d)
    ensures Ring(links, start, d) == {}
  {
    assert NamesOf([]) == {};
  }

  lemma LevelsGrow(links: set<Link>, start: Name, levels: seq<seq<Found>>, level: seq<Found>)
    requires LevelsExact(links, start, levels) && level != [] && LevelExact(links, start, level, |levels| + 1)
    ensures LevelsExact(links, start, levels + [level])
  {
  }

  lemma SizeWithout(s: set<Name>, x: Name)
    requires x in s
    ensures |s - {x}| == |s| - 1
  {
  }

  /** The levels were collected up to the bound or to the first empty ring. */
  ghost predicate Collected(links: set<Link>, start: Name, levels: seq<seq<Found>>, visited: set<Name>, maxDepth: int) {
    && LevelsExact(links, start, levels)
    && visited == Ball(links, start, |levels|)
    && (|levels| == (if maxDepth < 0 then 0 else maxDepth) ||
        (|levels| < maxDepth && Ring(links, start, |levels| + 1) == {}))
  }

  method CollectLevels(links: set<Link>, start: Name, maxDepth: int, batch: nat)
    returns (levels: seq<seq<Found>>, visited: set<Name>)
    requires batch > 0
    requires forall l :: l in links ==> l.found != "" && l.via != ""
    ensures Collected(links, start, levels, visited, maxDepth)
  {
    var current := {start};
    levels, visited := [], {start};
    for depth := 0 to if maxDepth < 0 then 0 else maxDepth
      invariant depth == |levels|
      invariant visited == Ball(links, start, depth) && current == Ring(links, start, depth)
      invariant LevelsExact(links, start, levels)
    {
      var wider, next, level := NextLevel(links, start, depth, current, visited, batch);
      if level == [] {
        EmptyLevel(links, start, depth + 1);
        break;
      }
      LevelsGrow(links, start, levels, level);
      levels := levels + [level];
      visited, current := wider, next;
    }
  }

  /** The search both directions share; the batch size of the queries is a parameter. */
  method LayeredSearch(links: set<Link>, start: Name, maxDepth: int, batch: nat) returns (c: Chain)
    requires batch > 0
    requires forall l :: l in links ==> l.found != "" && l.via != ""
    ensures c.start == start && Exact(links, c, maxDepth)
  {
    var levels, visited := CollectLevels(links, start, maxDepth, batch);
    StartInBall(links, start, |levels|);
    SizeWithout(visited, start);
    c := Chain(start, |levels|, |visited| - 1, levels, visited - {start});
    SearchIsExact(links, c, maxDepth);
  }

  lemma SearchIsExact(links: set<Link>, c: Chain, maxDepth: int)
    requires LevelsExact(links, c.start, c.levels)
    requires |c.levels| == (if maxDepth < 0 then 0 else maxDepth) ||
             (|c.levels| < maxDepth && Ring(links, c.start, |c.levels| + 1) == {})
    requires c.maxDepthReached == |c.levels| && c.total == |c.all|
    requires c.all == Ball(links, c.start, |c.levels|) - {c.start}
    ensures Exact(links, c, maxDepth)
  {
    forall d | |c.levels| < d <= maxDepth ensures Ring(links, c.start, d) == {} {
      RingsStayEmpty(links, c.start, |c.levels| + 1, d);
    }
  }

  lemma {:induction false} StartInBall(links: set<Link>, start: Name, d: nat)
    ensures start in Ball(links, start, d)
  {
    if d > 0 {
      StartInBall(links, start, d - 1);
    }
  }

  /** The d-th level of an exact answer is the ring at distance d; all nodes are those of the rings within the bound. */
  lemma LevelsOfAll(links: set<Link>, c: Chain, maxDepth: int)
    requires Exact(links, c, maxDepth)
    ensures forall k, x :: 0 <= k < |c.levels| ==> (x in NamesOf(c.levels[k]) <==> x in Ring(links, c.start, k + 1))
    ensures forall x :: x in c.all <==> exists d: nat :: 0 < d <= maxDepth && x in Ring(links, c.start, d)
    ensures forall k, f :: 0 <= k < |c.levels| && f in c.levels[k] ==> Link(f.name, f.via) in links
  {
    forall x ensures x in c.all <==> exists d: nat :: 0 < d <= maxDepth && x in Ring(links, c.start, d) {
      AllIsRings(links, c.start, c.maxDepthReached, maxDepth, x);
    }
    forall k | 0 <= k < |c.levels| ensures LevelExact(links, c.start, c.levels[k], k + 1) {
    }
  }

  lemma AllIsRings(links: set<Link>, start: Name, reached: nat, maxDepth: int, x: Name)
    requires reached <= maxDepth || reached == 0
    requires forall d :: reached < d <= maxDepth ==> Ring(links, start, d) == {}
    ensures x in Ball(links, start, reached) - {start} <==>
            exists d: nat :: 0 < d <= maxDepth && x in Ring(links, start, d)
  {
    if x in Ball(links, start, reached) && x != start {
      var d := RingInBall(links, start, reached, x);
    }
    if d: nat :| 0 < d <= maxDepth && x in Ring(links, start, d) {
      RingIsInside(links, start, d, reached, x);
    }
  }

  lemma {:induction false} RingInBall(links: set<Link>, start: Name, n: nat, x: Name) returns (d: nat)
    requires x in Ball(links, start, n) && x != start
    ensures 0 < d <= n && x in Ring(links, start, d)
  {
    d := n;
    if x in Ball(links, start, n - 1) {
      d := RingInBall(links, start, n - 1, x);
    }
  }

  lemma RingIsInside(links: set<Link>, start: Name, d: nat, n: nat, x: Name)
    requires 0 < d <= n && x in Ring(links, start, d)
    ensures x in Ball(links, start, n) && x != start
  {
    StartInBall(links, start, d - 1);
    BallGrows(links, start, d, n);
  }

  lemma {:induction false} BallGrows(links: set<Link>, start: Name, d: nat, n: nat)
    requires d <= n
    ensures Ball(links, start, d) <= Ball(links, start, n)
  {
    if d < n {
      BallGrows(links, start, d, n - 1);
    }
  }

  const BATCH_SIZE: nat := 500

  /** `get_call_chain_up` */
  method GetCallChainUp(edges: set<Edge>, qualifiedName: Name, maxDepth: int := 10) returns (c: Chain)
    ensures c.start == qualifiedName && Exact(LinksUp(edges), c, maxDepth)
    ensures forall k, f :: 0 <= k < |c.levels| && f in c.levels[k] ==> Edge(f.name, f.via) in edges
    ensures forall k, x :: 0 <= k < |c.levels| ==>
              (x in NamesOf(c.levels[k]) <==> CallsAway(edges, x, qualifiedName, k + 1))
    ensures forall x :: x in c.all <==> exists d: nat :: 0 < d <= maxDepth && CallsAway(edges, x, qualifiedName, d)
  {
    c := LayeredSearch(LinksUp(edges), qualifiedName, maxDepth, BATCH_SIZE);
    forall x, d: nat ensures x in Ring(LinksUp(edges), qualifiedName, d) <==> CallsAway(edges, x, qualifiedName, d) {
      UpIsCallers(edges, qualifiedName, x, d);
    }
    LevelsOfAll(LinksUp(edges), c, maxDepth);
  }

  /** `get_call_chain_down` */
  method GetCallChainDown(edges: set<Edge>, qualifiedName: Name, maxDepth: int := 10) returns (c: Chain)
    ensures c.start == qualifiedName && Exact(LinksDown(edges), c, maxDepth)
    ensures forall k, f :: 0 <= k < |c.levels| && f in c.levels[k] ==> Edge(f.via, f.name) in edges
    ensures forall k, x :: 0 <= k < |c.levels| ==>
              (x in NamesOf(c.levels[k]) <==> CallsAway(edges, qualifiedName, x, k + 1))
    ensures forall x :: x in c.all <==> exists d: nat :: 0 < d <= maxDepth && CallsAway(edges, qualifiedName, x, d)
  {
    c := LayeredSearch(LinksDown(edges), qualifiedName, maxDepth, BATCH_SIZE);
    forall x, d: nat ensures x in Ring(LinksDown(edges), qualifiedName, d) <==> CallsAway(edges, qualifiedName, x, d) {
      DownIsCallees(edges, qualifiedName, x, d);
    }
    LevelsOfAll(LinksDown(edges), c, maxDepth);
  }

  lemma NoMoreLevels(links: set<Link>, a: Chain, b: Chain, maxDepth: int)
    requires Exact(links, a, maxDepth) && Exact(links, b, maxDepth) && a.start == b.start
    ensures |b.levels| <= |a.levels|
  {
    forall d: nat | 0 < d <= |b.levels| ensures Ring(links, b.start, d) != {} {
      assert b.levels[d - 1][0].name in NamesOf(b.levels[d - 1]);
    }
    assert |a.levels| < maxDepth ==> Ring(links, a.start, |a.levels| + 1) == {};
  }

  /** Two exact answers to one question have the same nodes on every level, whatever the batches and row orders were. */
  lemma ExactIsUnique(links: set<Link>, a: Chain, b: Chain, maxDepth: int)
    requires Exact(links, a, maxDepth) && Exact(links, b, maxDepth) && a.start == b.start
    ensures |a.levels| == |b.levels| && a.all == b.all && a.total == b.total
    ensures forall k :: 0 <= k < |a.levels| ==> NamesOf(a.levels[k]) == NamesOf(b.levels[k])
  {
    NoMoreLevels(links, a, b, maxDepth);
    NoMoreLevels(links, b, a, maxDepth);
  }
}
