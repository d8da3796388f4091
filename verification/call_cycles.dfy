/** Cycle detection by depth-first search (the Python path of analyzers/call_chain.py). */
module CallCycles {
  import opened CallChain

  /******* The order of names *******/

  /** Python's order on strings. */
  predicate Le(a: Name, b: Name) {
    a == "" || (b != "" && (a[0] < b[0] || (a[0] == b[0] && Le(a[1..], b[1..]))))
  }

  lemma {:induction false} LeIsTotal(a: Name, b: Name)
    ensures Le(a, b) || Le(b, a)
  {
    if a != "" && b != "" && a[0] == b[0] {
      LeIsTotal(a[1..], b[1..]);
    }
  }

  lemma {:induction false} LeIsAntisymmetric(a: Name, b: Name)
    requires Le(a, b) && Le(b, a)
    ensures a == b
  {
    if a != "" {
      LeIsAntisymmetric(a[1..], b[1..]);
      assert a == [a[0]] + a[1..] && b == [b[0]] + b[1..];
    }
  }

  lemma {:induction false} LeIsTransitive(a: Name, b: Name, c: Name)
    requires Le(a, b) && Le(b, c)
    ensures Le(a, c)
  {
    if a != "" && a[0] == b[0] && b[0] == c[0] {
      LeIsTransitive(a[1..], b[1..], c[1..]);
    }
  }

  predicate IsLeast(x: Name, s: seq<Name>) {
    x in s && forall y :: y in s ==> Le(x, y)
  }

  /** `min(s)` */
  function Least(s: seq<Name>): (x: Name)
    requires s != []
    ensures IsLeast(x, s)
  {
    var n := |s| - 1;
    LeIsTotal(s[n], s[n]);
    assert s == s[..n] + [s[n]];
    if n == 0 then s[n]
    else
      var x := Least(s[..n]);
      LeIsTotal(x, s[n]);
      if Le(x, s[n]) then x
      else
        assert forall y :: y in s[..n] ==> Le(s[n], y) by {
          forall y | y in s[..n] ensures Le(s[n], y) {
            LeIsTransitive(s[n], x, y);
          }
        }
        s[n]
  }

  /** `s.index(x)` */
  function IndexOf(s: seq<Name>, x: Name): (i: nat)
    requires x in s
    ensures i < |s| && s[i] == x && x !in s[..i]
  {
    if s[0] == x then 0
    else
      var i := IndexOf(s[1..], x);
      assert s[..i + 1] == [s[0]] + s[1..][..i];
      i + 1
  }

  /******* Canonical rotation *******/

  predicate Simple(s: seq<Name>) {
    forall i, j :: 0 <= i < j < |s| ==> s[i] != s[j]
  }

  function Rotate(s: seq<Name>, k: nat): seq<Name>
    requires k <= |s|
  {
    s[k..] + s[..k]
  }

  /** The rotation that starts at the least node. */
  function Canonical(s: seq<Name>): seq<Name>
    requires s != []
  {
    Rotate(s, IndexOf(s, Least(s)))
  }

  function Wrap(x: nat, n: nat): nat {
    if x >= n then x - n else x
  }

  lemma RotateTwice(s: seq<Name>, k: nat, j: nat)
    requires k < |s| && j < |s|
    ensures Rotate(Rotate(s, k), j) == Rotate(s, Wrap(k + j, |s|))
  {
  }

  lemma RotatedAt(s: seq<Name>, k: nat, j: nat)
    requires k < |s| && j < |s|
    ensures Rotate(s, k)[j] == s[Wrap(k + j, |s|)]
    ensures forall x :: x in Rotate(s, k) <==> x in s
  {
    assert s == s[..k] + s[k..];
  }

  lemma RotationKeepsCanonical(s: seq<Name>, k: nat)
    requires k < |s| && Simple(s)
    ensures Canonical(Rotate(s, k)) == Canonical(s)
  {
    var t := Rotate(s, k);
    RotatedAt(s, k, 0);
    LeIsAntisymmetric(Least(s), Least(t));
    var j := IndexOf(t, Least(t));
    RotatedAt(s, k, j);
    RotateTwice(s, k, j);
  }

  /** All rotations of one cycle have the same canonical form, and nothing else does. */
  lemma CanonicalIdentifiesRotations(s: seq<Name>, t: seq<Name>)
    requires s != [] && t != [] && Simple(s)
    ensures Canonical(s) == Canonical(t) <==> exists k :: 0 <= k < |s| && t == Rotate(s, k)
  {
    if k :| 0 <= k < |s| && t == Rotate(s, k) {
      RotationKeepsCanonical(s, k);
    }
    if Canonical(s) == Canonical(t) {
      var n, i, j := |s|, IndexOf(s, Least(s)), IndexOf(t, Least(t));
      assert |Canonical(s)| == n && |Canonical(t)| == |t|;
      RotateTwice(t, j, Wrap(n - j, n));
      RotateTwice(s, i, Wrap(n - j, n));
    }
  }

  /******* Cycles of a graph *******/

  function Nodes(edges: set<Edge>): set<Name> {
    (set e | e in edges :: e.caller) + (set e | e in edges :: e.callee)
  }

  /** `adj[x]` */
  function Adjacent(edges: set<Edge>, x: Name): set<Name> {
    set e | e in edges && e.caller == x :: e.callee
  }

  predicate IsWalk(edges: set<Edge>, w: seq<Name>) {
    forall i :: 0 < i < |w| ==> Edge(w[i - 1], w[i]) in edges
  }

  /** A closed walk of real edges that visits no node twice and starts at its least node. */
  predicate GoodCycle(edges: set<Edge>, c: seq<Name>) {
    |c| >= 2 && c[0] == c[|c| - 1] && Simple(c[..|c| - 1]) && IsWalk(edges, c) && IsLeast(c[0], c)
  }

  predicate GoodCycles(edges: set<Edge>, cycles: seq<seq<Name>>, maxDepth: int) {
    && (forall c :: c in cycles ==> GoodCycle(edges, c) && |c| - 1 <= maxDepth)
    && (forall i, j :: 0 <= i < j < |cycles| ==> cycles[i] != cycles[j])
  }

  predicate Reported(cycles: seq<seq<Name>>, x: Name) {
    exists c :: c in cycles && x in c
  }

  /** Some directed cycle, of any shape, goes through x. */
  ghost predicate OnCycle(edges: set<Edge>, x: Name) {
    exists w :: IsWalk(edges, w) && |w| >= 2 && w[0] == x && w[|w| - 1] == x
  }

  ghost predicate Leads(edges: set<Edge>, w: seq<Name>, x: Name, y: Name) {
    IsWalk(edges, w) && w != [] && w[0] == x && w[|w| - 1] == y
  }

  /** What a search from x can get to, x included. */
  ghost function ReachableFrom(edges: set<Edge>, x: Name): set<Name> {
    set y | y in Nodes(edges) && exists w :: Leads(edges, w, x, y)
  }

  lemma WalkIsReachable(edges: set<Edge>, w: seq<Name>)
    requires IsWalk(edges, w) && forall x :: x in w ==> x in Nodes(edges)
    ensures forall x :: x in w ==> x in ReachableFrom(edges, w[0])
  {
    forall x | x in w ensures x in ReachableFrom(edges, w[0]) {
      var i :| 0 <= i < |w| && w[i] == x;
      assert Leads(edges, w[..i + 1], w[0], x);
    }
  }

  /** What `dfs` records for the open cycle s. */
  function Normalized(s: seq<Name>): seq<Name>
    requires s != []
  {
    Canonical(s) + [Least(s)]
  }

  lemma NormalizedIsGood(edges: set<Edge>, s: seq<Name>)
    requires s != [] && Simple(s) && IsWalk(edges, s) && Edge(s[|s| - 1], s[0]) in edges
    ensures GoodCycle(edges, Normalized(s)) && |Normalized(s)| == |s| + 1
    ensures forall x :: x in Normalized(s) <==> x in s
  {
    var i, c := IndexOf(s, Least(s)), Normalized(s);
    RotatedAt(s, i, 0);
    assert c[..|c| - 1] == Canonical(s);
    forall p | 0 < p < |c| ensures Edge(c[p - 1], c[p]) in edges {
      RotatedAt(s, i, p - 1);
      if p < |s| {
        RotatedAt(s, i, p);
      }
    }
  }

  /******* The search *******/

  /** The stack is a simple path of visited nodes, and the set has the same elements. */
  ghost predicate PathOk(edges: set<Edge>, path: seq<Name>, pathSet: set<Name>, visited: set<Name>) {
    && Simple(path) && IsWalk(edges, path)
    && (forall x :: x in path <==> x in pathSet)
    && pathSet <= visited <= Nodes(edges)
  }

  /** Every edge out of x leads to a visited node, and if it leads to the root, the root is in a reported cycle. */
  predicate Explored(edges: set<Edge>, visited: set<Name>, cycles: seq<seq<Name>>, root: Name, x: Name) {
    forall y :: y in Adjacent(edges, x) ==> y in visited && (y == root ==> Reported(cycles, root))
  }

  /** Every node that has left the stack is explored. */
  predicate AllExplored(edges: set<Edge>, visited: set<Name>, pathSet: set<Name>, cycles: seq<seq<Name>>, root: Name) {
    forall x :: x in visited && x !in pathSet ==> Explored(edges, visited, cycles, root, x)
  }

  lemma {:induction false} SimplePathIsShort(path: seq<Name>, nodes: set<Name>)
    requires Simple(path) && forall x :: x in path ==> x in nodes
    ensures |path| <= |nodes|
  {
    if path != [] {
      var n := |path| - 1;
      SimplePathIsShort(path[..n], nodes - {path[n]});
    }
  }

  lemma PushKeepsPath(edges: set<Edge>, path: seq<Name>, pathSet: set<Name>, visited: set<Name>, node: Name)
    requires PathOk(edges, path, pathSet, visited) && node in Nodes(edges) && node !in visited
    requires path != [] ==> Edge(path[|path| - 1], node) in edges
    ensures PathOk(edges, path + [node], pathSet + {node}, visited + {node})
  {
  }

  lemma PopKeepsPath(edges: set<Edge>, path: seq<Name>, pathSet: set<Name>, visited: set<Name>, node: Name)
    requires PathOk(edges, path + [node], pathSet + {node}, visited) && node !in pathSet
    ensures PathOk(edges, path, pathSet, visited)
  {
    var longer := path + [node];
    forall i | 0 <= i < |path| ensures path[i] == longer[i] != node {
      assert longer[i] != longer[|path|];
    }
    assert forall x :: x in longer <==> x in path || x == node;
  }

  lemma PopKeepsExplored(edges: set<Edge>, visited: set<Name>, pathSet: set<Name>, cycles: seq<seq<Name>>,
                         root: Name, node: Name)
    requires AllExplored(edges, visited, pathSet + {node}, cycles, root)
    requires forall y :: y in Adjacent(edges, node) ==> y in visited && (y == root ==> Reported(cycles, root))
    ensures AllExplored(edges, visited, pathSet, cycles, root)
  {
  }

  class CycleFinder {
    const edges: set<Edge>
    const maxDepth: int
    var visited: set<Name>
    var pathStack: seq<Name>
    var pathSet: set<Name>
    var cycles: seq<seq<Name>>

    constructor (edges: set<Edge>, maxDepth: int)
      ensures this.edges == edges && this.maxDepth == maxDepth
      ensures visited == {} && pathStack == [] && pathSet == {} && cycles == []
    {
      this.edges, this.maxDepth := edges, maxDepth;
      visited, pathStack, pathSet, cycles := {}, [], {}, [];
    }

    ghost predicate Valid()
      reads this
    {
      PathOk(edges, pathStack, pathSet, visited) && GoodCycles(edges, cycles, maxDepth)
    }

    /** The stack closes on itself: record the part of it from `node` on, in canonical form, unless it is known. */
    method Record(node: Name)
      requires Valid() && node in pathSet && |pathStack| <= maxDepth
      requires Edge(pathStack[|pathStack| - 1], node) in edges
      modifies this`cycles
      ensures Valid() && old(cycles) <= cycles
      ensures cycles == old(cycles) || cycles == old(cycles) + [Normalized(pathStack[IndexOf(pathStack, node)..])]
      ensures Normalized(pathStack[IndexOf(pathStack, node)..]) in cycles
      ensures Reported(cycles, node)
    {
      var open := pathStack[IndexOf(pathStack, node)..];
      assert open[|open| - 1] == pathStack[|pathStack| - 1];
      NormalizedIsGood(edges, open);
      assert node in Normalized(open);
      if Normalized(open) !in cycles {
        cycles := cycles + [Normalized(open)];
      }
    }

    /** The depth bound cannot cut the search from a root short. */
    ghost predicate Deep(root: Name) {
      |ReachableFrom(edges, root)| <= maxDepth
    }

    ghost predicate Complete(root: Name)
      reads this
    {
      && Valid() && (pathStack != [] ==> pathStack[0] == root)
      && (Deep(root) ==> AllExplored(edges, visited, pathSet, cycles, root))
    }

    /** An edge to y has been dealt with. */
    ghost predicate Done(root: Name, y: Name)
      reads this
    {
      Deep(root) ==> y in visited && (y == root ==> Reported(cycles, root))
    }

    /** The call `dfs(node, depth)` continues the stack. */
    ghost predicate Continues(node: Name, depth: nat, root: Name)
      reads this
    {
      && node in Nodes(edges) && depth == |pathStack|
      && root == (if pathStack == [] then node else pathStack[0])
      && (pathStack != [] ==> Edge(pathStack[|pathStack| - 1], node) in edges)
    }

    twostate predicate OnlyMore()
      reads this
    {
      && pathStack == old(pathStack) && pathSet == old(pathSet)
      && old(visited) <= visited && old(cycles) <= cycles
    }

    /** A deep search has room for one more node. */
    lemma StackIsShort(node: Name, depth: nat, root: Name)
      requires Complete(root) && Continues(node, depth, root) && Deep(root)
      ensures depth <= maxDepth
    {
      if pathStack == [] {
        assert Leads(edges, [root], root, root) && root in ReachableFrom(edges, root);
      } else {
        WalkIsReachable(edges, pathStack);
        SimplePathIsShort(pathStack, ReachableFrom(edges, root));
      }
    }

    /**
     `dfs(node, depth)`: the search below one node. If the depth bound never bites, it visits everything
     reachable from the node and finds the root of the stack whenever an edge leads back to it. A node that
     is on the stack already is reported at any depth within the bound.
     */
    method Dfs(node: Name, depth: nat, ghost root: Name)
      requires Complete(root) && Continues(node, depth, root)
      modifies this
      ensures Complete(root) && OnlyMore()
      ensures old(pathStack) == [] && Deep(root) ==> node in visited
      ensures old(pathStack) != [] ==> Done(root, node)
      ensures node in pathSet && depth <= maxDepth ==> Reported(cycles, node)
      ensures node !in old(visited) && depth < maxDepth && Edge(node, node) in edges ==> Reported(cycles, node)
      decreases Nodes(edges) - visited, 1
    {
      if Deep(root) {
        StackIsShort(node, depth, root);
      }
      if depth > maxDepth {
        return;
      }
      if node in pathSet {
        Record(node);
        return;
      }
      if node in visited {
        return;
      }
      Explore(node, depth, root);
    }

    /** The part of `dfs` between pushing a node and popping it. */
    method Explore(node: Name, depth: nat, ghost root: Name)
      requires Complete(root) && Continues(node, depth, root) && node !in visited
      modifies this
      ensures Complete(root) && OnlyMore() && node in visited
      ensures depth < maxDepth && Edge(node, node) in edges ==> Reported(cycles, node)
      decreases Nodes(edges) - visited, 0
    {
      PushKeepsPath(edges, pathStack, pathSet, visited, node);
      visited := visited + {node};
      pathStack := pathStack + [node];
      pathSet := pathSet + {node};
      VisitNeighbors(node, depth, root);
      PopKeepsPath(edges, old(pathStack), old(pathSet), visited, node);
      if Deep(root) {
        PopKeepsExplored(edges, visited, old(pathSet), cycles, root, node);
      }
      pathStack := pathStack[..|pathStack| - 1];
      pathSet := pathSet - {node};
      assert pathStack == old(pathStack) && pathSet == old(pathSet);
    }

    method VisitNeighbors(node: Name, depth: nat, ghost root: Name)
      requires Complete(root) && pathStack != [] && node == pathStack[|pathStack| - 1]
      requires root == pathStack[0] && |pathStack| == depth + 1
      modifies this
      ensures Complete(root) && OnlyMore()
      ensures forall y :: y in Adjacent(edges, node) ==> Done(root, y)
      ensures node in Adjacent(edges, node) && depth < maxDepth ==> Reported(cycles, node)
      decreases Nodes(edges) - visited, 2
    {
      var todo := Adjacent(edges, node);
      while todo != {}
        invariant todo <= Adjacent(edges, node)
        invariant Complete(root) && OnlyMore()
        invariant forall y :: y in Adjacent(edges, node) - todo ==> Done(root, y)
        invariant node in Adjacent(edges, node) - todo && depth < maxDepth ==> Reported(cycles, node)
        decreases todo
      {
        var neighbor :| neighbor in todo;
        todo := todo - {neighbor};
        label before:
        Dfs(neighbor, depth + 1, root);
        forall y | y in Adjacent(edges, node) - todo ensures Done(root, y) {
          assert y != neighbor ==> old@before(Done(root, y));
        }
      }
    }
  }

  /******* What the search finds *******/

  /** A walk that starts at a visited node stays among the visited ones once all of them are explored. */
  lemma {:induction false} WalkStaysVisited(edges: set<Edge>, visited: set<Name>, cycles: seq<seq<Name>>, root: Name, w: seq<Name>)
    requires AllExplored(edges, visited, {}, cycles, root)
    requires IsWalk(edges, w) && w != [] && w[0] in visited
    ensures w[|w| - 1] in visited
  {
    if |w| > 1 {
      WalkStaysVisited(edges, visited, cycles, root, w[..|w| - 1]);
      assert Explored(edges, visited, cycles, root, w[|w| - 2]);
      assert Edge(w[|w| - 2], w[|w| - 1]) in edges;
    }
  }

  lemma RootOnCycleIsReported(edges: set<Edge>, visited: set<Name>, cycles: seq<seq<Name>>, root: Name)
    requires AllExplored(edges, visited, {}, cycles, root) && root in visited && OnCycle(edges, root)
    ensures Reported(cycles, root)
  {
    var w :| IsWalk(edges, w) && |w| >= 2 && w[0] == root && w[|w| - 1] == root;
    WalkStaysVisited(edges, visited, cycles, root, w[..|w| - 1]);
    assert Explored(edges, visited, cycles, root, w[|w| - 2]);
    assert Edge(w[|w| - 2], root) in edges;
  }

  lemma NodesOfGoodCycleAreOnCycle(edges: set<Edge>, c: seq<Name>, x: Name)
    requires GoodCycle(edges, c) && x in c
    ensures OnCycle(edges, x)
  {
    var i :| 0 <= i < |c| && c[i] == x;
    var w, n := c[i..] + c[1..i + 1], |c| - i;
    forall p | 0 < p < |w| ensures Edge(w[p - 1], w[p]) in edges {
      if p < n {
        assert w[p - 1] == c[i + p - 1] && w[p] == c[i + p];
      } else {
        assert w[p - 1] == c[p - n] && w[p] == c[p - n + 1];
      }
    }
    assert IsWalk(edges, w) && w[0] == x;
    assert i > 0 ==> w[|w| - 1] == c[1..i + 1][i - 1] == c[i];
    assert i == 0 ==> w == c;
  }

  lemma OnCycleIsNode(edges: set<Edge>, x: Name)
    requires OnCycle(edges, x)
    ensures x in Nodes(edges)
  {
    var w :| IsWalk(edges, w) && |w| >= 2 && w[0] == x && w[|w| - 1] == x;
    assert Edge(w[0], w[1]) in edges;
  }

  /** The least name of a set: the next element of `sorted(nodes)`. */
  method LeastOf(s: set<Name>) returns (least: Name)
    requires s != {}
    ensures least in s && forall x :: x in s ==> Le(least, x)
  {
    var names := InSomeOrder(s);
    assert names != [];
    least := Least(names);
  }

  const MAX_CYCLES: nat := 50

  /** The depth bound does not hide the cycles through x: few nodes can be reached from it, or it calls itself. */
  ghost predicate InReach(edges: set<Edge>, maxDepth: int, x: Name) {
    |ReachableFrom(edges, x)| <= maxDepth || (1 <= maxDepth && Edge(x, x) in edges)
  }

  /** What has been found once a search has started from each of some nodes. */
  ghost predicate FoundFrom(edges: set<Edge>, maxDepth: int, cycles: seq<seq<Name>>, roots: set<Name>) {
    forall x :: x in roots && OnCycle(edges, x) && InReach(edges, maxDepth, x) ==> Reported(cycles, x)
  }

  /**
   `detect_cycles`. What is reported is always a set of distinct canonical simple cycles no longer than the
   bound. With fewer than 50 results, a node on a cycle is in one of them if no more nodes than the bound can
   be reached from it, whatever the rest of the graph, and any function that calls itself is in one if the
   bound is not below 1.
   */
  method DetectCycles(edges: set<Edge>, maxDepth: int := 10) returns (cycles: seq<seq<Name>>)
    ensures GoodCycles(edges, cycles, maxDepth)
    ensures forall x :: Reported(cycles, x) ==> OnCycle(edges, x)
    ensures |cycles| < 50 ==>
              forall x :: OnCycle(edges, x) && |ReachableFrom(edges, x)| <= maxDepth ==> Reported(cycles, x)
    ensures |cycles| < 50 && maxDepth >= 1 ==> forall x :: Edge(x, x) in edges ==> Reported(cycles, x)
    ensures |Nodes(edges)| <= maxDepth && |cycles| < 50 ==> forall x :: OnCycle(edges, x) <==> Reported(cycles, x)
    ensures |Nodes(edges)| <= maxDepth ==> (cycles == [] <==> forall x :: !OnCycle(edges, x))
  {
    var finder := new CycleFinder(edges, maxDepth);
    var rest := Nodes(edges);
    while rest != {}
      invariant fresh(finder) && finder.edges == edges && finder.maxDepth == maxDepth
      invariant rest <= Nodes(edges)
      invariant finder.Valid() && finder.pathStack == [] && finder.pathSet == {} && finder.visited == {}
      invariant FoundFrom(edges, maxDepth, finder.cycles, Nodes(edges) - rest)
      decreases rest
    {
      var node := LeastOf(rest);
      rest := rest - {node};
      ghost var before := finder.cycles;
      finder.Dfs(node, 0, node);
      if OnCycle(edges, node) && |ReachableFrom(edges, node)| <= maxDepth {
        RootOnCycleIsReported(edges, finder.visited, finder.cycles, node);
      }
      assert forall x :: Reported(before, x) ==> Reported(finder.cycles, x);
      finder.visited := {};
      if |finder.cycles| >= MAX_CYCLES {
        break;
      }
    }
    cycles := finder.cycles;
    ReportIsComplete(edges, cycles, maxDepth, rest);
  }

  /** Two good cycles that are rotations of each other are equal, so no cycle is reported twice. */
  lemma GoodCyclesDifferAsCycles(edges: set<Edge>, c: seq<Name>, d: seq<Name>, k: nat)
    requires GoodCycle(edges, c) && GoodCycle(edges, d) && k < |c| - 1
    requires d[..|d| - 1] == Rotate(c[..|c| - 1], k)
    ensures c == d
  {
    var s, t := c[..|c| - 1], d[..|d| - 1];
    GoodCycleIsCanonical(edges, c);
    GoodCycleIsCanonical(edges, d);
    RotationKeepsCanonical(s, k);
    assert c == s + [s[0]] && d == t + [t[0]];
  }

  lemma GoodCycleIsCanonical(edges: set<Edge>, c: seq<Name>)
    requires GoodCycle(edges, c)
    ensures Canonical(c[..|c| - 1]) == c[..|c| - 1]
  {
    var s := c[..|c| - 1];
    assert c[0] == s[0] && forall x :: x in s ==> x in c;
    LeIsAntisymmetric(Least(s), s[0]);
    assert IndexOf(s, Least(s)) == 0;
  }

  lemma ReachableIsBounded(edges: set<Edge>, x: Name)
    ensures |ReachableFrom(edges, x)| <= |Nodes(edges)|
  {
    assert ReachableFrom(edges, x) <= Nodes(edges);
    SubsetIsSmaller(ReachableFrom(edges, x), Nodes(edges));
  }

  lemma {:induction false} SubsetIsSmaller(a: set<Name>, b: set<Name>)
    requires a <= b
    ensures |a| <= |b|
  {
    assert b == a + (b - a);
  }

  lemma SelfCallIsCycle(edges: set<Edge>, x: Name)
    requires Edge(x, x) in edges
    ensures OnCycle(edges, x)
  {
    assert IsWalk(edges, [x, x]);
  }

  /** Either every node was a root, or the search was stopped by the number of results. */
  lemma ReportIsComplete(edges: set<Edge>, cycles: seq<seq<Name>>, maxDepth: int, rest: set<Name>)
    requires GoodCycles(edges, cycles, maxDepth) && FoundFrom(edges, maxDepth, cycles, Nodes(edges) - rest)
    requires rest == {} || |cycles| >= MAX_CYCLES
    ensures forall x :: Reported(cycles, x) ==> OnCycle(edges, x)
    ensures |cycles| < MAX_CYCLES ==>
              forall x :: OnCycle(edges, x) && InReach(edges, maxDepth, x) ==> Reported(cycles, x)
    ensures |cycles| < MAX_CYCLES && maxDepth >= 1 ==> forall x :: Edge(x, x) in edges ==> Reported(cycles, x)
    ensures |Nodes(edges)| <= maxDepth && |cycles| < 50 ==> forall x :: OnCycle(edges, x) <==> Reported(cycles, x)
    ensures |Nodes(edges)| <= maxDepth ==> (cycles == [] <==> forall x :: !OnCycle(edges, x))
  {
    forall x ensures OnCycle(edges, x) ==> x in Nodes(edges) {
      if OnCycle(edges, x) {
        OnCycleIsNode(edges, x);
      }
    }
    forall x | Edge(x, x) in edges ensures OnCycle(edges, x) {
      SelfCallIsCycle(edges, x);
    }
    forall x | Reported(cycles, x) ensures OnCycle(edges, x) {
      var c :| c in cycles && x in c;
      NodesOfGoodCycleAreOnCycle(edges, c, x);
    }
    forall x ensures |ReachableFrom(edges, x)| <= |Nodes(edges)| {
      ReachableIsBounded(edges, x);
    }
    if cycles != [] {
      assert Reported(cycles, cycles[0][0]);
    }
  }

  /******* What the depth bound costs *******/

  function RingEdge(ring: seq<Name>, i: nat): Edge
    requires i < |ring|
  {
    Edge(ring[i], ring[Wrap(i + 1, |ring|)])
  }

  /** The graph that is one ring of calls. */
  ghost predicate IsRing(edges: set<Edge>, ring: seq<Name>) {
    && |ring| > 0 && Simple(ring)
    && forall e :: e in edges <==> exists i: nat :: i < |ring| && e == RingEdge(ring, i)
  }

  lemma {:induction false} WalkFollowsRing(edges: set<Edge>, ring: seq<Name>, w: seq<Name>, p: nat, i: nat)
    requires IsRing(edges, ring) && IsWalk(edges, w) && i < |w| && i < |ring|
    requires p < |ring| && w[0] == ring[p]
    ensures w[i] == ring[Wrap(p + i, |ring|)]
  {
    if i > 0 {
      WalkFollowsRing(edges, ring, w, p, i - 1);
      var q: nat :| q < |ring| && Edge(w[i - 1], w[i]) == RingEdge(ring, q);
      assert q == Wrap(p + i - 1, |ring|);
    }
  }

  lemma RingIsOnCycle(edges: set<Edge>, ring: seq<Name>, k: nat)
    requires IsRing(edges, ring) && k < |ring|
    ensures OnCycle(edges, ring[k])
  {
    var w := Rotate(ring, k) + [ring[k]];
    RotatedAt(ring, k, 0);
    forall i | 0 < i < |w| ensures Edge(w[i - 1], w[i]) in edges {
      RotatedAt(ring, k, i - 1);
      if i < |ring| {
        RotatedAt(ring, k, i);
      }
      assert Edge(w[i - 1], w[i]) == RingEdge(ring, Wrap(k + i - 1, |ring|));
    }
    assert IsWalk(edges, w);
  }

  /** A ring with more nodes than the bound allows is never reported, although all its nodes are on a cycle. */
  lemma LongRingIsMissed(edges: set<Edge>, ring: seq<Name>, maxDepth: int, cycles: seq<seq<Name>>)
    requires IsRing(edges, ring) && |ring| > maxDepth && GoodCycles(edges, cycles, maxDepth)
    ensures cycles == [] && forall k :: 0 <= k < |ring| ==> OnCycle(edges, ring[k])
  {
    if cycles != [] {
      var c := cycles[0];
      assert c in cycles && Edge(c[0], c[1]) in edges;
      var p: nat :| p < |ring| && Edge(c[0], c[1]) == RingEdge(ring, p);
      WalkFollowsRing(edges, ring, c, p, |c| - 1);
      assert false;
    }
    forall k | 0 <= k < |ring| ensures OnCycle(edges, ring[k]) {
      RingIsOnCycle(edges, ring, k);
    }
  }
}
