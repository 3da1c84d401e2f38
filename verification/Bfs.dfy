// Breadth-first search from several roots, and what its tree says about distance.
module Bfs {
  import opened Lexicographic

  type Graph = map<string, set<string>>

  // A defaultdict(set): a vertex without an entry has no neighbours.
  function Adj(g: Graph, v: string): set<string> {
    if v in g then g[v] else {}
  }

  // The vertices at most k steps from a root.
  ghost function Within(g: Graph, roots: set<string>, k: nat): set<string> {
    if k == 0 then roots
    else Within(g, roots, k - 1) + (set u, v | u in Within(g, roots, k - 1) && v in Adj(g, u) :: v)
  }

  // The shortest distance from v to a root is k.
  ghost predicate AtDistance(g: Graph, roots: set<string>, v: string, k: nat) {
    v in Within(g, roots, k) && (k > 0 ==> v !in Within(g, roots, k - 1))
  }

  ghost predicate Reachable(g: Graph, roots: set<string>, v: string) {
    exists k: nat :: v in Within(g, roots, k)
  }

  // A sequence of vertices along edges, starting at a root.
  ghost predicate Walk(g: Graph, roots: set<string>, p: seq<string>) {
    p != [] && p[0] in roots && forall i :: 0 <= i < |p| - 1 ==> p[i + 1] in Adj(g, p[i])
  }

  lemma {:induction false} WithinGrows(g: Graph, roots: set<string>, j: nat, k: nat)
    requires j <= k
    ensures Within(g, roots, j) <= Within(g, roots, k)
    decreases k - j
  {
    if j < k { WithinGrows(g, roots, j, k - 1); }
  }

  // Within k steps means at the end of a walk of at most k steps.
  lemma {:induction false} WithinIsWalk(g: Graph, roots: set<string>, v: string, k: nat) returns (p: seq<string>)
    requires v in Within(g, roots, k)
    ensures Walk(g, roots, p) && p[|p| - 1] == v && |p| <= k + 1
    decreases k
  {
    if k == 0 {
      return [v];
    }
    if v in Within(g, roots, k - 1) {
      p := WithinIsWalk(g, roots, v, k - 1);
    } else {
      var u :| u in Within(g, roots, k - 1) && v in Adj(g, u);
      var q := WithinIsWalk(g, roots, u, k - 1);
      p := q + [v];
      forall i | 0 <= i < |p| - 1 ensures p[i + 1] in Adj(g, p[i]) {
        if i < |q| - 1 { assert p[i + 1] == q[i + 1]; }
      }
    }
  }

  lemma {:induction false} WalkIsWithin(g: Graph, roots: set<string>, p: seq<string>)
    requires Walk(g, roots, p)
    ensures p[|p| - 1] in Within(g, roots, |p| - 1)
  {
    if |p| > 1 {
      var n := |p| - 1;
      var q := p[..n];
      forall i | 0 <= i < |q| - 1 ensures q[i + 1] in Adj(g, q[i]) {
        assert q[i + 1] == p[i + 1];
      }
      WalkIsWithin(g, roots, q);
      assert p[n - 1 + 1] in Adj(g, p[n - 1]);
    }
  }

  lemma DistanceUnique(g: Graph, roots: set<string>, v: string, j: nat, k: nat)
    requires AtDistance(g, roots, v, j) && AtDistance(g, roots, v, k)
    ensures j == k
  {
    if j < k { WithinGrows(g, roots, j, k - 1); }
    if k < j { WithinGrows(g, roots, k, j - 1); }
  }

  // ----- what the pairs of a search form -----

  type Pairs = set<(string, string)>

  function Children(pairs: Pairs): set<string> {
    set e | e in pairs :: e.1
  }

  // c is one step further from the roots than p.
  ghost predicate Steps(g: Graph, roots: set<string>, p: string, c: string) {
    exists k: nat :: AtDistance(g, roots, p, k) && AtDistance(g, roots, c, k + 1)
  }

  // Parents one step nearer to the roots than their children, one parent each, and every
  // reachable vertex a root or a child.
  ghost predicate ShortestForest(g: Graph, roots: set<string>, pairs: Pairs) {
    && (forall p, c :: (p, c) in pairs ==> c in Adj(g, p))
    && (forall p, c :: (p, c) in pairs ==> Steps(g, roots, p, c))
    && (forall p, q, c :: (p, c) in pairs && (q, c) in pairs ==> p == q)
    && (forall v :: Reachable(g, roots, v) <==> v in roots || v in Children(pairs))
  }

  lemma RootsAreNoChildren(g: Graph, roots: set<string>, pairs: Pairs, p: string, c: string)
    requires ShortestForest(g, roots, pairs) && (p, c) in pairs
    ensures c !in roots && p != c && (c, p) !in pairs
  {
    var k: nat :| AtDistance(g, roots, p, k) && AtDistance(g, roots, c, k + 1);
    WithinGrows(g, roots, 0, k);
    if (c, p) in pairs {
      var j: nat :| AtDistance(g, roots, c, j) && AtDistance(g, roots, p, j + 1);
      DistanceUnique(g, roots, c, k + 1, j);
    }
  }

  // A branch of the forest from a root.
  ghost predicate Branch(roots: set<string>, pairs: Pairs, p: seq<string>) {
    p != [] && p[0] in roots && forall i :: 0 <= i < |p| - 1 ==> (p[i], p[i + 1]) in pairs
  }

  lemma BranchFront(roots: set<string>, pairs: Pairs, p: seq<string>)
    requires Branch(roots, pairs, p) && |p| > 1
    ensures Branch(roots, pairs, p[..|p| - 1]) && (p[|p| - 2], p[|p| - 1]) in pairs
  {
    var q := p[..|p| - 1];
    forall i | 0 <= i < |q| - 1 ensures (q[i], q[i + 1]) in pairs {
      assert (p[i], p[i + 1]) in pairs;
    }
    assert (p[|p| - 2], p[(|p| - 2) + 1]) in pairs;
  }

  // The depth of a vertex in the forest is its shortest distance to a root ...
  lemma {:induction false} DepthIsDistance(g: Graph, roots: set<string>, pairs: Pairs, p: seq<string>)
    requires ShortestForest(g, roots, pairs) && Branch(roots, pairs, p)
    ensures AtDistance(g, roots, p[|p| - 1], |p| - 1)
  {
    if |p| > 1 {
      var n := |p| - 1;
      BranchFront(roots, pairs, p);
      DepthIsDistance(g, roots, pairs, p[..n]);
      ChildDistance(g, roots, p[n - 1], p[n], n - 1);
    }
  }

  lemma ParentOf(g: Graph, roots: set<string>, pairs: Pairs, v: string, k: nat) returns (u: string, j: nat)
    requires ShortestForest(g, roots, pairs) && AtDistance(g, roots, v, k) && v !in roots
    ensures k == j + 1 && (u, v) in pairs && AtDistance(g, roots, u, j)
  {
    assert v in Children(pairs) by {
      assert Reachable(g, roots, v);
    }
    var e :| e in pairs && e.1 == v;
    u := e.0;
    assert (u, v) in pairs;
    j := ParentDistance(g, roots, u, v, k);
  }

  lemma ParentDistance(g: Graph, roots: set<string>, u: string, v: string, k: nat) returns (j: nat)
    requires AtDistance(g, roots, v, k) && Steps(g, roots, u, v)
    ensures k == j + 1 && AtDistance(g, roots, u, j)
  {
    var i;
    j, i := StepsFrom(g, roots, u, v);
    DistanceUnique(g, roots, v, k, i);
  }

  lemma StepsFrom(g: Graph, roots: set<string>, p: string, c: string) returns (j: nat, i: nat)
    requires Steps(g, roots, p, c)
    ensures i == j + 1 && AtDistance(g, roots, p, j) && AtDistance(g, roots, c, i)
  {
    j :| AtDistance(g, roots, p, j) && AtDistance(g, roots, c, j + 1);
    i := j + 1;
  }

  lemma ChildDistance(g: Graph, roots: set<string>, u: string, v: string, k: nat)
    requires Steps(g, roots, u, v) && AtDistance(g, roots, u, k)
    ensures AtDistance(g, roots, v, k + 1)
  {
    var j, i := StepsFrom(g, roots, u, v);
    DistanceUnique(g, roots, u, j, k);
  }

  // ... and every reachable vertex is at the end of a branch.
  lemma {:induction false} BranchExists(g: Graph, roots: set<string>, pairs: Pairs, v: string, k: nat)
    returns (p: seq<string>)
    requires ShortestForest(g, roots, pairs) && AtDistance(g, roots, v, k)
    ensures Branch(roots, pairs, p) && p[|p| - 1] == v
    decreases k
  {
    if v in roots {
      return [v];
    }
    var u, j := ParentOf(g, roots, pairs, v, k);
    var q := BranchExists(g, roots, pairs, u, j);
    p := q + [v];
    BranchExtends(roots, pairs, q, v);
  }

  lemma BranchExtends(roots: set<string>, pairs: Pairs, q: seq<string>, v: string)
    requires Branch(roots, pairs, q) && (q[|q| - 1], v) in pairs
    ensures Branch(roots, pairs, q + [v])
  {
    var p := q + [v];
    forall i | 0 <= i < |p| - 1 ensures (p[i], p[i + 1]) in pairs {
      if i < |q| - 1 { assert p[i + 1] == q[i + 1]; }
    }
  }

  // ----- the search -----

  // All vertices within d steps are visited, some at distance d + 1 are too; the queue
  // holds the unprocessed ones, first s at distance d, then the rest at distance d + 1.
  ghost predicate Level(g: Graph, roots: set<string>, visited: set<string>, queue: seq<string>, d: nat, s: nat) {
    && s <= |queue|
    && (forall i :: 0 <= i < s ==> AtDistance(g, roots, queue[i], d))
    && (forall i :: s <= i < |queue| ==> AtDistance(g, roots, queue[i], d + 1))
    && Within(g, roots, d) <= visited <= Within(g, roots, d + 1)
    && (forall v :: v in queue ==> v in visited)
    && (forall v :: v in visited && v !in queue ==> Adj(g, v) <= visited)
  }

  ghost predicate TreeSoFar(g: Graph, roots: set<string>, visited: set<string>, pairs: Pairs) {
    && (forall p, c :: (p, c) in pairs ==> c in Adj(g, p))
    && (forall p, c :: (p, c) in pairs ==> Steps(g, roots, p, c))
    && (forall p, q, c :: (p, c) in pairs && (q, c) in pairs ==> p == q)
    && visited == roots + Children(pairs)
  }

  // When only vertices at distance d + 1 are left in the queue, level d is done.
  lemma NextLevel(g: Graph, roots: set<string>, visited: set<string>, queue: seq<string>, d: nat)
    requires Level(g, roots, visited, queue, d, 0)
    ensures Level(g, roots, visited, queue, d + 1, |queue|)
  {
    forall v | v in Within(g, roots, d + 1) ensures v in visited {
      if v !in Within(g, roots, d) {
        var u :| u in Within(g, roots, d) && v in Adj(g, u);
        assert u !in queue;
      }
    }
    WithinGrows(g, roots, d + 1, d + 2);
  }

  lemma SearchDone(g: Graph, roots: set<string>, visited: set<string>, d: nat, s: nat, pairs: Pairs)
    requires Level(g, roots, visited, [], d, s) && TreeSoFar(g, roots, visited, pairs)
    ensures ShortestForest(g, roots, pairs)
  {
    forall k: nat ensures Within(g, roots, k) <= visited {
      ClosedHoldsAll(g, roots, visited, k);
    }
    forall v ensures Reachable(g, roots, v) <==> v in visited {}
  }

  lemma {:induction false} ClosedHoldsAll(g: Graph, roots: set<string>, s: set<string>, k: nat)
    requires roots <= s && forall v :: v in s ==> Adj(g, v) <= s
    ensures Within(g, roots, k) <= s
  {
    if k > 0 { ClosedHoldsAll(g, roots, s, k - 1); }
  }

  function Elements(s: seq<string>): set<string> {
    set x | x in s
  }

  function Star(center: string, tips: set<string>): Pairs {
    set t | t in tips :: (center, t)
  }

  // Taking the first vertex off the queue: its unvisited neighbours are at distance d + 1.
  lemma LevelStep(g: Graph, roots: set<string>, visited: set<string>, queue: seq<string>, d: nat, s: nat,
      added: seq<string>)
    requires Level(g, roots, visited, queue, d, s) && s > 0
    requires Elements(added) == Adj(g, queue[0]) - visited
    ensures Level(g, roots, visited + Elements(added), queue[1..] + added, d, s - 1)
    ensures forall v :: v in added ==> AtDistance(g, roots, v, d + 1)
  {
    var rest := queue[1..] + added;
    assert queue[0] in Within(g, roots, d);
    forall v | v in added ensures AtDistance(g, roots, v, d + 1) {
      assert v in Elements(added);
    }
    forall i | s - 1 <= i < |rest| ensures AtDistance(g, roots, rest[i], d + 1) {
      if i < |queue| - 1 { assert rest[i] == queue[i + 1]; } else { assert rest[i] in added; }
    }
    QueueElements(queue, added);
    forall v | v in visited + Elements(added) ensures v in rest || Adj(g, v) <= visited + Elements(added) {
      if v in queue && v == queue[0] {
        assert Adj(g, v) <= visited + Elements(added);
      } else if v in queue || v in Elements(added) {
        assert v in rest;
      }
    }
  }

  lemma QueueElements(queue: seq<string>, added: seq<string>)
    requires queue != []
    ensures forall v :: v in queue[1..] + added ==> v in queue || v in Elements(added)
    ensures forall v :: v in queue || v in Elements(added) ==> v == queue[0] || v in queue[1..] + added
  {
    assert queue == [queue[0]] + queue[1..];
  }

  lemma TreeStep(g: Graph, roots: set<string>, visited: set<string>, pairs: Pairs, current: string,
      tips: set<string>, d: nat)
    requires TreeSoFar(g, roots, visited, pairs) && AtDistance(g, roots, current, d)
    requires tips == Adj(g, current) - visited && forall v :: v in tips ==> AtDistance(g, roots, v, d + 1)
    ensures TreeSoFar(g, roots, visited + tips, pairs + Star(current, tips))
  {
    var now := pairs + Star(current, tips);
    forall v | v in visited + tips ensures v in roots + Children(now) {
      if v in Children(pairs) {
        var e :| e in pairs && e.1 == v;
        assert e in now;
      } else if v in tips {
        assert (current, v) in now;
      }
    }
    forall p, c | (p, c) in now && (p, c) !in pairs ensures p == current && c in tips {}
    forall p, c | (p, c) in pairs ensures c in visited {
      assert c in Children(pairs);
    }
  }

  // Level and TreeSoFar together: the state between two vertices.
  ghost predicate Searching(g: Graph, roots: set<string>, visited: set<string>, queue: seq<string>, pairs: Pairs,
      d: nat, s: nat) {
    Level(g, roots, visited, queue, d, s) && TreeSoFar(g, roots, visited, pairs)
  }

  lemma Start(g: Graph, firewalls: seq<string>)
    ensures var roots := Elements(firewalls);
            Searching(g, roots, roots, firewalls, {}, 0, |firewalls|)
  {}

  // Taking the first vertex and adding its unvisited neighbours keeps the state.
  lemma Advance(g: Graph, roots: set<string>, visited: set<string>, queue: seq<string>, pairs: Pairs, d: nat, s: nat,
                added: seq<string>)
    returns (d': nat, s': nat)
    requires Searching(g, roots, visited, queue, pairs, d, s) && queue != []
    requires Elements(added) == Adj(g, queue[0]) - visited
    ensures Searching(g, roots, visited + Elements(added), queue[1..] + added, pairs + Star(queue[0], Elements(added)), d', s')
  {
    d', s' := d, s;
    if s == 0 {
      NextLevel(g, roots, visited, queue, d);
      d', s' := d + 1, |queue|;
    }
    LevelStep(g, roots, visited, queue, d', s', added);
    TreeStep(g, roots, visited, pairs, queue[0], Elements(added), d');
    s' := s' - 1;
  }

  // The vertices of `seen` have been looked at, and those not in `base` added.
  ghost predicate Added(current: string, base: set<string>, tree: Pairs, seen: set<string>,
                        visited: set<string>, pairs: Pairs, added: seq<string>) {
    && Elements(added) == seen - base
    && visited == base + Elements(added)
    && pairs == tree + Star(current, Elements(added))
  }

  lemma AddOne(current: string, base: set<string>, tree: Pairs, seen: set<string>,
               visited: set<string>, pairs: Pairs, added: seq<string>, n: string)
    requires Added(current, base, tree, seen, visited, pairs, added)
    ensures n in visited ==> Added(current, base, tree, seen + {n}, visited, pairs, added)
    ensures n !in visited ==>
              Added(current, base, tree, seen + {n}, visited + {n}, pairs + {(current, n)}, added + [n])
  {
    ElementsAppend(added, n);
    StarAppend(current, Elements(added), n);
  }

  // The inner loop: the unvisited neighbours of one vertex, in sorted order.
  method VisitNeighbors(g: Graph, current: string, visited: set<string>, pairs: Pairs)
    returns (visited': set<string>, pairs': Pairs, added: seq<string>)
    ensures Added(current, visited, pairs, Adj(g, current), visited', pairs', added)
  {
    added := [];
    visited', pairs' := visited, pairs;
    var neighbors := Sorted(Adj(g, current));
    for i := 0 to |neighbors|
      invariant Added(current, visited, pairs, Elements(neighbors[..i]), visited', pairs', added)
    {
      var neighbor := neighbors[i];
      AddOne(current, visited, pairs, Elements(neighbors[..i]), visited', pairs', added, neighbor);
      ElementsAppend(neighbors[..i], neighbor);
      assert neighbors[..i + 1] == neighbors[..i] + [neighbor];
      if neighbor !in visited' {
        visited' := visited' + {neighbor};
        pairs' := pairs' + {(current, neighbor)};
        added := added + [neighbor];
      }
    }
    assert neighbors[..|neighbors|] == neighbors;
    assert Elements(neighbors) == Adj(g, current);
  }

  lemma StarAppend(center: string, tips: set<string>, t: string)
    ensures Star(center, tips + {t}) == Star(center, tips) + {(center, t)}
  {}

  lemma ElementsAppend(s: seq<string>, x: string)
    ensures Elements(s + [x]) == Elements(s) + {x}
  {}

  // The spanning forest of the vertices that the given roots reach.
  method SpanningForest(g: Graph, ghost vertices: set<string>, firewalls: seq<string>) returns (pairs: Pairs)
    requires forall v :: Adj(g, v) <= vertices
    requires Elements(firewalls) <= vertices
    ensures ShortestForest(g, Elements(firewalls), pairs)
  {
    ghost var roots := Elements(firewalls);
    pairs := {};
    var visited := Elements(firewalls);
    var queue := firewalls;
    ghost var d: nat, s: nat := 0, |firewalls|;
    Start(g, firewalls);
    while queue != []
      invariant visited <= vertices
      invariant Searching(g, roots, visited, queue, pairs, d, s)
      decreases |vertices - visited|, |queue|
    {
      var current := queue[0];
      ghost var before, was, tree := queue, visited, pairs;
      queue := queue[1..];
      var added;
      visited, pairs, added := VisitNeighbors(g, current, visited, pairs);
      queue := queue + added;
      d, s := Advance(g, roots, was, before, tree, d, s, added);
      if added != [] {
        assert added[0] in Elements(added);
        Fewer(vertices, was, visited, added[0]);
      }
    }
    SearchDone(g, roots, visited, d, s, pairs);
  }

  lemma Fewer(all: set<string>, before: set<string>, after: set<string>, v: string)
    requires before <= after <= all && v in after && v !in before
    ensures |all - after| < |all - before|
  {
    assert all - after <= (all - before) - {v};
    SubsetSize(all - after, (all - before) - {v});
  }

  lemma {:induction false} SubsetSize(a: set<string>, b: set<string>)
    requires a <= b
    ensures |a| <= |b|
  {
    if a != {} {
      var x :| x in a;
      SubsetSize(a - {x}, b - {x});
    }
  }
}
