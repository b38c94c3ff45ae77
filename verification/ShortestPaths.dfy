/** shortestPath and allShortestPaths: breadth-first searches over a multigraph. */
module ShortestPaths {
  import opened Options
  import Float64
  import Values

  type Node = Float64.Bits
  datatype Hop = Hop(id: Float64.Bits, to: Node)

  /** The outgoing edges of each node. */
  type Graph = map<Node, seq<Hop>>

  datatype Path = Path(nodes: seq<Node>, edges: seq<Float64.Bits>)

  /** Edges end in nodes of the graph, and edges of a node have different ids. */
  ghost predicate Valid(g: Graph) {
    && (forall n, i :: n in g && 0 <= i < |g[n]| ==> g[n][i].to in g)
    && (forall n, i, j :: n in g && 0 <= i < j < |g[n]| ==> g[n][i].id != g[n][j].id)
  }

  ghost predicate Step(g: Graph, a: Node, e: Float64.Bits, b: Node) { a in g && Hop(e, b) in g[a] }

  ghost predicate IsWalk(g: Graph, p: Path, from: Node, to: Node) {
    && |p.nodes| == |p.edges| + 1 && p.nodes[0] == from && p.nodes[|p.edges|] == to && from in g
    && forall i :: 0 <= i < |p.edges| ==> Step(g, p.nodes[i], p.edges[i], p.nodes[i+1])
  }

  ghost predicate Shortest(g: Graph, p: Path, from: Node, to: Node) {
    IsWalk(g, p, from, to) && forall q :: IsWalk(g, q, from, to) ==> |p.edges| <= |q.edges|
  }

  function Extend(p: Path, h: Hop): Path { Path(p.nodes + [h.to], p.edges + [h.id]) }

  function Prefix(p: Path, n: nat): Path
    requires n <= |p.edges| && |p.nodes| == |p.edges| + 1
  { Path(p.nodes[..n+1], p.edges[..n]) }

  lemma {:induction false} ExtendWalk(g: Graph, p: Path, from: Node, to: Node, h: Hop)
    requires IsWalk(g, p, from, to) && to in g && h in g[to]
    ensures IsWalk(g, Extend(p, h), from, h.to)
  {
    var q := Extend(p, h);
    forall i | 0 <= i < |q.edges| ensures Step(g, q.nodes[i], q.edges[i], q.nodes[i+1]) {
      if i < |p.edges| { assert Step(g, p.nodes[i], p.edges[i], p.nodes[i+1]); }
    }
  }

  lemma {:induction false} PrefixWalk(g: Graph, p: Path, from: Node, to: Node, n: nat)
    requires IsWalk(g, p, from, to) && n <= |p.edges|
    ensures IsWalk(g, Prefix(p, n), from, p.nodes[n])
  {
    var q := Prefix(p, n);
    forall i | 0 <= i < |q.edges| ensures Step(g, q.nodes[i], q.edges[i], q.nodes[i+1]) {
      assert Step(g, p.nodes[i], p.edges[i], p.nodes[i+1]);
    }
  }

  // ---- breadth-first search -------------------------------------------------------------

  type Dist = map<Node, nat>

  /** Every distance is the length of some walk. */
  ghost predicate Reached(g: Graph, from: Node, dist: Dist) {
    forall n :: n in dist ==> n in g && exists p :: IsWalk(g, p, from, n) && |p.edges| == dist[n]
  }

  /** The edges of a node lead to nodes at most one step further. */
  ghost predicate Expanded(g: Graph, dist: Dist, n: Node)
    requires n in dist
  { n in g && forall i :: 0 <= i < |g[n]| ==> g[n][i].to in dist && dist[g[n][i].to] <= dist[n] + 1 }

  /** The queue holds nodes of at most two neighbouring distances, in order. */
  ghost predicate Layered(dist: Dist, q: seq<Node>) {
    && (forall i :: 0 <= i < |q| ==> q[i] in dist)
    && (forall i, j :: 0 <= i <= j < |q| ==> dist[q[i]] <= dist[q[j]])
    && (q != [] ==> forall n :: n in dist ==> dist[n] <= dist[q[0]] + 1)
  }

  /** Nodes below a limit that are no longer queued have been expanded. */
  ghost predicate Settled(g: Graph, dist: Dist, q: seq<Node>, limit: int) {
    forall n :: n in dist && n !in q && (limit < 0 || dist[n] < limit) ==> Expanded(g, dist, n)
  }

  /** Where all closer nodes are expanded, distances are at most walk lengths. */
  lemma {:induction false} Minimal(g: Graph, from: Node, dist: Dist, p: Path, to: Node, limit: int)
    requires from in dist && dist[from] == 0 && IsWalk(g, p, from, to)
    requires forall n :: n in dist && (limit < 0 || dist[n] < limit) ==> Expanded(g, dist, n)
    requires limit < 0 || |p.edges| <= limit
    ensures to in dist && dist[to] <= |p.edges|
    decreases |p.edges|
  {
    var k := |p.edges|;
    if k > 0 {
      PrefixWalk(g, p, from, to, k - 1);
      Minimal(g, from, dist, Prefix(p, k - 1), p.nodes[k-1], limit);
      assert Step(g, p.nodes[k-1], p.edges[k-1], p.nodes[k]);
      var i :| 0 <= i < |g[p.nodes[k-1]]| && g[p.nodes[k-1]][i] == Hop(p.edges[k-1], p.nodes[k]);
      assert Expanded(g, dist, p.nodes[k-1]);
    }
  }

  /** The state of a search: queued nodes in layers, settled nodes expanded. */
  ghost predicate Search(g: Graph, from: Node, dist: Dist, q: seq<Node>, limit: int) {
    && from in dist && dist[from] == 0 && dist.Keys <= g.Keys
    && Reached(g, from, dist) && Layered(dist, q) && Settled(g, dist, q, limit)
  }

  lemma {:induction false} SearchStart(g: Graph, from: Node)
    requires from in g
    ensures Search(g, from, map[from := 0], [from], -1)
  {
    assert IsWalk(g, Path([from], []), from, from);
  }

  /** A node met for the first time joins the end of the queue, one step further. */
  lemma {:induction false} Discover(g: Graph, from: Node, dist: Dist, q: seq<Node>, limit: int, h: Hop, limit': int)
    requires Valid(g) && Search(g, from, dist, q, limit) && q != [] && h in g[q[0]] && h.to !in dist
      && (limit' == limit || limit < 0)
    ensures Search(g, from, dist[h.to := dist[q[0]] + 1], q + [h.to], limit')
  {
    var dist', q' := dist[h.to := dist[q[0]] + 1], q + [h.to];
    assert h.to in g by {
      var i :| 0 <= i < |g[q[0]]| && g[q[0]][i] == h;
    }
    forall n | n in dist' ensures n in g && exists p :: IsWalk(g, p, from, n) && |p.edges| == dist'[n] {
      if n == h.to {
        var p :| IsWalk(g, p, from, q[0]) && |p.edges| == dist[q[0]];
        ExtendWalk(g, p, from, q[0], h);
      }
    }
    forall n | n in dist' && n !in q' && (limit' < 0 || dist'[n] < limit') ensures Expanded(g, dist', n) {
      assert q'[|q|] == h.to && n in dist && n !in q;
      assert Expanded(g, dist, n);
    }
  }

  /** The front node leaves the queue once expanded, or if it is at the limit. */
  lemma {:induction false} Pop(g: Graph, from: Node, dist: Dist, q: seq<Node>, limit: int)
    requires q != [] && Search(g, from, dist, q, limit)
      && (Expanded(g, dist, q[0]) || (limit >= 0 && dist[q[0]] >= limit))
    ensures Search(g, from, dist, q[1..], limit)
  {
    forall n | n in dist && n !in q[1..] && (limit < 0 || dist[n] < limit) ensures Expanded(g, dist, n) {
      if n != q[0] { assert n !in q; }
    }
  }

  // ---- oneShortest ------------------------------------------------------------------------

  ghost predicate Queued(g: Graph, from: Node, dist: Dist, walks: seq<Path>, q: seq<Node>) {
    |walks| == |q| && forall i :: 0 <= i < |q| ==>
      q[i] in dist && IsWalk(g, walks[i], from, q[i]) && |walks[i].edges| == dist[q[i]]
  }

  /** The first walk to reach `to` is a shortest one. */
  lemma {:induction false} FirstIsShortest(g: Graph, from: Node, dist: Dist, q: seq<Node>, to: Node, p: Path, h: Hop)
    requires Search(g, from, dist, q, -1) && q != [] && to !in dist && h in g[q[0]] && h.to == to
    requires IsWalk(g, p, from, q[0]) && |p.edges| == dist[q[0]]
    ensures Shortest(g, Extend(p, h), from, to)
  {
    ExtendWalk(g, p, from, q[0], h);
    assert forall i :: 0 <= i < |q| ==> dist[q[0]] <= dist[q[i]];
    forall n | n in dist && dist[n] < dist[q[0]] ensures Expanded(g, dist, n) { assert n !in q; }
    forall w | IsWalk(g, w, from, to) ensures |p.edges| + 1 <= |w.edges| {
      if |w.edges| <= dist[q[0]] {
        Minimal(g, from, dist, w, to, dist[q[0]]);
      }
    }
  }

  /** The state of oneShortest's loop. */
  ghost predicate Frontier(g: Graph, from: Node, to: Node, dist: Dist, seen: set<Node>, q: seq<Node>,
                           walks: seq<Path>) {
    && Search(g, from, dist, q, -1) && Queued(g, from, dist, walks, q)
    && seen == dist.Keys && |walks| == |q| && |seen| <= |g.Keys| && to !in dist
  }

  method OneShortest(g: Graph, from: Node, to: Node) returns (r: Option<Path>)
    requires Valid(g) && from in g && from != to
    ensures r.Some? ==> Shortest(g, r.value, from, to)
    ensures r.None? ==> forall p :: !IsWalk(g, p, from, to)
  {
    hide Search, Queued, Shortest, IsWalk, Valid;
    ghost var dist: Dist := map[from := 0];
    var seen, q, walks := {from}, [from], [Path([from], [])];
    StartQueue(g, from);
    InGraph(g, from, dist, q);
    while q != []
      invariant Frontier(g, from, to, dist, seen, q, walks)
      decreases |g.Keys| - |seen| + |q|
    {
      r, dist, seen, q, walks := ExpandOne(g, from, to, dist, seen, q, walks);
      if r.Some? { return; }
      Dequeue(g, from, dist, walks, q);
      q, walks := q[1..], walks[1..];
    }
    Exhausted(g, from, dist, to);
    return None;
  }

  /** The inner loop: the edges of the node at the front of the queue. */
  method ExpandOne(g: Graph, from: Node, to: Node, ghost dist0: Dist, seen0: set<Node>, q0: seq<Node>,
                   walks0: seq<Path>)
      returns (r: Option<Path>, ghost dist: Dist, seen: set<Node>, q: seq<Node>, walks: seq<Path>)
    requires Valid(g) && q0 != [] && Frontier(g, from, to, dist0, seen0, q0, walks0)
    ensures r.Some? ==> Shortest(g, r.value, from, to)
    ensures r.None? ==>
      Frontier(g, from, to, dist, seen, q, walks) && q != [] && q[0] in dist && Expanded(g, dist, q[0])
    ensures r.None? ==> |q| - |seen| == |q0| - |seen0|
  {
    hide Search, Queued, Shortest, IsWalk, Valid;
    dist, seen, q, walks := dist0, seen0, q0, walks0;
    var cur, path := q[0], walks[0];
    Front(g, from, dist, walks, q);
    for i := 0 to |g[cur]|
      invariant Frontier(g, from, to, dist, seen, q, walks) && q != [] && q[0] == cur && walks[0] == path && cur in dist
      invariant |q| - |seen| == |q0| - |seen0|
      invariant forall j :: 0 <= j < i ==> g[cur][j].to in dist && dist[g[cur][j].to] <= dist[cur] + 1
    {
      var h := g[cur][i];
      Front(g, from, dist, walks, q);
      if h.to in seen { continue; }
      if h.to == to {
        FirstIsShortest(g, from, dist, q, to, path, h);
        return Some(Extend(path, h)), dist, seen, q, walks;
      }
      Enqueue(g, from, dist, walks, q, h);
      dist := dist[h.to := dist[cur] + 1];
      seen := seen + {h.to};
      q, walks := q + [h.to], walks + [Extend(path, h)];
      InGraph(g, from, dist, q);
    }
    r := None;
  }

  lemma {:induction false} StartQueue(g: Graph, from: Node)
    requires from in g
    ensures Search(g, from, map[from := 0], [from], -1) && Queued(g, from, map[from := 0], [Path([from], [])], [from])
  {
    SearchStart(g, from);
    assert IsWalk(g, Path([from], []), from, from);
  }

  lemma {:induction false} Front(g: Graph, from: Node, dist: Dist, walks: seq<Path>, q: seq<Node>)
    requires Search(g, from, dist, q, -1) && Queued(g, from, dist, walks, q) && q != []
    ensures q[0] in dist && q[0] in g && IsWalk(g, walks[0], from, q[0]) && |walks[0].edges| == dist[q[0]]
    ensures forall n :: n in dist ==> dist[n] <= dist[q[0]] + 1
  {}

  lemma {:induction false} Enqueue(g: Graph, from: Node, dist: Dist, walks: seq<Path>, q: seq<Node>, h: Hop)
    requires Valid(g) && Search(g, from, dist, q, -1) && Queued(g, from, dist, walks, q) && q != [] && h in g[q[0]]
      && h.to !in dist
    ensures Search(g, from, dist[h.to := dist[q[0]] + 1], q + [h.to], -1)
    ensures Queued(g, from, dist[h.to := dist[q[0]] + 1], walks + [Extend(walks[0], h)], q + [h.to])
  {
    Discover(g, from, dist, q, -1, h, -1);
    ExtendWalk(g, walks[0], from, q[0], h);
    hide Search, IsWalk;
  }

  lemma {:induction false} InGraph(g: Graph, from: Node, dist: Dist, q: seq<Node>)
    requires Search(g, from, dist, q, -1)
    ensures dist.Keys <= g.Keys && |dist.Keys| <= |g.Keys|
  { Smaller(dist.Keys, g.Keys); }

  lemma {:induction false} Smaller<T>(a: set<T>, b: set<T>)
    requires a <= b
    ensures |a| <= |b|
  {
    if a != {} {
      var x :| x in a;
      Smaller(a - {x}, b - {x});
    }
  }

  lemma {:induction false} Dequeue(g: Graph, from: Node, dist: Dist, walks: seq<Path>, q: seq<Node>)
    requires Search(g, from, dist, q, -1) && Queued(g, from, dist, walks, q) && q != [] && Expanded(g, dist, q[0])
    ensures Search(g, from, dist, q[1..], -1) && Queued(g, from, dist, walks[1..], q[1..])
  { Pop(g, from, dist, q, -1); }

  /** A finished search that did not meet `to` proves that there is no walk. */
  lemma {:induction false} Exhausted(g: Graph, from: Node, dist: Dist, to: Node)
    requires Search(g, from, dist, [], -1) && to !in dist
    ensures forall p :: !IsWalk(g, p, from, to)
  {
    forall p ensures !IsWalk(g, p, from, to) {
      if IsWalk(g, p, from, to) { Minimal(g, from, dist, p, to, -1); }
    }
  }

  // ---- allShortest --------------------------------------------------------------------------

  /** The distances that the first pass of allShortest leaves behind. */
  ghost predicate Measured(g: Graph, from: Node, to: Node, dist: Dist, target: int) {
    && Search(g, from, dist, [], target)
    && target >= -1 && (target < 0 <==> to !in dist) && (target >= 0 ==> dist[to] == target)
  }

  method Measure(g: Graph, from: Node, to: Node) returns (dist: Dist, target: int)
    requires Valid(g) && from in g && from != to
    ensures Measured(g, from, to, dist, target)
  {
    hide Search, Valid;
    dist, target := map[from := 0], -1;
    var q := [from];
    SearchStart(g, from);
    InGraphKeys(g, from, dist, q, target);
    while q != []
      invariant Search(g, from, dist, q, target) && |dist| <= |g|
      invariant target >= -1 && (target < 0 <==> to !in dist) && (target >= 0 ==> dist[to] == target)
      decreases |g| - |dist| + |q|
    {
      FrontNode(g, from, dist, q, target);
      if target >= 0 && dist[q[0]] >= target {
        Pop(g, from, dist, q, target);
        q := q[1..];
        continue;
      }
      dist, q, target := ExpandAll(g, from, to, dist, q, target);
      Pop(g, from, dist, q, target);
      q := q[1..];
    }
  }

  lemma {:induction false} FrontNode(g: Graph, from: Node, dist: Dist, q: seq<Node>, limit: int)
    requires Search(g, from, dist, q, limit) && q != []
    ensures q[0] in dist && q[0] in g && forall n :: n in dist ==> dist[n] <= dist[q[0]] + 1
  {}

  lemma {:induction false} InGraphKeys(g: Graph, from: Node, dist: Dist, q: seq<Node>, limit: int)
    requires Search(g, from, dist, q, limit)
    ensures |dist| <= |g|
  {
    Smaller(dist.Keys, g.Keys);
    assert |dist.Keys| == |dist| && |g.Keys| == |g|;
  }

  method ExpandAll(g: Graph, from: Node, to: Node, dist0: Dist, q0: seq<Node>, target0: int)
    returns (dist: Dist, q: seq<Node>, target: int)
    requires Valid(g) && q0 != [] && Search(g, from, dist0, q0, target0) && |dist0| <= |g|
    requires target0 >= -1 && (target0 < 0 <==> to !in dist0) && (target0 >= 0 ==> dist0[to] == target0)
    ensures Search(g, from, dist, q, target) && |dist| <= |g| && |q| - |dist| == |q0| - |dist0|
    ensures target >= -1 && (target < 0 <==> to !in dist) && (target >= 0 ==> dist[to] == target)
    ensures q != [] && q[0] in dist && Expanded(g, dist, q[0])
  {
    hide Search, Valid;
    dist, q, target := dist0, q0, target0;
    var cur := q[0];
    FrontNode(g, from, dist, q, target);
    for i := 0 to |g[cur]|
      invariant Search(g, from, dist, q, target) && |dist| <= |g| && |q| - |dist| == |q0| - |dist0|
      invariant target >= -1 && (target < 0 <==> to !in dist) && (target >= 0 ==> dist[to] == target)
      invariant q != [] && q[0] == cur && cur in dist
      invariant forall j :: 0 <= j < i ==> g[cur][j].to in dist && dist[g[cur][j].to] <= dist[cur] + 1
    {
      var h := g[cur][i];
      FrontNode(g, from, dist, q, target);
      if h.to in dist { continue; }
      var d := dist[cur] + 1;
      Discover(g, from, dist, q, target, h, if h.to == to then d else target);
      dist := dist[h.to := d];
      if h.to == to { target := d; }
      q := q + [h.to];
      InGraphKeys(g, from, dist, q, target);
    }
  }

  /** p goes on from path along nodes at their distance and ends in `to` after target edges. */
  ghost predicate Completes(g: Graph, from: Node, to: Node, dist: Dist, target: nat, path: Path, p: Path) {
    && IsWalk(g, p, from, to) && |p.edges| == target && |path.edges| <= target
    && path.nodes == p.nodes[..|path.edges| + 1] && path.edges == p.edges[..|path.edges|]
    && forall i :: |path.edges| < i <= target ==> p.nodes[i] in dist && dist[p.nodes[i]] == i
  }

  ghost predicate NoRepeat(s: seq<Path>) { forall i, j :: 0 <= i < j < |s| ==> s[i] != s[j] }

  lemma {:induction false} NoRepeatAppend(a: seq<Path>, b: seq<Path>)
    requires NoRepeat(a) && NoRepeat(b) && forall p :: p in a ==> p !in b
    ensures NoRepeat(a + b)
  {
    forall i, j | 0 <= i < j < |a + b| ensures (a + b)[i] != (a + b)[j] {
      if i < |a| <= j { assert (a + b)[i] in a && (a + b)[j] in b; }
    }
  }

  /** dfs: every completion of path, once. */
  method Dfs(g: Graph, ghost from: Node, to: Node, dist: Dist, target: nat, node: Node, path: Path)
    returns (got: seq<Path>)
    requires Valid(g) && IsWalk(g, path, from, node) && |path.edges| <= target && node in g
    ensures NoRepeat(got) && forall p :: p in got <==> Completes(g, from, to, dist, target, path, p)
    decreases target - |path.edges|
  {
    hide Valid, Completes, IsWalk;
    var hops := |path.edges|;
    if hops == target {
      CompleteNow(g, from, to, dist, target, node, path);
      return if node == to then [path] else [];
    }
    got := [];
    for i := 0 to |g[node]|
      invariant NoRepeat(got)
      invariant forall p :: p in got <==> Completes(g, from, to, dist, target, path, p) && Via(p, hops, g[node][..i])
    {
      var h := g[node][i];
      assert g[node][..i+1] == g[node][..i] + [h];
      NextHop(g, from, to, dist, target, node, path, i);
      if h.to in dist && dist[h.to] == hops + 1 {
        ExtendWalk(g, path, from, node, h);
        HopInGraph(g, node, h);
        var more := Dfs(g, from, to, dist, target, h.to, Extend(path, h));
        NoRepeatAppend(got, more);
        got := got + more;
      }
    }
    assert g[node][..|g[node]|] == g[node];
    forall p ensures p in got <==> Completes(g, from, to, dist, target, path, p) {
      SomeHop(g, from, to, dist, target, node, path, p);
    }
  }

  /** The edge that p takes after so many edges is one of these. */
  ghost predicate Via(p: Path, hops: nat, hs: seq<Hop>) {
    |p.edges| > hops && |p.nodes| > hops + 1 && Hop(p.edges[hops], p.nodes[hops+1]) in hs
  }

  lemma {:induction false} HopInGraph(g: Graph, node: Node, h: Hop)
    requires Valid(g) && node in g && h in g[node]
    ensures h.to in g
  { var i :| 0 <= i < |g[node]| && g[node][i] == h; }

  lemma {:induction false} CompleteNow(g: Graph, from: Node, to: Node, dist: Dist, target: nat, node: Node, path: Path)
    requires IsWalk(g, path, from, node) && |path.edges| == target
    ensures forall p :: Completes(g, from, to, dist, target, path, p) <==> p == path && node == to
  {
    forall p ensures Completes(g, from, to, dist, target, path, p) <==> p == path && node == to {
      if |p.nodes| == target + 1 && |p.edges| == target {
        assert p.nodes[..target + 1] == p.nodes && p.edges[..target] == p.edges;
      }
      if p == path { assert path.nodes[..target + 1] == path.nodes && path.edges[..target] == path.edges; }
    }
  }

  /** Completions through the i-th edge are completions of the longer path. */
  lemma {:induction false} NextHop(g: Graph, from: Node, to: Node, dist: Dist, target: nat, node: Node, path: Path,
                                   i: nat)
    requires Valid(g) && IsWalk(g, path, from, node) && |path.edges| < target && node in g && i < |g[node]|
    ensures var h, hops := g[node][i], |path.edges|;
      && (forall p :: Completes(g, from, to, dist, target, path, p) && Via(p, hops, [h]) <==>
        h.to in dist && dist[h.to] == hops + 1 && Completes(g, from, to, dist, target, Extend(path, h), p))
      && (forall p :: Via(p, hops, [h]) ==> !Via(p, hops, g[node][..i]))
  {
    var h, hops := g[node][i], |path.edges|;
    forall p ensures Completes(g, from, to, dist, target, path, p) && Via(p, hops, [h]) <==>
      h.to in dist && dist[h.to] == hops + 1 && Completes(g, from, to, dist, target, Extend(path, h), p) {
      if |p.edges| == target && |p.nodes| == target + 1 { OneFurther(p, path, h); }
    }
    forall p | Via(p, hops, [h]) ensures !Via(p, hops, g[node][..i]) {
      forall j | 0 <= j < i ensures g[node][j] != h {}
    }
  }

  lemma {:induction false} OneFurther(p: Path, path: Path, h: Hop)
    requires |path.nodes| == |path.edges| + 1 && |path.edges| < |p.edges| && |p.nodes| == |p.edges| + 1
    ensures var n := |path.edges|;
      (path.nodes == p.nodes[..n+1] && path.edges == p.edges[..n] && p.edges[n] == h.id && p.nodes[n+1] == h.to)
      <==> (Extend(path, h).nodes == p.nodes[..n+2] && Extend(path, h).edges == p.edges[..n+1])
  {
    var n := |path.edges|;
    assert p.nodes[..n+2] == p.nodes[..n+1] + [p.nodes[n+1]] && p.edges[..n+1] == p.edges[..n] + [p.edges[n]];
  }

  lemma {:induction false} SomeHop(g: Graph, from: Node, to: Node, dist: Dist, target: nat, node: Node, path: Path,
                                   p: Path)
    requires IsWalk(g, path, from, node) && |path.edges| < target && node in g
    ensures Completes(g, from, to, dist, target, path, p) ==> Via(p, |path.edges|, g[node])
  {
    var n := |path.edges|;
    if Completes(g, from, to, dist, target, path, p) {
      assert path.nodes[n] == p.nodes[n] == node;
      assert Step(g, p.nodes[n], p.edges[n], p.nodes[n+1]);
    }
  }

  /** The rest of p after a shorter way to its i-th node. */
  lemma {:induction false} Shortcut(g: Graph, from: Node, to: Node, w: Path, p: Path, i: nat) returns (q: Path)
    requires IsWalk(g, p, from, to) && i <= |p.edges| && IsWalk(g, w, from, p.nodes[i])
    ensures IsWalk(g, q, from, to) && |q.edges| == |w.edges| + |p.edges| - i
  {
    q := Path(w.nodes + p.nodes[i+1..], w.edges + p.edges[i..]);
    var k := |w.edges|;
    forall j | 0 <= j < |q.edges| ensures Step(g, q.nodes[j], q.edges[j], q.nodes[j+1]) {
      if j < k { assert Step(g, w.nodes[j], w.edges[j], w.nodes[j+1]); }
      else {
        assert Step(g, p.nodes[j-k+i], p.edges[j-k+i], p.nodes[j-k+i+1]);
        assert q.nodes[j] == p.nodes[j-k+i];
      }
    }
  }

  /** The completions of the start are exactly the shortest paths. */
  lemma {:induction false} CompletionsAreShortest(g: Graph, from: Node, to: Node, dist: Dist, target: nat, p: Path)
    requires Valid(g) && from in g && Measured(g, from, to, dist, target)
    ensures Completes(g, from, to, dist, target, Path([from], []), p) <==> Shortest(g, p, from, to)
  {
    var start := Path([from], []);
    forall q | IsWalk(g, q, from, to) ensures target <= |q.edges| {
      if |q.edges| <= target { Minimal(g, from, dist, q, to, target); }
    }
    if Shortest(g, p, from, to) {
      var w :| IsWalk(g, w, from, to) && |w.edges| == dist[to];
      assert |p.edges| == target;
      forall i: nat | 0 < i <= target ensures p.nodes[i] in dist && dist[p.nodes[i]] == i {
        PrefixWalk(g, p, from, to, i);
        Minimal(g, from, dist, Prefix(p, i), p.nodes[i], target);
        var v :| IsWalk(g, v, from, p.nodes[i]) && |v.edges| == dist[p.nodes[i]];
        var q := Shortcut(g, from, to, v, p, i);
      }
      assert p.nodes[..1] == [from] && p.edges[..0] == [];
    }
  }

  // ---- the order of the result --------------------------------------------------------------

  function ValueOf(p: Path): Values.Value { Values.Path(p.nodes, p.edges) }

  /** value.Compare puts p before q. */
  predicate Before(p: Path, q: Path) { Values.CompareValues(ValueOf(p), ValueOf(q)) < 0 }

  predicate Ascending(ps: seq<Path>) { forall i, j :: 0 <= i < j < |ps| ==> Before(ps[i], ps[j]) }

  predicate AllPaths(ps: seq<Path>) { forall i :: 0 <= i < |ps| ==> Values.WellFormed(ValueOf(ps[i])) }

  /** Paths that compare equal are equal. */
  lemma {:induction false} SamePath(an: seq<Node>, ae: seq<Float64.Bits>, bn: seq<Node>, be: seq<Float64.Bits>)
    requires Values.WellFormedPath(an, ae) && Values.WellFormedPath(bn, be) && Values.ComparePaths(an, ae, bn, be) == 0
    ensures an == bn && ae == be
    decreases |an|
  {
    if an != [] && bn != [] {
      assert an == [an[0]] + an[1..] && bn == [bn[0]] + bn[1..];
      if ae == [] || be == [] {
        assert |an| == 1 && |bn| == 1;
      } else {
        assert ae == [ae[0]] + ae[1..] && be == [be[0]] + be[1..];
        SamePath(an[1..], ae[1..], bn[1..], be[1..]);
      }
    }
  }

  lemma {:induction false} BeforeOrAfter(p: Path, q: Path)
    requires Values.WellFormed(ValueOf(p)) && Values.WellFormed(ValueOf(q))
    ensures p == q || Before(p, q) || Before(q, p)
  {
    Values.CompareIsOrder(ValueOf(p), ValueOf(q), ValueOf(p));
    Values.CompareIsOrder(ValueOf(q), ValueOf(p), ValueOf(q));
    if !Before(p, q) && !Before(q, p) { SamePath(p.nodes, p.edges, q.nodes, q.edges); }
  }

  lemma {:induction false} BeforeTrans(p: Path, q: Path, r: Path)
    requires Values.WellFormed(ValueOf(p)) && Values.WellFormed(ValueOf(q)) && Values.WellFormed(ValueOf(r))
    requires Before(p, q) && Before(q, r)
    ensures Before(p, r)
  {
    Values.CompareIsOrder(ValueOf(p), ValueOf(q), ValueOf(r));
  }

  function Place(ps: seq<Path>, p: Path): seq<Path> {
    if ps == [] then [p] else if Before(p, ps[0]) then [p] + ps else [ps[0]] + Place(ps[1..], p)
  }

  /** sort.Slice by value.Compare. */
  function SortPaths(ps: seq<Path>): seq<Path> {
    if ps == [] then [] else Place(SortPaths(ps[1..]), ps[0])
  }

  lemma {:induction false} PlaceMembers(ps: seq<Path>, p: Path)
    ensures forall q :: q in Place(ps, p) <==> q in ps || q == p
  {
    if ps != [] && !Before(p, ps[0]) {
      PlaceMembers(ps[1..], p);
      assert ps == [ps[0]] + ps[1..];
    }
  }

  lemma {:induction false} PlaceAscends(ps: seq<Path>, p: Path)
    requires Ascending(ps) && AllPaths(ps) && Values.WellFormed(ValueOf(p)) && p !in ps
    ensures Ascending(Place(ps, p)) && AllPaths(Place(ps, p))
  {
    hide Before;
    var s := Place(ps, p);
    if ps == [] {
    } else if Before(p, ps[0]) {
      forall j | 0 < j < |s| ensures Before(s[0], s[j]) { if j > 1 { BeforeTrans(p, ps[0], ps[j-1]); } }
    } else {
      BeforeOrAfter(p, ps[0]);
      PlaceAscends(ps[1..], p);
      PlaceMembers(ps[1..], p);
      var t := Place(ps[1..], p);
      forall j | 0 <= j < |t| ensures Before(ps[0], t[j]) {
        assert t[j] in t;
        if t[j] != p {
          var i :| 0 <= i < |ps[1..]| && ps[1..][i] == t[j];
          assert ps[i+1] == t[j];
        }
      }
      Headed(ps[0], t);
    }
  }

  lemma {:induction false} Headed(p: Path, t: seq<Path>)
    requires Ascending(t) && AllPaths(t) && Values.WellFormed(ValueOf(p)) && forall j :: 0 <= j < |t| ==>
      Before(p, t[j])
    ensures Ascending([p] + t) && AllPaths([p] + t)
  {
    hide Before;
  }

  /** Sorting different paths keeps them and puts them in ascending order. */
  lemma {:induction false} SortsPaths(ps: seq<Path>)
    requires NoRepeat(ps) && AllPaths(ps)
    ensures Ascending(SortPaths(ps)) && AllPaths(SortPaths(ps)) && forall q :: q in SortPaths(ps) <==> q in ps
  {
    if ps != [] {
      SortsPaths(ps[1..]);
      assert ps == [ps[0]] + ps[1..];
      hide Ascending, AllPaths;
      PlaceMembers(SortPaths(ps[1..]), ps[0]);
      PlaceAscends(SortPaths(ps[1..]), ps[0]);
    }
  }

  lemma {:induction false} AscendingOnce(ps: seq<Path>)
    requires Ascending(ps) && AllPaths(ps)
    ensures NoRepeat(ps)
  {
    forall i, j | 0 <= i < j < |ps| ensures ps[i] != ps[j] {
      Values.CompareIsOrder(ValueOf(ps[i]), ValueOf(ps[j]), ValueOf(ps[i]));
      assert Before(ps[i], ps[j]);
    }
  }

  lemma {:induction false} WalksFormed(g: Graph, from: Node, to: Node, ps: seq<Path>)
    requires forall p :: p in ps ==> Shortest(g, p, from, to)
    ensures AllPaths(ps)
  {
    forall i | 0 <= i < |ps| ensures Values.WellFormed(ValueOf(ps[i])) { assert ps[i] in ps; }
  }

  /** allShortest: every path of minimum length, once, in the order of value.Compare;
      none if there is no walk. */
  method AllShortest(g: Graph, from: Node, to: Node) returns (got: seq<Path>)
    requires Valid(g) && from in g && from != to
    ensures NoRepeat(got) && Ascending(got) && forall p :: p in got <==> Shortest(g, p, from, to)
  {
    hide Valid, IsWalk, Search, Completes, Shortest, Before, AllPaths;
    var dist, target := Measure(g, from, to);
    if target < 0 {
      Exhausted(g, from, dist, to);
      forall p ensures !Shortest(g, p, from, to) { ShortestIsWalk(g, from, to, p); }
      return [];
    }
    StartWalk(g, from);
    got := Dfs(g, from, to, dist, target, from, Path([from], []));
    forall p ensures p in got <==> Shortest(g, p, from, to) { CompletionsAreShortest(g, from, to, dist, target, p); }
    WalksFormed(g, from, to, got);
    SortsPaths(got);
    got := SortPaths(got);
    AscendingOnce(got);
  }

  lemma {:induction false} StartWalk(g: Graph, from: Node)
    requires from in g
    ensures IsWalk(g, Path([from], []), from, from)
  {}

  lemma {:induction false} ShortestIsWalk(g: Graph, from: Node, to: Node, p: Path)
    ensures Shortest(g, p, from, to) ==> IsWalk(g, p, from, to)
  {}

  /** fnShortest with its list of paths: no path for a missing node, the path
      without edges from a node to itself, and otherwise the two searches. */
  method FnShortest(g: Graph, from: Node, to: Node, all: bool) returns (got: seq<Path>)
    requires Valid(g)
    ensures all ==> NoRepeat(got) && Ascending(got) && forall p :: p in got <==> Shortest(g, p, from, to)
    ensures !all ==>
      |got| <= 1 && (got == [] <==> forall p :: !IsWalk(g, p, from, to)) && forall p :: p in got ==>
        Shortest(g, p, from, to)
  {
    hide Valid, IsWalk, Shortest;
    if from !in g || to !in g {
      forall p ensures !IsWalk(g, p, from, to) && !Shortest(g, p, from, to) {
        EndsInGraph(g, from, to, p);
        ShortestIsWalk(g, from, to, p);
      }
      return [];
    }
    if from == to {
      var here := Path([from], []);
      StartWalk(g, from);
      forall p ensures p == here <==> Shortest(g, p, from, to) { NoEdges(g, from, p); }
      return [here];
    }
    if all {
      got := AllShortest(g, from, to);
      return;
    }
    var r := OneShortest(g, from, to);
    if r.None? { return []; }
    ShortestIsWalk(g, from, to, r.value);
    return [r.value];
  }

  lemma {:induction false} EndsInGraph(g: Graph, from: Node, to: Node, p: Path)
    requires Valid(g) && (from !in g || to !in g)
    ensures !IsWalk(g, p, from, to)
  {
    if |p.edges| > 0 && |p.nodes| == |p.edges| + 1
      && Step(g, p.nodes[|p.edges|-1], p.edges[|p.edges|-1], p.nodes[|p.edges|]) {
      HopInGraph(g, p.nodes[|p.edges|-1], Hop(p.edges[|p.edges|-1], p.nodes[|p.edges|]));
    }
  }

  lemma {:induction false} NoEdges(g: Graph, from: Node, p: Path)
    requires from in g
    ensures p == Path([from], []) <==> Shortest(g, p, from, from)
  {
    assert IsWalk(g, Path([from], []), from, from);
    if Shortest(g, p, from, from) {
      assert |p.edges| == 0 && p.nodes == [from];
    }
  }
}
