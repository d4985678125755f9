/**
 `find_cycles`: all simple cycles of a directed graph, each once, whatever node of the cycle it
 is reported from.
 */
module Cycles {
  import opened Basics

  type Item = int

  type Graph = map<Item, seq<Item>>

  predicate Edge(g: Graph, u: Item, v: Item) {
    u in g && v in g[u]
  }

  /** The last item of the list is a parent of the first. */
  ghost predicate IsCycle(g: Graph, c: seq<Item>) {
    && |c| > 0 && Distinct(c)
    && (forall i :: 0 <= i < |c| - 1 ==> Edge(g, c[i], c[i + 1]))
    && Edge(g, c[|c| - 1], c[0])
  }

  ghost predicate IsPath(g: Graph, start: Item, p: seq<Item>) {
    && |p| > 0 && p[0] == start && Distinct(p)
    && (forall i :: 0 <= i < |p| - 1 ==> Edge(g, p[i], p[i + 1]))
  }

  // ---- Rotations ----

  function Rotate(s: seq<Item>, k: nat): seq<Item>
    requires k <= |s|
  {
    s[k..] + s[..k]
  }

  ghost predicate Rotation(a: seq<Item>, b: seq<Item>) {
    exists k :: 0 <= k <= |a| && Rotate(a, k) == b
  }

  lemma RotateTwice(s: seq<Item>, j: nat, k: nat)
    requires j <= |s| && k <= |s|
    ensures Rotate(Rotate(s, j), k) == Rotate(s, if j + k <= |s| then j + k else j + k - |s|)
  {
    var m := if j + k <= |s| then j + k else j + k - |s|;
    var a, b := Rotate(Rotate(s, j), k), Rotate(s, m);
    assert |a| == |b| == |s|;
    forall i | 0 <= i < |s| ensures a[i] == b[i] {
      assert Rotate(s, j)[(if i + k < |s| then i + k else i + k - |s|)] == a[i];
    }
  }

  lemma RotationTransitive(a: seq<Item>, b: seq<Item>, c: seq<Item>)
    requires Rotation(a, b) && Rotation(b, c)
    ensures Rotation(a, c)
  {
    var j :| 0 <= j <= |a| && Rotate(a, j) == b;
    var k :| 0 <= k <= |b| && Rotate(b, k) == c;
    RotateTwice(a, j, k);
  }

  lemma RotationSymmetric(a: seq<Item>, b: seq<Item>)
    requires Rotation(a, b)
    ensures Rotation(b, a)
  {
    var j :| 0 <= j <= |a| && Rotate(a, j) == b;
    RotateTwice(a, j, |a| - j);
    assert Rotate(a, |a|) == a;
    assert Rotate(b, |b| - j) == a;
  }

  lemma WrappedSlice(s: seq<Item>, m: nat)
    requires m < |s|
    ensures (s + s)[m..m + |s|] == Rotate(s, m)
  {
    var a, b := (s + s)[m..m + |s|], Rotate(s, m);
    forall i | 0 <= i < |s| ensures a[i] == b[i] {}
  }

  /** Whether the first sequence is a rotation of the second. */
  method IsRotated(seq1: seq<Item>, seq2: seq<Item>) returns (r: bool)
    requires |seq1| == |seq2| ==> |seq2| > 0
    ensures r <==> Rotation(seq1, seq2)
  {
    if |seq1| != |seq2| {
      return false;
    }
    var startIndexes: seq<nat> := [];
    for index1 := 0 to |seq1|
      invariant forall k :: 0 <= k < |startIndexes| ==> startIndexes[k] < index1 && seq1[startIndexes[k]] == seq2[0]
      invariant forall m: nat :: m < index1 && seq1[m] == seq2[0] ==> m in startIndexes
    {
      if seq1[index1] == seq2[0] {
        startIndexes := startIndexes + [index1];
      }
    }
    var doubleSeq1 := seq1 + seq1;
    for k := 0 to |startIndexes|
      invariant forall j :: 0 <= j < k ==> Rotate(seq1, startIndexes[j]) != seq2
    {
      var m := startIndexes[k];
      WrappedSlice(seq1, m);
      if doubleSeq1[m..m + |seq1|] == seq2 {
        return true;
      }
    }
    forall k: nat | k <= |seq1| ensures Rotate(seq1, k) != seq2 {
      var m: nat := if k == |seq1| then 0 else k;
      assert Rotate(seq1, m) == Rotate(seq1, k);
      assert Rotate(seq1, m)[0] == seq1[m];
      if seq1[m] == seq2[0] {
        var j :| 0 <= j < |startIndexes| && startIndexes[j] == m;
        assert Rotate(seq1, startIndexes[j]) != seq2;
      }
    }
    return false;
  }

  // ---- What has been found ----

  ghost predicate Recorded(cycles: seq<seq<Item>>, c: seq<Item>) {
    exists k :: 0 <= k < |cycles| && Rotation(cycles[k], c)
  }

  function IndexOf(p: seq<Item>, x: Item): (i: nat)
    requires x in p
    ensures i < |p| && p[i] == x && forall j :: 0 <= j < i ==> p[j] != x
  {
    if p[0] == x then 0 else 1 + IndexOf(p[1..], x)
  }

  /** Every cycle closed by an edge from the end of p back into p is recorded. */
  ghost predicate Closed(g: Graph, cycles: seq<seq<Item>>, p: seq<Item>)
    requires |p| > 0
  {
    forall child :: Edge(g, p[|p| - 1], child) && child in p ==> Recorded(cycles, p[IndexOf(p, child)..])
  }

  ghost predicate Explored(g: Graph, cycles: seq<seq<Item>>, start: Item) {
    forall p :: IsPath(g, start, p) ==> Closed(g, cycles, p)
  }

  /** Only cycles, and no two that are rotations of each other. */
  ghost predicate Sound(g: Graph, cycles: seq<seq<Item>>) {
    && (forall k :: 0 <= k < |cycles| ==> IsCycle(g, cycles[k]))
    && (forall j, k :: 0 <= j < k < |cycles| ==> !Rotation(cycles[j], cycles[k]))
  }

  lemma RecordedGrows(cycles: seq<seq<Item>>, cycles': seq<seq<Item>>, c: seq<Item>)
    requires Recorded(cycles, c) && cycles <= cycles'
    ensures Recorded(cycles', c)
  {
    var k :| 0 <= k < |cycles| && Rotation(cycles[k], c);
    assert cycles'[k] == cycles[k];
  }

  lemma ClosedGrows(g: Graph, cycles: seq<seq<Item>>, cycles': seq<seq<Item>>, p: seq<Item>)
    requires |p| > 0 && Closed(g, cycles, p) && cycles <= cycles'
    ensures Closed(g, cycles', p)
  {
    forall child | Edge(g, p[|p| - 1], child) && child in p ensures Recorded(cycles', p[IndexOf(p, child)..]) {
      RecordedGrows(cycles, cycles', p[IndexOf(p, child)..]);
    }
  }

  /** The end of a path, from the child of its last item on, is a cycle. */
  lemma TailIsCycle(g: Graph, start: Item, p: seq<Item>, child: Item)
    requires IsPath(g, start, p) && Edge(g, p[|p| - 1], child) && child in p
    ensures IsCycle(g, p[IndexOf(p, child)..])
  {
    var i := IndexOf(p, child);
    var c := p[i..];
    forall k | 0 <= k < |c| - 1 ensures Edge(g, c[k], c[k + 1]) {
      assert Edge(g, p[i + k], p[i + k + 1]);
    }
  }

  /** Go along the path until it first meets the cycle, then once round. */
  lemma OnceRound(g: Graph, start: Item, q: seq<Item>, c: seq<Item>) returns (p: seq<Item>, i: nat, k: nat)
    requires IsPath(g, start, q) && IsCycle(g, c) && q[|q| - 1] in c
    ensures IsPath(g, start, p) && i < |p| && k <= |c| && p[i..] == Rotate(c, k)
    ensures Edge(g, p[|p| - 1], p[i]) && IndexOf(p, p[i]) == i
  {
    assert |q| > 0 && |c| > 0;
    hide IsPath, IsCycle, Edge;
    i := FirstIn(q, c);
    k := IndexOf(c, q[i]);
    hide IndexOf;
    var round := Rotate(c, k);
    p := q[..i] + round;
    assert round[0] == q[i] && |round| == |c|;
    RoundTrip(g, start, q, c, i, k);
    hide Rotate;
    Joined(q, i, round);
    ReturnPoint(g, start, p, i);
  }

  /** A cycle reached by a path from an explored start is recorded. */
  lemma ReachedCycleRecorded(g: Graph, cycles: seq<seq<Item>>, start: Item, q: seq<Item>, c: seq<Item>)
    requires Explored(g, cycles, start) && IsPath(g, start, q) && IsCycle(g, c) && q[|q| - 1] in c
    ensures Recorded(cycles, c)
  {
    hide IsCycle, Recorded, Edge, Closed, Rotate, IndexOf, Distinct;
    var p, i, k := OnceRound(g, start, q, c);
    assert Closed(g, cycles, p);
    ClosedAt(g, cycles, p, i);
    RecordedRotation(cycles, c, k);
  }

  lemma Joined(q: seq<Item>, i: nat, round: seq<Item>)
    requires i < |q| && |round| > 0 && round[0] == q[i]
    ensures var p := q[..i] + round; p[i] == q[i] && p[i..] == round && p[|p| - 1] == round[|round| - 1]
  {}

  lemma ClosedAt(g: Graph, cycles: seq<seq<Item>>, p: seq<Item>, i: nat)
    requires i < |p| && Closed(g, cycles, p) && Edge(g, p[|p| - 1], p[i]) && IndexOf(p, p[i]) == i
    ensures Recorded(cycles, p[i..])
  {}

  lemma ReturnPoint(g: Graph, start: Item, p: seq<Item>, i: nat)
    requires IsPath(g, start, p) && i < |p|
    ensures IndexOf(p, p[i]) == i
  {
    assert Distinct(p);
  }

  lemma RecordedRotation(cycles: seq<seq<Item>>, c: seq<Item>, k: nat)
    requires k <= |c| && Recorded(cycles, Rotate(c, k))
    ensures Recorded(cycles, c)
  {
    var round := Rotate(c, k);
    var r :| 0 <= r < |cycles| && Rotation(cycles[r], round);
    assert Rotation(c, round);
    RotationSymmetric(c, round);
    RotationTransitive(cycles[r], round, c);
  }

  lemma FirstIn(q: seq<Item>, c: seq<Item>) returns (i: nat)
    requires |q| > 0 && q[|q| - 1] in c
    ensures i < |q| && q[i] in c && forall j :: 0 <= j < i ==> q[j] !in c
  {
    i := 0;
    while q[i] !in c
      invariant i < |q| && forall j :: 0 <= j < i ==> q[j] !in c
      decreases |q| - i
    {
      i := i + 1;
    }
  }

  lemma RoundTrip(g: Graph, start: Item, q: seq<Item>, c: seq<Item>, i: nat, k: nat)
    requires IsPath(g, start, q) && IsCycle(g, c) && i < |q| && k < |c| && c[k] == q[i]
    requires forall j :: 0 <= j < i ==> q[j] !in c
    ensures IsPath(g, start, q[..i] + Rotate(c, k))
    ensures Edge(g, Rotate(c, k)[|c| - 1], q[i])
  {
    var round := Rotate(c, k);
    var p := q[..i] + round;
    RotatedCycle(g, c, k);
    forall m | 0 <= m < |round| ensures round[m] in c {}
    forall a, b | 0 <= a < b < |p| ensures p[a] != p[b] {
      if a < i <= b { assert p[b] == round[b - i]; }
    }
    forall m | 0 <= m < |p| - 1 ensures Edge(g, p[m], p[m + 1]) {
      if m + 1 <= i {
        assert Edge(g, q[m], q[m + 1]);
      } else {
        assert Edge(g, round[m - i], round[m - i + 1]);
      }
    }
  }

  lemma RotatedCycle(g: Graph, c: seq<Item>, k: nat)
    requires IsCycle(g, c) && k < |c|
    ensures IsCycle(g, Rotate(c, k))
  {
    var r := Rotate(c, k);
    forall m | 0 <= m < |r| - 1 ensures Edge(g, r[m], r[m + 1]) {
      if m + k < |c| - 1 {
        assert r[m] == c[m + k] && r[m + 1] == c[m + k + 1];
      } else if m + k == |c| - 1 {
        assert r[m] == c[|c| - 1] && r[m + 1] == c[0];
      } else {
        assert r[m] == c[m + k - |c|] && r[m + 1] == c[m + k - |c| + 1];
      }
    }
    if k > 0 {
      assert r[|r| - 1] == c[k - 1] && r[0] == c[k];
      assert Edge(g, c[k - 1], c[k - 1 + 1]);
    }
  }

  // ---- Why the search ends ----

  /** What a path that can still grow by m items may cost, when no item has more than d children. */
  function Weight(d: nat, m: nat): (w: nat)
    ensures w > 0
  {
    if m == 0 then 1 else 1 + d * Weight(d, m - 1)
  }

  ghost function Cost(d: nat, n: nat, paths: seq<seq<Item>>): nat {
    if paths == [] then 0
    else Cost(d, n, paths[..|paths| - 1]) + Weight(d, Spare(n, paths[|paths| - 1]))
  }

  lemma CostPush(d: nat, n: nat, paths: seq<seq<Item>>, p: seq<Item>)
    ensures Cost(d, n, paths + [p]) == Cost(d, n, paths) + Weight(d, Spare(n, p))
  {
    assert (paths + [p])[..|paths|] == paths;
  }

  lemma {:induction false} SubsetSize(a: set<Item>, b: set<Item>)
    requires a <= b
    ensures |a| <= |b|
    decreases a
  {
    if a != {} {
      var x := SomeMember(a);
      SubsetSize(a - {x}, b - {x});
    }
  }

  ghost function Nodes(g: Graph): set<Item> {
    g.Keys + set u, i | u in g && 0 <= i < |g[u]| :: g[u][i]
  }

  lemma PathInNodes(g: Graph, start: Item, p: seq<Item>)
    requires IsPath(g, start, p) && start in g
    ensures |p| <= |Nodes(g)|
  {
    forall x | x in Items(p) ensures x in Nodes(g) {
      var i :| 0 <= i < |p| && p[i] == x;
      if i > 0 { assert Edge(g, p[i - 1], p[i - 1 + 1]); }
    }
    DistinctSize(p);
    SubsetSize(Items(p), Nodes(g));
  }

  ghost predicate ChildBound(g: Graph, d: nat) {
    forall u :: u in g ==> |g[u]| <= d
  }

  lemma {:induction false} BoundExists(g: Graph) returns (d: nat)
    ensures ChildBound(g, d)
    decreases g.Keys
  {
    if g.Keys == {} {
      d := 0;
    } else {
      var u := SomeMember(g.Keys);
      var g' := g - {u};
      assert g'.Keys < g.Keys;
      var e := BoundExists(g');
      d := if |g[u]| <= e then e else |g[u]|;
      forall v | v in g ensures |g[v]| <= d {
        if v != u { assert v in g' && g'[v] == g[v]; }
      }
    }
  }

  // ---- The search ----

  /** Every path from start either is finished with or extends a path of the stack. */
  ghost predicate Pending(g: Graph, cycles: seq<seq<Item>>, start: Item, paths: seq<seq<Item>>) {
    forall p :: IsPath(g, start, p) ==> Closed(g, cycles, p) || Extends(paths, p)
  }

  ghost predicate Extends(paths: seq<seq<Item>>, p: seq<Item>) {
    exists k :: 0 <= k < |paths| && paths[k] <= p
  }

  ghost predicate ReachedFrom(g: Graph, start: Item, v: Item) {
    exists p :: IsPath(g, start, p) && p[|p| - 1] == v
  }

  lemma SoundAppended(g: Graph, cycles: seq<seq<Item>>, cycle: seq<Item>)
    requires Sound(g, cycles) && IsCycle(g, cycle)
    requires forall j :: 0 <= j < |cycles| ==> !Rotation(cycles[j], cycle)
    ensures Sound(g, cycles + [cycle]) && Recorded(cycles + [cycle], cycle)
  {
    hide IsCycle;
    assert Rotate(cycle, 0) == cycle;
    hide Rotation;
    assert Rotation((cycles + [cycle])[|cycles|], cycle);
  }

  /** An edge from the end of the path back into it: record the cycle unless it is known. */
  method RecordCycle(g: Graph, ghost start: Item, path: seq<Item>, child: Item, cycles: seq<seq<Item>>)
    returns (cycles': seq<seq<Item>>)
    requires IsPath(g, start, path) && Edge(g, path[|path| - 1], child) && child in path && Sound(g, cycles)
    ensures cycles <= cycles' && Sound(g, cycles') && Recorded(cycles', path[IndexOf(path, child)..])
  {
    var cycle := path[IndexOf(path, child)..];
    TailIsCycle(g, start, path, child);
    assert |cycle| > 0;
    hide IsPath, IsCycle, Rotation, Sound, Edge, IndexOf;
    var isDup := false;
    for k := 0 to |cycles|
      invariant isDup ==> Recorded(cycles, cycle)
      invariant !isDup ==> forall j :: 0 <= j < k ==> !Rotation(cycles[j], cycle)
    {
      var r := IsRotated(cycles[k], cycle);
      if r {
        isDup := true;
        break;
      }
    }
    cycles' := cycles;
    if !isDup {
      cycles' := cycles + [cycle];
      SoundAppended(g, cycles, cycle);
    }
  }

  lemma Extended(g: Graph, start: Item, path: seq<Item>, child: Item)
    requires IsPath(g, start, path) && Edge(g, path[|path| - 1], child) && child !in path
    ensures IsPath(g, start, path + [child])
  {
    var p := path + [child];
    forall i | 0 <= i < |p| - 1 ensures Edge(g, p[i], p[i + 1]) {
      if i < |path| - 1 { assert Edge(g, path[i], path[i + 1]); }
    }
  }

  ghost predicate AllPaths(g: Graph, start: Item, paths: seq<seq<Item>>) {
    forall k :: 0 <= k < |paths| ==> IsPath(g, start, paths[k])
  }

  ghost predicate AllReached(g: Graph, start: Item, visited: set<Item>, visited': set<Item>) {
    visited <= visited' && forall v :: v in visited' ==> v in visited || ReachedFrom(g, start, v)
  }

  ghost predicate Handled(path: seq<Item>, child: Item, paths: seq<seq<Item>>, cycles: seq<seq<Item>>,
                          visited: set<Item>) {
    if child in path then Recorded(cycles, path[IndexOf(path, child)..])
    else path + [child] in paths && child in visited
  }

  lemma HandledGrows(path: seq<Item>, child: Item, paths: seq<seq<Item>>, cycles: seq<seq<Item>>, visited: set<Item>,
                     paths': seq<seq<Item>>, cycles': seq<seq<Item>>, visited': set<Item>)
    requires Handled(path, child, paths, cycles, visited) && paths <= paths' && cycles <= cycles' && visited <= visited'
    ensures Handled(path, child, paths', cycles', visited')
  {
    if child in path {
      RecordedGrows(cycles, cycles', path[IndexOf(path, child)..]);
    }
  }

  ghost predicate HandledTo(path: seq<Item>, children: seq<Item>, paths: seq<seq<Item>>, cycles: seq<seq<Item>>,
                            visited: set<Item>)
  {
    forall c :: c in children ==> Handled(path, c, paths, cycles, visited)
  }

  lemma NoneToHandle(path: seq<Item>, paths: seq<seq<Item>>, cycles: seq<seq<Item>>, visited: set<Item>)
    ensures HandledTo(path, [], paths, cycles, visited)
  {}

  lemma HandledStep(path: seq<Item>, children: seq<Item>, child: Item,
                    paths: seq<seq<Item>>, cycles: seq<seq<Item>>, visited: set<Item>,
                    paths': seq<seq<Item>>, cycles': seq<seq<Item>>, visited': set<Item>)
    requires HandledTo(path, children, paths, cycles, visited) && paths <= paths' && cycles <= cycles' &&
             visited <= visited'
    requires Handled(path, child, paths', cycles', visited')
    ensures HandledTo(path, children + [child], paths', cycles', visited')
  {
    hide Handled;
    forall c | c in children ensures Handled(path, c, paths', cycles', visited') {
      HandledGrows(path, c, paths, cycles, visited, paths', cycles', visited');
    }
  }

  lemma PushKeeps(g: Graph, start: Item, path: seq<Item>, child: Item, paths: seq<seq<Item>>)
    requires IsPath(g, start, path) && Edge(g, path[|path| - 1], child) && child !in path && AllPaths(g, start, paths)
    ensures AllPaths(g, start, paths + [path + [child]]) && ReachedFrom(g, start, child)
  {
    Extended(g, start, path, child);
    var p := path + [child];
    assert p[|p| - 1] == child;
  }

  function Spare(n: nat, path: seq<Item>): nat {
    if |path| <= n then n - |path| else 0
  }

  /** One child of the last item of the path: a cycle it closes is recorded, else the longer path is pushed. */
  method Visit(g: Graph, ghost start: Item, ghost d: nat, ghost n: nat, ghost w: nat, path: seq<Item>, child: Item,
               paths: seq<seq<Item>>, cycles: seq<seq<Item>>, visited: set<Item>)
    returns (paths': seq<seq<Item>>, cycles': seq<seq<Item>>, visited': set<Item>)
    requires IsPath(g, start, path) && Edge(g, path[|path| - 1], child)
    requires Sound(g, cycles) && AllPaths(g, start, paths)
    requires child in path || w == Weight(d, Spare(n, path + [child]))
    ensures cycles <= cycles' && Sound(g, cycles')
    ensures paths' == (if child in path then paths else paths + [path + [child]]) && AllPaths(g, start, paths')
    ensures visited' == (if child in path then visited else visited + {child}) &&
            AllReached(g, start, visited, visited')
    ensures Handled(path, child, paths', cycles', visited')
    ensures Cost(d, n, paths') <= Cost(d, n, paths) + w
  {
    hide Cost, Weight, Sound, IsPath, AllPaths, Recorded, ReachedFrom;
    paths', cycles', visited' := paths, cycles, visited;
    if child in path {
      cycles' := RecordCycle(g, start, path, child, cycles);
    } else {
      PushKeeps(g, start, path, child, paths);
      CostPush(d, n, paths, path + [child]);
      paths' := paths + [path + [child]];
      visited' := visited + {child};
      assert paths'[|paths|] == path + [child];
    }
  }

  /** One path is taken from the stack, and every child of its last item is visited. */
  method Expand(g: Graph, ghost start: Item, ghost d: nat, ghost n: nat, path: seq<Item>,
                paths: seq<seq<Item>>, cycles: seq<seq<Item>>, visited: set<Item>)
    returns (paths': seq<seq<Item>>, cycles': seq<seq<Item>>, visited': set<Item>)
    requires IsPath(g, start, path) && path[|path| - 1] in g
    requires Sound(g, cycles) && AllPaths(g, start, paths)
    requires |g[path[|path| - 1]]| <= d && (|path| < n || forall c :: Edge(g, path[|path| - 1], c) ==> c in path)
    ensures cycles <= cycles' && Sound(g, cycles')
    ensures paths <= paths' && AllPaths(g, start, paths')
    ensures HandledTo(path, g[path[|path| - 1]], paths', cycles', visited')
    ensures AllReached(g, start, visited, visited')
    ensures Cost(d, n, paths') < Cost(d, n, paths) + Weight(d, Spare(n, path))
  {
    var children := g[path[|path| - 1]];
    hide Sound, IsPath, AllPaths, Handled, HandledTo, Cost, AllReached, Weight, Product;
    NoneToHandle(path, paths, cycles, visited);
    paths', cycles', visited' := paths, cycles, visited;
    ReachedAtFirst(g, start, visited);
    ghost var w := if |path| < n then Weight(d, n - |path| - 1) else 0;
    CostStep(0, w);
    for j := 0 to |children|
      invariant cycles <= cycles' && Sound(g, cycles')
      invariant paths <= paths' && AllPaths(g, start, paths')
      invariant HandledTo(path, children[..j], paths', cycles', visited')
      invariant AllReached(g, start, visited, visited')
      invariant Cost(d, n, paths') <= Cost(d, n, paths) + Product(j, w)
    {
      var child := children[j];
      assert Edge(g, path[|path| - 1], child);
      ghost var paths0, cycles0, visited0 := paths', cycles', visited';
      paths', cycles', visited' := Visit(g, start, d, n, w, path, child, paths', cycles', visited');
      ReachedTwice(g, start, visited, visited0, visited');
      HandledStep(path, children[..j], child, paths0, cycles0, visited0, paths', cycles', visited');
      assert children[..j + 1] == children[..j] + [child];
      CostStep(j, w);
    }
    assert children[..|children|] == children;
    CostAtEnd(d, n, path, |children|, w, Cost(d, n, paths), Cost(d, n, paths'));
  }

  lemma ReachedAtFirst(g: Graph, start: Item, visited: set<Item>)
    ensures AllReached(g, start, visited, visited)
  {}

  lemma ReachedTwice(g: Graph, start: Item, a: set<Item>, b: set<Item>, c: set<Item>)
    requires AllReached(g, start, a, b) && AllReached(g, start, b, c)
    ensures AllReached(g, start, a, c) && b <= c
  {}

  function Product(j: nat, w: nat): nat {
    j * w
  }

  lemma CostStep(j: nat, w: nat)
    ensures Product(0, w) == 0 && Product(j + 1, w) == Product(j, w) + w
  {}

  lemma CostAtEnd(d: nat, n: nat, path: seq<Item>, k: nat, w: nat, cost: nat, cost': nat)
    requires k <= d && cost' <= cost + Product(k, w)
    requires w == if |path| < n then Weight(d, n - |path| - 1) else 0
    ensures cost' < cost + Weight(d, Spare(n, path))
  {
    MulMonotone(k, d, w);
    assert |path| < n ==> Weight(d, n - |path|) == 1 + d * w;
    assert |path| >= n ==> Product(k, w) == 0;
    hide Weight;
  }

  // ---- The two loops ----

  /** The last path is off the stack and its children are handled: what is pending is still covered. */
  lemma PendingStep(g: Graph, start: Item, rest: seq<seq<Item>>, path: seq<Item>, cycles: seq<seq<Item>>,
                    paths': seq<seq<Item>>, cycles': seq<seq<Item>>, visited': set<Item>)
    requires Pending(g, cycles, start, rest + [path]) && IsPath(g, start, path)
    requires rest <= paths' && cycles <= cycles'
    requires forall c :: Edge(g, path[|path| - 1], c) ==> Handled(path, c, paths', cycles', visited')
    ensures Pending(g, cycles', start, paths')
  {
    forall p | IsPath(g, start, p) ensures Closed(g, cycles', p) || Extends(paths', p) {
      if Closed(g, cycles, p) {
        ClosedGrows(g, cycles, cycles', p);
      } else {
        var k :| 0 <= k < |rest + [path]| && (rest + [path])[k] <= p;
        if k < |rest| {
          assert paths'[k] == rest[k] <= p;
        } else {
          LastPathStep(g, start, path, p, paths', cycles', visited');
        }
      }
    }
  }

  lemma LastPathStep(g: Graph, start: Item, path: seq<Item>, p: seq<Item>,
                     paths': seq<seq<Item>>, cycles': seq<seq<Item>>, visited': set<Item>)
    requires IsPath(g, start, path) && IsPath(g, start, p) && path <= p
    requires forall c :: Edge(g, path[|path| - 1], c) ==> Handled(path, c, paths', cycles', visited')
    ensures Closed(g, cycles', p) || Extends(paths', p)
  {
    if p != path {
      var i := |path| - 1;
      var c := p[i + 1];
      assert p[i] == path[i];
      assert Edge(g, p[i], c);
      forall j | 0 <= j < |path| ensures path[j] != c { assert p[j] == path[j]; }
      assert Handled(path, c, paths', cycles', visited');
      var k :| 0 <= k < |paths'| && paths'[k] == path + [c];
      assert path + [c] <= p;
    } else {
      forall c | Edge(g, p[|p| - 1], c) && c in p ensures Recorded(cycles', p[IndexOf(p, c)..]) {
        assert Handled(path, c, paths', cycles', visited');
      }
    }
  }

  /** On a path as long as there are items, no child is new. */
  lemma FullPath(g: Graph, start: Item, path: seq<Item>)
    requires IsPath(g, start, path) && start in g
    ensures |path| < |Nodes(g)| || forall c :: Edge(g, path[|path| - 1], c) ==> c in path
  {
    forall c | Edge(g, path[|path| - 1], c) && c !in path ensures |path| < |Nodes(g)| {
      Extended(g, start, path, c);
      PathInNodes(g, start, path + [c]);
    }
  }

  lemma PendingAtFirst(g: Graph, cycles: seq<seq<Item>>, start: Item)
    ensures Pending(g, cycles, start, [[start]]) && AllPaths(g, start, [[start]])
  {
    forall p | IsPath(g, start, p) ensures Extends([[start]], p) {
      assert [[start]][0] <= p;
    }
  }

  lemma NothingPending(g: Graph, cycles: seq<seq<Item>>, start: Item)
    requires Pending(g, cycles, start, [])
    ensures Explored(g, cycles, start)
  {}

  /** All paths from one start node. */
  method Explore(g: Graph, ghost d: nat, start: Item, cycles: seq<seq<Item>>, visited: set<Item>)
    returns (cycles': seq<seq<Item>>, visited': set<Item>)
    requires start in g && Sound(g, cycles) && ChildBound(g, d)
    ensures cycles <= cycles' && Sound(g, cycles') && Explored(g, cycles', start)
    ensures AllReached(g, start, visited, visited')
  {
    ghost var n := |Nodes(g)|;
    cycles', visited' := cycles, visited;
    var paths := [[start]];
    PendingAtFirst(g, cycles, start);
    ReachedAtFirst(g, start, visited);
    hide Sound, Pending, Closed, AllReached, Cost, Weight, Handled, Explored;
    while paths != []
      invariant cycles <= cycles' && Sound(g, cycles')
      invariant AllPaths(g, start, paths) && Pending(g, cycles', start, paths)
      invariant AllReached(g, start, visited, visited')
      decreases Cost(d, n, paths)
    {
      var path, rest := paths[|paths| - 1], paths[..|paths| - 1];
      assert IsPath(g, start, path) && AllPaths(g, start, rest);
      CostPush(d, n, rest, path);
      assert paths == rest + [path];
      ghost var cycles0, visited0 := cycles', visited';
      FullPath(g, start, path);
      if path[|path| - 1] !in g {
        paths := rest;
      } else {
        var last: Item := path[|path| - 1];
        assert |g[last]| <= d;
        paths, cycles', visited' := Expand(g, start, d, n, path, rest, cycles', visited');
      }
      PendingStep(g, start, rest, path, cycles0, paths, cycles', visited');
      ReachedAtFirst(g, start, visited0);
      ReachedTwice(g, start, visited, visited0, visited');
    }
    NothingPending(g, cycles', start);
  }

  ghost predicate AllExplored(g: Graph, cycles: seq<seq<Item>>, starts: set<Item>) {
    forall s :: s in starts ==> Explored(g, cycles, s)
  }

  ghost predicate Covered(g: Graph, starts: set<Item>, v: Item) {
    exists s :: s in starts && ReachedFrom(g, s, v)
  }

  lemma ExploredGrows(g: Graph, cycles: seq<seq<Item>>, cycles': seq<seq<Item>>, start: Item)
    requires Explored(g, cycles, start) && cycles <= cycles'
    ensures Explored(g, cycles', start)
  {
    forall p | IsPath(g, start, p) ensures Closed(g, cycles', p) {
      ClosedGrows(g, cycles, cycles', p);
    }
  }

  ghost predicate AllCovered(g: Graph, starts: set<Item>, nodes: set<Item>) {
    forall v :: v in nodes ==> Covered(g, starts, v)
  }

  lemma CoveredStays(g: Graph, starts: set<Item>, start: Item, nodes: set<Item>)
    requires AllCovered(g, starts, nodes)
    ensures AllCovered(g, starts + {start}, nodes + {start})
  {
    hide IsPath;
    forall v | v in nodes + {start} ensures Covered(g, starts + {start}, v) {
      if v in nodes {
        assert Covered(g, starts, v);
        var s :| s in starts && ReachedFrom(g, s, v);
        assert s in starts + {start};
      } else {
        ReachedFromItself(g, start);
        assert start in starts + {start};
      }
    }
  }

  lemma CoveredGrows(g: Graph, starts: set<Item>, start: Item, visited: set<Item>, visited': set<Item>)
    requires AllCovered(g, starts, visited) && AllReached(g, start, visited, visited')
    ensures AllCovered(g, starts + {start}, visited')
  {
    CoveredStays(g, starts, start, visited);
    hide IsPath, ReachedFrom;
    forall v | v in visited' && v !in visited ensures Covered(g, starts + {start}, v) {
      assert ReachedFrom(g, start, v) && start in starts + {start};
    }
  }

  lemma ExploredStay(g: Graph, cycles: seq<seq<Item>>, cycles': seq<seq<Item>>, starts: set<Item>, start: Item)
    requires AllExplored(g, cycles, starts) && cycles <= cycles' && Explored(g, cycles', start)
    ensures AllExplored(g, cycles', starts + {start})
  {
    hide Explored;
    forall s | s in starts ensures Explored(g, cycles', s) {
      ExploredGrows(g, cycles, cycles', s);
    }
  }

  lemma ReachedFromItself(g: Graph, s: Item)
    ensures ReachedFrom(g, s, s)
  {
    assert IsPath(g, s, [s]);
  }

  /** A cycle through an item that is reached from an explored start. */
  lemma CoveredCycleRecorded(g: Graph, cycles: seq<seq<Item>>, starts: set<Item>, c: seq<Item>)
    requires IsCycle(g, c) && AllExplored(g, cycles, starts) && Covered(g, starts, c[0])
    ensures Recorded(cycles, c)
  {
    assert c[0] in c;
    hide IsCycle;
    var s :| s in starts && ReachedFrom(g, s, c[0]);
    var q :| IsPath(g, s, q) && q[|q| - 1] == c[0];
    ReachedCycleRecorded(g, cycles, s, q, c);
  }

  /** All simple cycles, each once whatever node it is reported from: start nodes that a former search
      has met are skipped. */
  method FindCycles(g: Graph) returns (cycles: seq<seq<Item>>)
    ensures forall k :: 0 <= k < |cycles| ==> IsCycle(g, cycles[k])
    ensures forall c :: IsCycle(g, c) ==> exists k :: 0 <= k < |cycles| && Rotation(cycles[k], c)
    ensures forall j, k :: 0 <= j < |cycles| && 0 <= k < |cycles| && Rotation(cycles[j], cycles[k]) ==> j == k
  {
    ghost var d := BoundExists(g);
    cycles := [];
    var visited: set<Item> := {};
    var todo := g.Keys;
    ghost var starts: set<Item> := {};
    hide Sound, AllCovered, AllReached, AllExplored, Explored;
    NothingExplored(g);
    assert g.Keys - todo == {};
    while todo != {}
      invariant todo <= g.Keys && Sound(g, cycles) && AllExplored(g, cycles, starts)
      invariant AllCovered(g, starts, visited) && AllCovered(g, starts, g.Keys - todo)
      decreases |todo|
    {
      ghost var x := SomeMember(todo);
      var parent :| parent in todo;
      if parent !in visited {
        ghost var cycles0, visited0 := cycles, visited;
        cycles, visited := Explore(g, d, parent, cycles, visited);
        ExploredStay(g, cycles0, cycles, starts, parent);
        CoveredGrows(g, starts, parent, visited0, visited);
        CoveredStays(g, starts, parent, g.Keys - todo);
        starts := starts + {parent};
      } else {
        CoveredOne(g, starts, visited, g.Keys - todo, parent);
      }
      assert g.Keys - (todo - {parent}) == g.Keys - todo + {parent};
      todo := todo - {parent};
    }
    assert g.Keys - todo == g.Keys;
    AllCycles(g, cycles, starts);
  }

  /** Once every node is covered all cycles are recorded. */
  lemma AllCycles(g: Graph, cycles: seq<seq<Item>>, starts: set<Item>)
    requires Sound(g, cycles) && AllExplored(g, cycles, starts) && AllCovered(g, starts, g.Keys)
    ensures forall k :: 0 <= k < |cycles| ==> IsCycle(g, cycles[k])
    ensures forall c :: IsCycle(g, c) ==> exists k :: 0 <= k < |cycles| && Rotation(cycles[k], c)
    ensures forall j, k :: 0 <= j < |cycles| && 0 <= k < |cycles| && Rotation(cycles[j], cycles[k]) ==> j == k
  {
    forall c | IsCycle(g, c) ensures Recorded(cycles, c) {
      assert c[0] in g.Keys by {
        if |c| > 1 { assert Edge(g, c[0], c[0 + 1]); }
      }
      CoveredCycleRecorded(g, cycles, starts, c);
    }
    forall j, k | 0 <= j < |cycles| && 0 <= k < |cycles| && Rotation(cycles[j], cycles[k]) ensures j == k {
      if k < j { RotationSymmetric(cycles[j], cycles[k]); }
    }
  }

  lemma NothingExplored(g: Graph)
    ensures Sound(g, []) && AllExplored(g, [], {}) && AllCovered(g, {}, {})
  {}

  lemma CoveredOne(g: Graph, starts: set<Item>, visited: set<Item>, nodes: set<Item>, v: Item)
    requires AllCovered(g, starts, visited) && AllCovered(g, starts, nodes) && v in visited
    ensures AllCovered(g, starts, nodes + {v})
  {
    hide Covered;
  }
}
