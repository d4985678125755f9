/**
 Route computation: the search from one host, the figures recorded for the best route,
 the forwarding tables, and their recomputation when a link goes down.
 */
module Routing {
  import opened Basics
  import opened NetGraph
  import opened Exploration

  type Figures = map<Node, map<Node, nat>>
  type ForwardingTable = map<Node, map<Node, seq<nat>>>

  function Figure(t: Figures, v: Node, h: Node): nat {
    if v in t && h in t[v] then t[v][h] else 0
  }

  function SetFigure(t: Figures, v: Node, h: Node, x: nat): Figures {
    t[v := (if v in t then t[v] else map[])[h := x]]
  }

  /** The figures of every other host, and of every other node, are untouched. */
  ghost predicate OthersKept(before: Figures, after: Figures, h: Node, nodes: set<Node>) {
    forall v: Node, x: Node :: x != h || v !in nodes ==> Figure(after, v, x) == Figure(before, v, x)
  }

  /** m describes one of the minimum-hop paths from h to v. */
  ghost predicate IsRoute(g: Graph, payload: nat, h: Node, v: Node, m: PathInfo) {
    IsMeasure(g, payload, m) && g.MinHop(h, v, m.path)
  }

  /** d is the least delay of a minimum-hop path, b the largest bottleneck among the paths
      with that delay, and t the transmission delay of one path with both. */
  ghost predicate BestFigures(g: Graph, payload: nat, h: Node, v: Node, d: nat, t: nat, b: nat) {
    && (exists m :: IsRoute(g, payload, h, v, m) && m.delay == d && m.bw == b && m.txDelay == t)
    && (forall m :: IsRoute(g, payload, h, v, m) ==> d < m.delay || (d == m.delay && m.bw <= b))
  }

  ghost predicate FitsUint64(g: Graph, payload: nat, h: Node, v: Node) {
    exists m :: IsRoute(g, payload, h, v, m) && m.delay <= UINT64_MAX
  }

  /** The same, for a list of candidates. */
  ghost predicate BestOf(s: seq<PathInfo>, d: nat, t: nat, b: nat) {
    && (exists k :: 0 <= k < |s| && s[k].delay == d && s[k].bw == b && s[k].txDelay == t)
    && (forall k :: 0 <= k < |s| ==> d < s[k].delay || (d == s[k].delay && s[k].bw <= b))
  }

  method SelectBest(s: seq<PathInfo>) returns (minDelay: nat, bestTxDelay: nat, maxBw: nat)
    requires forall k :: 0 <= k < |s| ==> s[k].bw > 0
    ensures (exists k :: 0 <= k < |s| && s[k].delay <= 0xffff_ffff_ffff_ffff) ==>
      BestOf(s, minDelay, bestTxDelay, maxBw)
    ensures (forall k :: 0 <= k < |s| ==> s[k].delay > 0xffff_ffff_ffff_ffff) ==>
      minDelay == 0xffff_ffff_ffff_ffff && bestTxDelay == 0 && maxBw == 0
  {
    minDelay := UINT64_MAX;
    for i := 0 to |s|
      invariant minDelay <= UINT64_MAX
      invariant forall k :: 0 <= k < i ==> minDelay <= s[k].delay
      invariant minDelay == UINT64_MAX || exists k :: 0 <= k < i && s[k].delay == minDelay
    {
      minDelay := Min(minDelay, s[i].delay);
    }
    maxBw, bestTxDelay := 0, 0;
    for i := 0 to |s|
      invariant forall k :: 0 <= k < i && s[k].delay == minDelay ==> s[k].bw <= maxBw
      invariant if maxBw == 0 then bestTxDelay == 0
                else exists k :: 0 <= k < i && s[k].delay == minDelay && s[k].bw == maxBw && s[k].txDelay == bestTxDelay
    {
      if s[i].delay == minDelay && s[i].bw > maxBw {
        maxBw := s[i].bw;
        bestTxDelay := s[i].txDelay;
      }
    }
    if k :| 0 <= k < |s| && s[k].delay <= UINT64_MAX {
      assert minDelay < UINT64_MAX || s[k].delay == minDelay;
    }
  }

  /** The hop lists are those of the network g: towards each host the last stops of the
      minimum-hop paths from it, each once; towards anything else nothing. */
  ghost predicate HopsExact(g: Graph, hops: HopTable) {
    forall v: Node, h: Node ::
      if g.IsHost(h) then
        Distinct(Hops(hops, v, h)) && forall u: Node :: u in Hops(hops, v, h) <==> g.Pred(h, v, u)
      else Hops(hops, v, h) == []
  }

  ghost predicate FiguresExact(g: Graph, payload: nat, h: Node, delay: Figures, txDelay: Figures, bw: Figures) {
    forall v: Node :: g.Reached(h, v) && FitsUint64(g, payload, h, v) ==>
      BestFigures(g, payload, h, v, Figure(delay, v, h), Figure(txDelay, v, h), Figure(bw, v, h))
  }

  /** d, t and b are the sums of delays and transmission delays, and the bottleneck, of the links of p. */
  ghost predicate PathFigures(g: Graph, payload: nat, p: Path, d: nat, t: nat, b: nat) {
    && |p| > 0 && Carried(g, p)
    && d == DelaySum(g, p, |p| - 1) && t == TxSum(g, payload, p, |p| - 1) && IsBottleneck(g, p, b)
  }

  /** The figures belong to one minimum-hop path, and no other has a smaller delay, or the same and a larger
      bottleneck. */
  ghost predicate BestSums(g: Graph, payload: nat, h: Node, v: Node, d: nat, t: nat, b: nat) {
    && (exists p :: g.MinHop(h, v, p) && PathFigures(g, payload, p, d, t, b))
    && (forall p, e: nat, u: nat, c: nat :: g.MinHop(h, v, p) && PathFigures(g, payload, p, e, u, c) ==>
          d < e || (d == e && c <= b))
  }

  ghost predicate SumFits(g: Graph, payload: nat, h: Node, v: Node) {
    exists p, d: nat, t: nat, b: nat :: g.MinHop(h, v, p) && PathFigures(g, payload, p, d, t, b) && d <= UINT64_MAX
  }

  /** What is recorded for h are sums over the links of best minimum-hop paths. */
  ghost predicate FiguresAreSums(g: Graph, payload: nat, h: Node, delay: Figures, txDelay: Figures, bw: Figures) {
    forall v: Node :: SumFits(g, payload, h, v) ==>
      BestSums(g, payload, h, v, Figure(delay, v, h), Figure(txDelay, v, h), Figure(bw, v, h))
  }

  lemma BottleneckUnique(g: Graph, p: Path, b: nat, c: nat)
    requires Carried(g, p) && IsBottleneck(g, p, b) && IsBottleneck(g, p, c)
    ensures b == c
  {}

  /** The measure of a path are its figures, and it has no others. */
  lemma MeasuredFigures(g: Graph, payload: nat, p: Path)
    requires |p| > 0 && Carried(g, p)
    ensures var m := g.Measure(payload, p);
            && IsMeasure(g, payload, m) && m.path == p
            && forall d: nat, t: nat, b: nat :: PathFigures(g, payload, p, d, t, b) <==>
                 d == m.delay && t == m.txDelay && b == m.bw
  {
    MeasureIsSum(g, payload, p);
    var m := g.Measure(payload, p);
    forall d: nat, t: nat, b: nat | PathFigures(g, payload, p, d, t, b) ensures b == m.bw {
      BottleneckUnique(g, p, b, m.bw);
    }
  }

  lemma BestAreSums(g: Graph, payload: nat, h: Node, v: Node, d: nat, t: nat, b: nat)
    requires BestFigures(g, payload, h, v, d, t, b)
    ensures BestSums(g, payload, h, v, d, t, b)
  {
    var m :| IsRoute(g, payload, h, v, m) && m.delay == d && m.bw == b && m.txDelay == t;
    MeasuredFigures(g, payload, m.path);
    assert g.MinHop(h, v, m.path) && PathFigures(g, payload, m.path, d, t, b);
    forall p, e: nat, u: nat, c: nat | g.MinHop(h, v, p) && PathFigures(g, payload, p, e, u, c)
      ensures d < e || (d == e && c <= b)
    {
      MeasuredFigures(g, payload, p);
      assert IsRoute(g, payload, h, v, g.Measure(payload, p));
    }
  }

  lemma ExactAreSums(g: Graph, payload: nat, h: Node, delay: Figures, txDelay: Figures, bw: Figures)
    requires FiguresExact(g, payload, h, delay, txDelay, bw)
    ensures FiguresAreSums(g, payload, h, delay, txDelay, bw)
  {
    hide BestFigures, BestSums, PathFigures;
    forall v: Node | SumFits(g, payload, h, v)
      ensures BestSums(g, payload, h, v, Figure(delay, v, h), Figure(txDelay, v, h), Figure(bw, v, h))
    {
      FitsIfSumFits(g, payload, h, v);
      BestAreSums(g, payload, h, v, Figure(delay, v, h), Figure(txDelay, v, h), Figure(bw, v, h));
    }
  }

  lemma FitsIfSumFits(g: Graph, payload: nat, h: Node, v: Node)
    requires SumFits(g, payload, h, v)
    ensures g.Reached(h, v) && FitsUint64(g, payload, h, v)
  {
    var p, d: nat, t: nat, b: nat :| g.MinHop(h, v, p) && PathFigures(g, payload, p, d, t, b) && d <= UINT64_MAX;
    MeasuredFigures(g, payload, p);
    assert IsRoute(g, payload, h, v, g.Measure(payload, p));
  }

  /** The figures recorded for some nodes pass the test `ok`. */
  ghost predicate FiguresPass(ok: (Node, nat, nat, nat) -> bool, h: Node, nodes: set<Node>, d: Figures, t: Figures,
                              b: Figures) {
    forall v: Node :: v in nodes ==> ok(v, Figure(d, v, h), Figure(t, v, h), Figure(b, v, h))
  }

  /** Figures of other hosts, and of nodes the search did not reach, are not touched: they go stale. */
  ghost predicate FiguresKept(before: Figures, after: Figures, g: Graph, h: Node) {
    forall v: Node, x: Node :: x != h || !g.Reached(h, v) ==> Figure(after, v, x) == Figure(before, v, x)
  }

  function Entries(t: ForwardingTable, v: Node, x: Node): seq<nat> {
    if v in t && x in t[v] then t[v][x] else []
  }

  function AddEntry(t: ForwardingTable, v: Node, x: Node, port: nat): ForwardingTable {
    t[v := (if v in t then t[v] else map[])[x := Entries(t, v, x) + [port]]]
  }

  predicate Adjacent(nbr: Adjacency, v: Node, u: Node) {
    v in nbr && u in nbr[v]
  }

  /** The ports of v behind which its next hops are. */
  function Ports(nbr: Adjacency, v: Node, hops: seq<Node>): (r: seq<nat>)
    requires forall k :: 0 <= k < |hops| ==> Adjacent(nbr, v, hops[k])
    ensures |r| == |hops|
    ensures forall k :: 0 <= k < |hops| ==> Adjacent(nbr, v, hops[k]) && r[k] == nbr[v][hops[k]].idx
  {
    seq(|hops|, k requires 0 <= k < |hops| && Adjacent(nbr, v, hops[k]) => nbr[v][hops[k]].idx)
  }

  ghost predicate HopsAdjacent(nbr: Adjacency, hops: HopTable) {
    forall v: Node, x: Node, k :: 0 <= k < |Hops(hops, v, x)| ==> Adjacent(nbr, v, Hops(hops, v, x)[k])
  }

  /** The same links, up to neighbours mentioned for the first time, whose links are down. */
  ghost predicate SameLinks(before: Adjacency, after: Adjacency) {
    && (forall u, v :: u in before && v in before[u] ==> u in after && v in after[u] && after[u][v] == before[u][v])
    && (forall u, v :: u in after && v in after[u] && after[u][v].up ==> u in before && v in before[u])
  }

  lemma PositiveBw(g: Graph, payload: nat, m: PathInfo)
    requires IsMeasure(g, payload, m)
    ensures m.bw > 0
    decreases |m.path|
  {
    var p := m.path;
    if |p| > 1 {
      assert g.Carries(p[|p| - 2], p[|p| - 2 + 1]);
      var s := p[..|p| - 1];
      forall i | 0 <= i < |s| - 1 ensures g.Carries(s[i], s[i + 1]) {
        assert g.Carries(p[i], p[i + 1]);
      }
      PositiveBw(g, payload, g.Measure(payload, s));
    }
  }

  lemma RouteListed(g: Graph, payload: nat, h: Node, paths: NodePaths, v: Node, m: PathInfo)
    requires ExactPaths(g, payload, h, paths) && v in paths
    ensures IsRoute(g, payload, h, v, m) <==> m in paths[v]
  {
    var s := paths[v];
    if IsRoute(g, payload, h, v, m) {
      assert HasPath(s, m.path);
      var k :| 0 <= k < |s| && s[k].path == m.path;
      assert IsMeasure(g, payload, s[k]);
    }
    if m in s {
      var k :| 0 <= k < |s| && s[k] == m;
      assert HasPath(s, m.path) && IsMeasure(g, payload, s[k]);
    }
  }

  lemma BestListed(g: Graph, payload: nat, h: Node, paths: NodePaths, v: Node, d: nat, t: nat, b: nat)
    requires ExactPaths(g, payload, h, paths) && v in paths
    ensures BestOf(paths[v], d, t, b) <==> BestFigures(g, payload, h, v, d, t, b)
    ensures FitsUint64(g, payload, h, v) <==> exists k :: 0 <= k < |paths[v]| && paths[v][k].delay <= UINT64_MAX
  {
    hide IsRoute, ExactPaths;
    var s := paths[v];
    forall m ensures IsRoute(g, payload, h, v, m) <==> m in s {
      RouteListed(g, payload, h, paths, v, m);
    }
    forall k | 0 <= k < |s| ensures IsRoute(g, payload, h, v, s[k]) {
      assert s[k] in s;
    }
  }

  lemma ColumnGainKept(g: Graph, h: Node, before: HopTable, mid: HopTable, after: HopTable)
    requires HopsGained(g, h, before, mid) && ColumnKept(h, mid, after)
    ensures HopsGained(g, h, before, after)
  {
    forall v: Node, u: Node ensures u in Hops(after, v, h) <==> u in Hops(before, v, h) || g.Pred(h, v, u) {
      assert Hops(after, v, h) == Hops(mid, v, h);
    }
    forall v: Node | Hops(before, v, h) == [] ensures Distinct(Hops(after, v, h)) {
      assert Hops(after, v, h) == Hops(mid, v, h);
    }
  }

  lemma ColumnGainFrom(g: Graph, h: Node, before: HopTable, mid: HopTable, after: HopTable)
    requires ColumnKept(h, before, mid) && HopsGained(g, h, mid, after)
    ensures HopsGained(g, h, before, after)
  {
    forall v: Node, u: Node ensures u in Hops(after, v, h) <==> u in Hops(before, v, h) || g.Pred(h, v, u) {
      assert Hops(before, v, h) == Hops(mid, v, h);
    }
    forall v: Node | Hops(before, v, h) == [] ensures Distinct(Hops(after, v, h)) {
      assert Hops(before, v, h) == Hops(mid, v, h);
    }
  }

  lemma FiguresExactKept(g: Graph, payload: nat, h: Node, x: Node, d: Figures, t: Figures, b: Figures,
                         d': Figures, t': Figures, b': Figures)
    requires FiguresExact(g, payload, h, d, t, b) && x != h
    requires FiguresKept(d, d', g, x) && FiguresKept(t, t', g, x) && FiguresKept(b, b', g, x)
    ensures FiguresExact(g, payload, h, d', t', b')
  {
    forall v: Node | g.Reached(h, v) && FitsUint64(g, payload, h, v)
      ensures BestFigures(g, payload, h, v, Figure(d', v, h), Figure(t', v, h), Figure(b', v, h))
    {
      assert Figure(d', v, h) == Figure(d, v, h);
      assert Figure(t', v, h) == Figure(t, v, h);
      assert Figure(b', v, h) == Figure(b, v, h);
    }
  }

  ghost predicate RoutesUpTo(g: Graph, payload: nat, i: nat, before: HopTable, hops: HopTable,
                             d: Figures, t: Figures, b: Figures) {
    && (forall h :: h < i && g.IsHost(h) ==> HopsGained(g, h, before, hops) && FiguresExact(g, payload, h, d, t, b))
    && (forall h :: h >= i || !g.IsHost(h) ==> ColumnKept(h, before, hops))
  }

  lemma RoutesStart(g: Graph, payload: nat, hops: HopTable, d: Figures, t: Figures, b: Figures)
    ensures RoutesUpTo(g, payload, 0, hops, hops, d, t, b)
  {}

  lemma RoutesSkip(g: Graph, payload: nat, i: nat, before: HopTable, hops: HopTable, d: Figures, t: Figures, b: Figures)
    requires RoutesUpTo(g, payload, i, before, hops, d, t, b) && !g.IsHost(i)
    ensures RoutesUpTo(g, payload, i + 1, before, hops, d, t, b)
  {}

  lemma RoutesStep(g: Graph, payload: nat, i: nat, before: HopTable, hops: HopTable, hops': HopTable,
                   d: Figures, t: Figures, b: Figures, d': Figures, t': Figures, b': Figures)
    requires RoutesUpTo(g, payload, i, before, hops, d, t, b) && g.IsHost(i)
    requires HopsGained(g, i, hops, hops') && forall x :: x != i ==> ColumnKept(x, hops, hops')
    requires FiguresExact(g, payload, i, d', t', b')
    requires FiguresKept(d, d', g, i) && FiguresKept(t, t', g, i) && FiguresKept(b, b', g, i)
    ensures RoutesUpTo(g, payload, i + 1, before, hops', d', t', b')
  {
    forall h | h < i && g.IsHost(h)
      ensures HopsGained(g, h, before, hops') && FiguresExact(g, payload, h, d', t', b')
    {
      ColumnGainKept(g, h, before, hops, hops');
      FiguresExactKept(g, payload, h, i, d, t, b, d', t', b');
    }
    ColumnGainFrom(g, i, before, hops, hops');
    forall h | h >= i + 1 || !g.IsHost(h) ensures ColumnKept(h, before, hops') {
      forall v: Node ensures Hops(hops', v, h) == Hops(before, v, h) {
        assert ColumnKept(h, before, hops) && ColumnKept(h, hops, hops');
      }
    }
  }

  lemma RoutesDone(g: Graph, payload: nat, before: HopTable, hops: HopTable, d: Figures, t: Figures, b: Figures)
    requires RoutesUpTo(g, payload, |g.kind|, before, hops, d, t, b)
    ensures forall h :: g.IsHost(h) ==> HopsGained(g, h, before, hops) && FiguresExact(g, payload, h, d, t, b)
    ensures forall h :: !g.IsHost(h) ==> ColumnKept(h, before, hops)
    ensures before == map[] ==> HopsExact(g, hops)
  {
    if before == map[] {
      forall v: Node, h: Node ensures
          if g.IsHost(h) then
            Distinct(Hops(hops, v, h)) && forall u: Node :: u in Hops(hops, v, h) <==> g.Pred(h, v, u)
          else Hops(hops, v, h) == []
      {
        assert Hops(before, v, h) == [];
        if g.IsHost(h) {
          assert HopsGained(g, h, before, hops);
        } else {
          assert ColumnKept(h, before, hops);
        }
      }
    }
  }

  lemma RecordStep(ok: (Node, nat, nat, nat) -> bool, h: Node, nodes: set<Node>, node: Node,
                   d: Figures, t: Figures, b: Figures, x: nat, y: nat, z: nat)
    requires FiguresPass(ok, h, nodes - {node}, d, t, b) && ok(node, x, y, z)
    ensures FiguresPass(ok, h, nodes, SetFigure(d, node, h, x), SetFigure(t, node, h, y), SetFigure(b, node, h, z))
  {
    var d', t', b' := SetFigure(d, node, h, x), SetFigure(t, node, h, y), SetFigure(b, node, h, z);
    forall v: Node | v in nodes ensures ok(v, Figure(d', v, h), Figure(t', v, h), Figure(b', v, h)) {
      if v != node {
        assert v in nodes - {node};
      }
    }
  }

  lemma NoneRecorded(ok: (Node, nat, nat, nat) -> bool, h: Node, nodes: set<Node>, d: Figures, t: Figures, b: Figures)
    ensures FiguresPass(ok, h, nodes - nodes, d, t, b)
    ensures OthersKept(d, d, h, nodes) && OthersKept(t, t, h, nodes) && OthersKept(b, b, h, nodes)
  {}

  lemma PassIsExact(g: Graph, payload: nat, h: Node, paths: NodePaths, ok: (Node, nat, nat, nat) -> bool,
                    d: Figures, t: Figures, b: Figures)
    requires ExactPaths(g, payload, h, paths) && FiguresPass(ok, h, paths.Keys, d, t, b)
    requires forall v, x, y, z :: ok(v, x, y, z) ==> FitsUint64(g, payload, h, v) ==>
             BestFigures(g, payload, h, v, x, y, z)
    ensures FiguresExact(g, payload, h, d, t, b)
  {}

  lemma BandwidthsPositive(g: Graph, payload: nat, h: Node, paths: NodePaths, v: Node)
    requires ExactPaths(g, payload, h, paths) && v in paths
    ensures forall k :: 0 <= k < |paths[v]| ==> paths[v][k].bw > 0
  {
    forall k | 0 <= k < |paths[v]| ensures paths[v][k].bw > 0 {
      assert IsMeasure(g, payload, paths[v][k]);
      PositiveBw(g, payload, paths[v][k]);
    }
  }

  lemma OthersKeptStep(before: Figures, after: Figures, h: Node, nodes: set<Node>, node: Node, x: nat)
    requires OthersKept(before, after, h, nodes) && node in nodes
    ensures OthersKept(before, SetFigure(after, node, h, x), h, nodes)
  {}

  lemma SameLinksValid(g: Graph, nbr: Adjacency)
    requires g.Valid() && SameLinks(g.nbr, nbr)
    ensures Graph(g.kind, nbr).Valid()
    ensures forall u: Node, v: Node :: Graph(g.kind, nbr).Up(u, v) <==> g.Up(u, v)
  {
    var g' := Graph(g.kind, nbr);
    forall u: Node, v: Node ensures g'.Up(u, v) <==> g.Up(u, v) {}
    forall u: Node, v: Node | g'.Up(u, v)
      ensures 0 <= u < |g.kind| && 0 <= v < |g.kind| && g'.Carries(u, v) && g'.Up(v, u)
    {
      assert g.Up(u, v) && g.Up(v, u) && g.Carries(u, v);
    }
  }

  lemma WithoutValid(g: Graph, a: Node, b: Node)
    requires g.Valid()
    ensures g.Without(a, b).Valid()
    ensures forall u: Node, v: Node ::
      g.Without(a, b).Up(u, v) <==> g.Up(u, v) && !(u == a && v == b) && !(u == b && v == a)
    ensures forall u: Node, v: Node :: g.Without(a, b).Up(u, v) ==> g.Without(a, b).nbr[u][v] == g.nbr[u][v]
  {
    var g' := g.Without(a, b);
    forall u: Node, v: Node
      ensures g'.Up(u, v) <==> g.Up(u, v) && !(u == a && v == b) && !(u == b && v == a)
      ensures g'.Up(u, v) ==> g'.nbr[u][v] == g.nbr[u][v] && g.Carries(u, v)
    {}
  }

  lemma ExactHopsAdjacent(g: Graph, hops: HopTable)
    requires g.Valid() && HopsExact(g, hops)
    ensures HopsAdjacent(g.nbr, hops)
    ensures forall v: Node, h: Node, u: Node :: u in Hops(hops, v, h) ==> g.Up(u, v) && g.Up(v, u)
  {
    forall v: Node, h: Node, u: Node | u in Hops(hops, v, h) ensures g.Up(u, v) && g.Up(v, u) {
      assert g.Pred(h, v, u);
      var p :| g.MinHop(h, v, p) && |p| > 1 && p[|p| - 2] == u;
      MinHopInit(g, h, v, p);
    }
    forall v: Node, h: Node, k | 0 <= k < |Hops(hops, v, h)| ensures Adjacent(g.nbr, v, Hops(hops, v, h)[k]) {
      assert Hops(hops, v, h)[k] in Hops(hops, v, h);
      assert g.Up(v, Hops(hops, v, h)[k]);
    }
  }

  /** g' is g after the link between a and b went down: what `TakeDownLink` does to the network. */
  ghost predicate Downed(g: Graph, a: Node, b: Node, g': Graph) {
    && g'.kind == g.kind
    && (forall u: Node, v: Node :: g'.Up(u, v) <==> g.Up(u, v) && !(u == a && v == b) && !(u == b && v == a))
    && (forall u: Node, v: Node :: g'.Up(u, v) ==> g'.nbr[u][v] == g.nbr[u][v])
  }

  /** A measured path is its measured beginning, stretched by the last link. */
  lemma MeasureInit(g: Graph, payload: nat, m: PathInfo) returns (s: PathInfo)
    requires IsMeasure(g, payload, m) && |m.path| > 1
    ensures IsMeasure(g, payload, s) && s.path == m.path[..|m.path| - 1]
    ensures g.Carries(m.path[|m.path| - 2], m.path[|m.path| - 1])
    ensures m == Stretch(payload, s, m.path[|m.path| - 1], g.nbr[m.path[|m.path| - 2]][m.path[|m.path| - 1]])
  {
    var p := m.path;
    assert g.Carries(p[|p| - 2], p[|p| - 2 + 1]);
    var q := p[..|p| - 1];
    forall i | 0 <= i < |q| - 1 ensures g.Carries(q[i], q[i + 1]) {
      assert g.Carries(p[i], p[i + 1]);
    }
    s := g.Measure(payload, q);
  }

  lemma SameUpSamePaths(g: Graph, g': Graph, h: Node, v: Node, p: Path)
    requires g.kind == g'.kind && forall u: Node, x: Node :: g.Up(u, x) <==> g'.Up(u, x)
    ensures g.MinHop(h, v, p) <==> g'.MinHop(h, v, p)
  {
    forall q ensures g.IsPathTo(h, v, q) <==> g'.IsPathTo(h, v, q) {
      SameUpSamePath(g, g', h, q);
      SameUpSamePath(g', g, h, q);
    }
  }

  lemma SameUpSamePath(g: Graph, g': Graph, h: Node, p: Path)
    requires g.kind == g'.kind && forall u: Node, x: Node :: g.Up(u, x) <==> g'.Up(u, x)
    ensures g.IsPath(h, p) ==> g'.IsPath(h, p)
  {
    if g.IsPath(h, p) {
      forall i | 0 <= i < |p| - 1 ensures g'.Up(p[i], p[i + 1]) {
        assert g.Up(p[i], p[i + 1]);
      }
      forall i | 0 < i < |p| - 1 ensures g'.IsSwitch(p[i]) {
        assert g.IsSwitch(p[i]);
      }
    }
  }

  // ---- The same up links, with the same figures: the same routes ----

  ghost predicate SameNet(g: Graph, g': Graph) {
    && g'.kind == g.kind
    && (forall u: Node, v: Node :: g'.Up(u, v) <==> g.Up(u, v))
    && (forall u: Node, v: Node :: g'.Up(u, v) ==> g'.nbr[u][v] == g.nbr[u][v])
  }

  lemma {:induction false} SameMeasure(g: Graph, g': Graph, payload: nat, m: PathInfo)
    requires SameNet(g, g') && IsMeasure(g, payload, m)
    ensures IsMeasure(g', payload, m)
    decreases |m.path|
  {
    forall i | 0 <= i < |m.path| - 1 ensures g'.Carries(m.path[i], m.path[i + 1]) {
      assert g.Carries(m.path[i], m.path[i + 1]);
    }
    if |m.path| > 1 {
      var s := MeasureInit(g, payload, m);
      SameMeasure(g, g', payload, s);
    }
  }

  lemma SameNetSameRoutes(g: Graph, g': Graph, payload: nat, h: Node, hops: HopTable, d: Figures, t: Figures,
                          b: Figures)
    requires SameNet(g, g')
    ensures HopsExact(g, hops) ==> HopsExact(g', hops)
    ensures FiguresExact(g, payload, h, d, t, b) ==> FiguresExact(g', payload, h, d, t, b)
  {
    forall h, v, p ensures g.MinHop(h, v, p) <==> g'.MinHop(h, v, p) {
      SameUpSamePaths(g, g', h, v, p);
    }
    forall v, m ensures IsRoute(g, payload, h, v, m) <==> IsRoute(g', payload, h, v, m) {
      if IsRoute(g, payload, h, v, m) { SameMeasure(g, g', payload, m); }
      if IsRoute(g', payload, h, v, m) { SameMeasure(g', g, payload, m); }
    }
    SameHopsExact(g, g', hops);
    SameFiguresExact(g, g', payload, h, d, t, b);
  }

  lemma SameHopsExact(g: Graph, g': Graph, hops: HopTable)
    requires SameNet(g, g') && forall h, v, p :: g.MinHop(h, v, p) <==> g'.MinHop(h, v, p)
    ensures HopsExact(g, hops) ==> HopsExact(g', hops)
  {
    forall h, v, u ensures g.Pred(h, v, u) <==> g'.Pred(h, v, u) {}
    forall h ensures g.IsHost(h) <==> g'.IsHost(h) {}
  }

  lemma SameFiguresExact(g: Graph, g': Graph, payload: nat, h: Node, d: Figures, t: Figures, b: Figures)
    requires forall v, m :: IsRoute(g, payload, h, v, m) <==> IsRoute(g', payload, h, v, m)
    requires forall h, v, p :: g.MinHop(h, v, p) <==> g'.MinHop(h, v, p)
    ensures FiguresExact(g, payload, h, d, t, b) ==> FiguresExact(g', payload, h, d, t, b)
  {
    hide IsRoute, Graph.MinHop;
    forall v: Node ensures g.Reached(h, v) <==> g'.Reached(h, v) {}
    forall v: Node ensures FitsUint64(g, payload, h, v) <==> FitsUint64(g', payload, h, v) {}
    forall v: Node, x: nat, y: nat, z: nat
      ensures BestFigures(g, payload, h, v, x, y, z) <==> BestFigures(g', payload, h, v, x, y, z) {}
  }

  class Network {
    const kind: seq<Kind>
    const payload: nat
    var nbr2if: Adjacency
    var nextHop: HopTable
    var pairDelay: Figures
    var pairTxDelay: Figures
    var pairBw: Figures
    var table: ForwardingTable

    ghost function G(): Graph
      reads this`nbr2if
    {
      Graph(kind, nbr2if)
    }

    /** The hop lists, the forwarding tables and the recorded figures are those of the present network. */
    ghost predicate Consistent()
      reads this
    {
      && G().Valid()
      && HopsExact(G(), nextHop) && HopsAdjacent(nbr2if, nextHop)
      && (forall v: Node, x: Node :: 0 <= v < |kind| ==> Entries(table, v, x) == Ports(nbr2if, v, Hops(nextHop, v, x)))
      && (forall h :: G().IsHost(h) ==> FiguresExact(G(), payload, h, pairDelay, pairTxDelay, pairBw))
    }

    constructor (kind: seq<Kind>, payload: nat, nbr2if: Adjacency)
      ensures G() == Graph(kind, nbr2if) && this.payload == payload
      ensures nextHop == map[] && table == map[]
      ensures pairDelay == map[] && pairTxDelay == map[] && pairBw == map[]
    {
      this.kind := kind;
      this.payload := payload;
      this.nbr2if := nbr2if;
      nextHop, table := map[], map[];
      pairDelay, pairTxDelay, pairBw := map[], map[], map[];
    }

    /** `now` reaches its neighbour `next` over an up link: every path to `now` is continued. */
    method VisitNeighbour(host: Node, now: Node, next: Node, q: seq<Node>, dis: map<Node, nat>, paths: NodePaths)
      returns (q': seq<Node>, dis': map<Node, nat>, paths': NodePaths)
      requires now in dis && now in paths && |paths[now]| > 0 && paths.Keys == dis.Keys
      requires G().Valid() && G().Carries(now, next)
      modifies this`nextHop
      ensures q' == VisitQueue(G(), next, dis, q)
      ensures dis' == VisitDis(G(), now, next, dis)
      ensures paths' == VisitPaths(G(), payload, now, next, dis, paths)
      ensures nextHop == VisitHops(host, now, next, dis, old(nextHop))
    {
      q', dis', paths' := q, dis, paths;
      var d, link := dis[now], nbr2if[now][next];
      for k := 0 to |paths[now]|
        invariant k == 0 ==> q' == q && dis' == dis && paths' == paths && nextHop == old(nextHop)
        invariant k > 0 ==> q' == VisitQueue(G(), next, dis, q) && dis' == VisitDis(G(), now, next, dis)
        invariant k > 0 ==> nextHop == VisitHops(host, now, next, dis, old(nextHop))
        invariant k > 0 && Takes(now, next, dis) ==>
          paths' == paths[next := PathsAt(paths, next) + Continued(payload, paths[now][..k], next, link)]
        invariant k > 0 && !Takes(now, next, dis) ==> paths' == paths
      {
        assert next == now ==> !Takes(now, next, dis);
        var curPath := paths'[now][k];
        var newPath := Stretch(payload, curPath, next, link);
        ghost var sofar := Continued(payload, paths[now][..k], next, link);
        assert Continued(payload, paths[now][..k + 1], next, link) == sofar + [newPath];
        assert PathsAt(paths, next) + sofar + [newPath] == PathsAt(paths, next) + (sofar + [newPath]);
        assert k == 0 ==> PathsAt(paths, next) + sofar == PathsAt(paths, next);
        if next !in dis' {
          dis' := dis'[next := d + 1];
          paths' := paths'[next := PathsAt(paths', next) + [newPath]];
          if kind[next] == Switch || kind[next] == DciSwitch {
            q' := q' + [next];
          }
          nextHop := AddHop(nextHop, next, host, now);
        } else if d + 1 == dis'[next] {
          assert k > 0 ==> paths' == paths[next := PathsAt(paths, next) + sofar];
          paths' := paths'[next := PathsAt(paths', next) + [newPath]];
          var already_added := now in Hops(nextHop, next, host);
          if !already_added {
            nextHop := AddHop(nextHop, next, host, now);
          }
        }
      }
      assert paths[now][..|paths[now]|] == paths[now];
    }

    /** `q[i]` is expanded: its neighbours are visited, in whatever order the map yields them. */
    method ExpandNode(host: Node, i: nat, q: seq<Node>, dis: map<Node, nat>, paths: NodePaths, ghost before: HopTable)
      returns (q': seq<Node>, dis': map<Node, nat>, paths': NodePaths)
      requires G().Valid() && SearchInv(G(), host, payload, q, i, {}, dis, paths, before, nextHop) && i < |q|
      modifies this`nextHop
      ensures SearchInv(G(), host, payload, q', i + 1, {}, dis', paths', before, nextHop)
      ensures q <= q'
    {
      q', dis', paths' := q, dis, paths;
      var now := q[i];
      var remaining := if now in nbr2if then nbr2if[now].Keys else {};
      ghost var done: set<Node> := {};
      hide HopsInv, EdgeInv, QueueInv, PathsInv, SearchInv, Graph.Valid;
      while remaining != {}
        invariant done + remaining == (if now in nbr2if then nbr2if[now].Keys else {}) && done !! remaining
        invariant SearchInv(G(), host, payload, q', i, done, dis', paths', before, nextHop)
        invariant q <= q' && i < |q| && q[i] == now
      {
        ghost var some := SomeMember(remaining);
        var next :| next in remaining;
        remaining := remaining - {next};
        if !nbr2if[now][next].up {
          SkipKeepsAll(G(), host, payload, q', i, done, dis', paths', before, nextHop, next);
        } else {
          VisitAllowed(G(), host, payload, q', i, done, dis', paths', before, nextHop, next);
          VisitKeepsAll(G(), host, payload, q', i, done, dis', paths', before, nextHop, next);
          q', dis', paths' := VisitNeighbour(host, now, next, q', dis', paths');
        }
        done := done + {next};
      }
      AdvanceKeepsAll(G(), host, payload, q', i, done, dis', paths', before, nextHop);
    }

    /** The breadth-first search from a host. */
    method EnumeratePaths(host: Node) returns (paths: NodePaths)
      requires G().Valid()
      modifies this`nextHop
      ensures ExactPaths(G(), payload, host, paths)
      ensures HopsGained(G(), host, old(nextHop), nextHop)
      ensures forall x :: x != host ==> ColumnKept(x, old(nextHop), nextHop)
    {
      hide SearchInv, ExactPaths, HopsGained, ColumnKept, Graph.Valid;
      var q, dis := [host], map[host := 0];
      paths := map[host := [PathInfo(0, 0, UINT64_MAX, [host])]];
      StartInv(G(), host, payload, nextHop);
      var i := 0;
      ghost var expanded: set<Node> := {};
      while i < |q|
        invariant i <= |q| && SearchInv(G(), host, payload, q, i, {}, dis, paths, old(nextHop), nextHop)
        invariant forall v :: v in expanded ==> exists j :: 0 <= j < i && q[j] == v
        decreases {host} + Ids(|kind|) - expanded
      {
        ghost var now := q[i];
        QueueNodes(G(), host, payload, q, i, dis, paths, old(nextHop), nextHop);
        q, dis, paths := ExpandNode(host, i, q, dis, paths, old(nextHop));
        expanded := expanded + {now};
        i := i + 1;
      }
      SearchAtEnd(G(), host, payload, q, dis, paths, old(nextHop), nextHop);
    }

    /** For every node the search reached, the best route's figures are recorded. */
    method RecordBest(host: Node, paths: NodePaths)
      requires ExactPaths(G(), payload, host, paths)
      modifies this`pairDelay, this`pairTxDelay, this`pairBw
      ensures FiguresExact(G(), payload, host, pairDelay, pairTxDelay, pairBw)
      ensures FiguresAreSums(G(), payload, host, pairDelay, pairTxDelay, pairBw)
      ensures OthersKept(old(pairDelay), pairDelay, host, paths.Keys)
      ensures OthersKept(old(pairTxDelay), pairTxDelay, host, paths.Keys)
      ensures OthersKept(old(pairBw), pairBw, host, paths.Keys)
    {
      hide FitsUint64, BestFigures, IsRoute, FiguresPass, OthersKept, ExactPaths, BestOf;
      var remaining := paths.Keys;
      ghost var g := G();
      ghost var ok := (v: Node, x: nat, y: nat, z: nat) =>
        FitsUint64(g, payload, host, v) ==> BestFigures(g, payload, host, v, x, y, z);
      NoneRecorded(ok, host, paths.Keys, pairDelay, pairTxDelay, pairBw);
      while remaining != {}
        invariant remaining <= paths.Keys
        invariant FiguresPass(ok, host, paths.Keys - remaining, pairDelay, pairTxDelay, pairBw)
        invariant OthersKept(old(pairDelay), pairDelay, host, paths.Keys)
        invariant OthersKept(old(pairTxDelay), pairTxDelay, host, paths.Keys)
        invariant OthersKept(old(pairBw), pairBw, host, paths.Keys)
      {
        ghost var some := SomeMember(remaining);
        var node :| node in remaining;
        ghost var recorded := paths.Keys - remaining;
        remaining := remaining - {node};
        BandwidthsPositive(g, payload, host, paths, node);
        var minDelay, bestTxDelay, maxBw := SelectBest(paths[node]);
        BestListed(g, payload, host, paths, node, minDelay, bestTxDelay, maxBw);
        OthersKeptStep(old(pairDelay), pairDelay, host, paths.Keys, node, minDelay);
        OthersKeptStep(old(pairTxDelay), pairTxDelay, host, paths.Keys, node, bestTxDelay);
        OthersKeptStep(old(pairBw), pairBw, host, paths.Keys, node, maxBw);
        assert paths.Keys - remaining - {node} == recorded;
        RecordStep(ok, host, paths.Keys - remaining, node, pairDelay, pairTxDelay, pairBw, minDelay, bestTxDelay,
            maxBw);
        pairDelay := SetFigure(pairDelay, node, host, minDelay);
        pairTxDelay := SetFigure(pairTxDelay, node, host, bestTxDelay);
        pairBw := SetFigure(pairBw, node, host, maxBw);
      }
      assert paths.Keys - remaining == paths.Keys;
      PassIsExact(g, payload, host, paths, ok, pairDelay, pairTxDelay, pairBw);
      ExactAreSums(g, payload, host, pairDelay, pairTxDelay, pairBw);
    }

    method CalculateRoute(host: Node)
      requires G().Valid()
      modifies this`nextHop, this`pairDelay, this`pairTxDelay, this`pairBw
      ensures HopsGained(G(), host, old(nextHop), nextHop)
      ensures forall x :: x != host ==> ColumnKept(x, old(nextHop), nextHop)
      ensures FiguresExact(G(), payload, host, pairDelay, pairTxDelay, pairBw)
      ensures FiguresAreSums(G(), payload, host, pairDelay, pairTxDelay, pairBw)
      ensures FiguresKept(old(pairDelay), pairDelay, G(), host)
      ensures FiguresKept(old(pairTxDelay), pairTxDelay, G(), host)
      ensures FiguresKept(old(pairBw), pairBw, G(), host)
    {
      var paths := EnumeratePaths(host);
      RecordBest(host, paths);
    }

    /** One search per host, in id order. */
    method CalculateRoutes()
      requires G().Valid()
      modifies this`nextHop, this`pairDelay, this`pairTxDelay, this`pairBw
      ensures forall h :: G().IsHost(h) ==> HopsGained(G(), h, old(nextHop), nextHop)
      ensures forall h :: !G().IsHost(h) ==> ColumnKept(h, old(nextHop), nextHop)
      ensures forall h :: G().IsHost(h) ==> FiguresExact(G(), payload, h, pairDelay, pairTxDelay, pairBw)
      ensures forall h :: G().IsHost(h) ==> FiguresAreSums(G(), payload, h, pairDelay, pairTxDelay, pairBw)
      ensures old(nextHop) == map[] ==> HopsExact(G(), nextHop)
    {
      hide RoutesUpTo, HopsGained, ColumnKept, FiguresExact, FiguresKept, HopsExact, Graph.Valid;
      RoutesStart(G(), payload, nextHop, pairDelay, pairTxDelay, pairBw);
      for i := 0 to |kind|
        invariant RoutesUpTo(G(), payload, i, old(nextHop), nextHop, pairDelay, pairTxDelay, pairBw)
      {
        if kind[i] == Host {
          ghost var hops, delay, tx, bw := nextHop, pairDelay, pairTxDelay, pairBw;
          CalculateRoute(i);
          RoutesStep(G(), payload, i, old(nextHop), hops, nextHop, delay, tx, bw, pairDelay, pairTxDelay, pairBw);
        } else {
          RoutesSkip(G(), payload, i, old(nextHop), nextHop, pairDelay, pairTxDelay, pairBw);
        }
      }
      RoutesDone(G(), payload, old(nextHop), nextHop, pairDelay, pairTxDelay, pairBw);
      forall h | G().IsHost(h) ensures FiguresAreSums(G(), payload, h, pairDelay, pairTxDelay, pairBw) {
        ExactAreSums(G(), payload, h, pairDelay, pairTxDelay, pairBw);
      }
    }

    /** The hop lists become table entries: for each hop, the interface to it. */
    method SetRoutingEntries()
      requires HopsAdjacent(nbr2if, nextHop)
      modifies this`table
      ensures forall v: Node, x: Node, k: nat :: k < |Hops(nextHop, v, x)| ==>
        && |Entries(table, v, x)| == |Entries(old(table), v, x)| + |Hops(nextHop, v, x)|
        && Adjacent(nbr2if, v, Hops(nextHop, v, x)[k])
        && Entries(table, v, x)[|Entries(old(table), v, x)| + k] == nbr2if[v][Hops(nextHop, v, x)[k]].idx
      ensures forall v: Node, x: Node ::
        Entries(table, v, x) == Entries(old(table), v, x) + Ports(nbr2if, v, Hops(nextHop, v, x))
    {
      var nodes := nextHop.Keys;
      while nodes != {}
        invariant nodes <= nextHop.Keys
        invariant forall v: Node, x: Node :: v !in nodes ==>
          Entries(table, v, x) == Entries(old(table), v, x) + Ports(nbr2if, v, Hops(nextHop, v, x))
        invariant forall v: Node, x: Node :: v in nodes ==> Entries(table, v, x) == Entries(old(table), v, x)
      {
        ghost var some := SomeMember(nodes);
        var node :| node in nodes;
        nodes := nodes - {node};
        SetEntriesOf(node);
      }
    }

    method SetEntriesOf(node: Node)
      requires HopsAdjacent(nbr2if, nextHop) && node in nextHop
      modifies this`table
      ensures forall x: Node ::
        Entries(table, node, x) == Entries(old(table), node, x) + Ports(nbr2if, node, Hops(nextHop, node, x))
      ensures forall v: Node, x: Node :: v != node ==> Entries(table, v, x) == Entries(old(table), v, x)
    {
      var dsts := nextHop[node].Keys;
      while dsts != {}
        invariant dsts <= nextHop[node].Keys
        invariant forall x: Node :: x !in dsts ==>
          Entries(table, node, x) == Entries(old(table), node, x) + Ports(nbr2if, node, Hops(nextHop, node, x))
        invariant forall x: Node :: x in dsts ==> Entries(table, node, x) == Entries(old(table), node, x)
        invariant forall v: Node, x: Node :: v != node ==> Entries(table, v, x) == Entries(old(table), v, x)
      {
        ghost var some := SomeMember(dsts);
        var dst :| dst in dsts;
        dsts := dsts - {dst};
        SetEntriesTowards(node, dst);
      }
    }

    method SetEntriesTowards(node: Node, dst: Node)
      requires HopsAdjacent(nbr2if, nextHop)
      modifies this`table
      ensures Entries(table, node, dst)
              == Entries(old(table), node, dst) + Ports(nbr2if, node, Hops(nextHop, node, dst))
      ensures forall v: Node, x: Node :: v != node || x != dst ==> Entries(table, v, x) == Entries(old(table), v, x)
    {
      var nexts := Hops(nextHop, node, dst);
      for k := 0 to |nexts|
        invariant Entries(table, node, dst) == Entries(old(table), node, dst) + Ports(nbr2if, node, nexts)[..k]
        invariant forall v: Node, x: Node :: v != node || x != dst ==> Entries(table, v, x) == Entries(old(table), v, x)
      {
        assert Adjacent(nbr2if, node, nexts[k]);
        table := AddEntry(table, node, dst, nbr2if[node][nexts[k]].idx);
      }
    }

    /** The link between a and b goes down, and all routes are computed anew.
        A link that is absent or already down changes nothing that matters. */
    method TakeDownLink(a: Node, b: Node)
      requires G().Valid()
      modifies this
      ensures Downed(old(G()), a, b, G()) && G().Valid()
      ensures old(G()).Up(a, b) || old(Consistent()) ==> Consistent()
      ensures !old(G()).Up(a, b) ==>
        && SameLinks(old(nbr2if), nbr2if) && nextHop == old(nextHop) && table == old(table)
        && pairDelay == old(pairDelay) && pairTxDelay == old(pairTxDelay) && pairBw == old(pairBw)
    {
      if a !in nbr2if || b !in nbr2if[a] {
        // reading an absent entry creates a link that is down
        var delay: nat, bw: nat := *, *;
        nbr2if := nbr2if[a := (if a in nbr2if then nbr2if[a] else map[])[b := Interface(0, false, delay, bw)]];
        SameLinksValid(old(G()), nbr2if);
        if old(Consistent()) { StillConsistent(old(nbr2if)); }
        return;
      }
      if !nbr2if[a][b].up {
        return;
      }
      assert G().Up(b, a);
      WithoutValid(G(), a, b);
      nbr2if := nbr2if[a := nbr2if[a][b := nbr2if[a][b].(up := false)]];
      nbr2if := nbr2if[b := nbr2if[b][a := nbr2if[b][a].(up := false)]];
      assert nbr2if == Disable(Disable(old(nbr2if), a, b), b, a);
      Reroute();
    }

    /** The part of `TakeDownLink` after the link is marked down. */
    method Reroute()
      requires G().Valid()
      modifies this`nextHop, this`pairDelay, this`pairTxDelay, this`pairBw, this`table
      ensures Consistent()
    {
      hide HopsExact, FiguresExact, HopsGained, ColumnKept, Graph.Valid;
      nextHop := map[];
      CalculateRoutes();
      ExactHopsAdjacent(G(), nextHop);
      ClearTables();
      ghost var cleared := table;
      SetRoutingEntries();
      forall v: Node, x: Node | 0 <= v < |kind| ensures Entries(table, v, x) == Ports(nbr2if, v, Hops(nextHop, v, x)) {
        assert Entries(cleared, v, x) == [];
      }
    }

    /** The routing set-up of the script, with nothing computed before. */
    method SetUpRouting()
      requires G().Valid() && nextHop == map[] && table == map[]
      modifies this`nextHop, this`pairDelay, this`pairTxDelay, this`pairBw, this`table
      ensures Consistent()
    {
      hide HopsExact, FiguresExact, HopsGained, ColumnKept, Graph.Valid, Hops;
      CalculateRoutes();
      ExactHopsAdjacent(G(), nextHop);
      assert table == map[];
      SetRoutingEntries();
      forall v: Node, x: Node | 0 <= v < |kind| ensures Entries(table, v, x) == Ports(nbr2if, v, Hops(nextHop, v, x)) {
        assert Entries(map[], v, x) == [];
      }
    }

    /** Consistency speaks of up links only. */
    lemma StillConsistent(before: Adjacency)
      requires Graph(kind, before).Valid() && G().Valid() && SameLinks(before, nbr2if)
      requires HopsExact(Graph(kind, before), nextHop) && HopsAdjacent(before, nextHop)
      requires forall v: Node, x: Node :: 0 <= v < |kind| ==>
        Entries(table, v, x) == Ports(before, v, Hops(nextHop, v, x))
      requires forall h :: Graph(kind, before).IsHost(h) ==>
        FiguresExact(Graph(kind, before), payload, h, pairDelay, pairTxDelay, pairBw)
      ensures Consistent()
    {
      var g := Graph(kind, before);
      assert SameNet(g, G());
      SameNetSameRoutes(g, G(), payload, 0, nextHop, pairDelay, pairTxDelay, pairBw);
      forall h | G().IsHost(h) ensures FiguresExact(G(), payload, h, pairDelay, pairTxDelay, pairBw) {
        assert g.IsHost(h);
        SameNetSameRoutes(g, G(), payload, h, nextHop, pairDelay, pairTxDelay, pairBw);
      }
      forall v: Node, x: Node, k | 0 <= k < |Hops(nextHop, v, x)|
        ensures Adjacent(nbr2if, v, Hops(nextHop, v, x)[k])
        ensures nbr2if[v][Hops(nextHop, v, x)[k]].idx == before[v][Hops(nextHop, v, x)[k]].idx
      {
        assert Adjacent(before, v, Hops(nextHop, v, x)[k]);
      }
      forall v: Node, x: Node | 0 <= v < |kind| ensures Entries(table, v, x) == Ports(nbr2if, v, Hops(nextHop, v, x)) {
        assert Ports(before, v, Hops(nextHop, v, x)) == Ports(nbr2if, v, Hops(nextHop, v, x));
      }
    }

    method ClearTables()
      modifies this`table
      ensures forall v: Node, x: Node :: 0 <= v < |kind| ==> Entries(table, v, x) == []
    {
      for i := 0 to |kind|
        invariant forall v: Node :: 0 <= v < i ==> v !in table
      {
        table := table - {i};
      }
    }
  }
}
