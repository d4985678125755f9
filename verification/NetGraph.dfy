/**
 The network of the simulation script, and what a route in it is.

 A node is its id; `kind` is the node type the topology file gives it, and
 `nbr` is the map from a node and one of its neighbours to the interface that
 joins them.  Only links that are up carry traffic, and only switches forward.
 */
module NetGraph {
  import opened Basics

  type Node = int

  datatype Kind = Host | Switch | DciSwitch

  datatype Interface = Interface(idx: nat, up: bool, delay: nat, bw: nat)

  type Adjacency = map<Node, map<Node, Interface>>

  type Path = seq<Node>

  const UINT64_MAX: nat := 0xffff_ffff_ffff_ffff

  /** What `CalculateRoute` remembers about one path. */
  datatype PathInfo = PathInfo(delay: nat, txDelay: nat, bw: nat, path: Path)

  datatype Graph = Graph(kind: seq<Kind>, nbr: Adjacency) {

    predicate Up(u: Node, v: Node) {
      u in nbr && v in nbr[u] && nbr[u][v].up
    }

    /** An up link with a positive rate. */
    predicate Carries(u: Node, v: Node) {
      Up(u, v) && nbr[u][v].bw > 0
    }

    predicate IsSwitch(v: Node) {
      0 <= v < |kind| && kind[v] != Host
    }

    predicate IsHost(v: Node) {
      0 <= v < |kind| && kind[v] == Host
    }

    /** Links join known nodes, carry a positive rate, and are up in both directions or in neither. */
    ghost predicate Valid() {
      && (forall u: Node, v: Node :: Up(u, v) ==> 0 <= u < |kind| && 0 <= v < |kind| && Carries(u, v))
      && (forall u: Node, v: Node :: Up(u, v) ==> Up(v, u))
    }

    /** A path from h: up links all the way, and only switches between its ends. */
    ghost predicate IsPath(h: Node, p: Path) {
      && |p| > 0 && p[0] == h
      && (forall i :: 0 <= i < |p| - 1 ==> Up(p[i], p[i + 1]))
      && (forall i :: 0 < i < |p| - 1 ==> IsSwitch(p[i]))
    }

    ghost predicate IsPathTo(h: Node, v: Node, p: Path) {
      IsPath(h, p) && p[|p| - 1] == v
    }

    /** p is one of the paths from h to v with the fewest hops. */
    ghost predicate MinHop(h: Node, v: Node, p: Path) {
      IsPathTo(h, v, p) && forall q :: IsPathTo(h, v, q) ==> |p| <= |q|
    }

    ghost predicate Reached(h: Node, v: Node) {
      exists p :: MinHop(h, v, p)
    }

    /** v is d hops away from h. */
    ghost predicate Dist(h: Node, v: Node, d: nat) {
      exists p :: MinHop(h, v, p) && |p| == d + 1
    }

    /** u is the last stop before v on a minimum-hop path from h to v. */
    ghost predicate Pred(h: Node, v: Node, u: Node) {
      exists p :: MinHop(h, v, p) && |p| > 1 && p[|p| - 2] == u
    }

    /** The delay, transmission delay and bottleneck of a path, link by link. */
    function Measure(payload: nat, p: Path): (m: PathInfo)
      requires |p| > 0
      requires forall i :: 0 <= i < |p| - 1 ==> Carries(p[i], p[i + 1])
      ensures m.path == p
    {
      if |p| == 1 then PathInfo(0, 0, UINT64_MAX, p)
      else
        assert Carries(p[|p| - 2], p[|p| - 2 + 1]);
        Stretch(payload, Measure(payload, p[..|p| - 1]), p[|p| - 1], nbr[p[|p| - 2]][p[|p| - 1]])
    }

    /** The same network after the link between a and b went down. */
    function Without(a: Node, b: Node): Graph {
      Graph(kind, Disable(Disable(nbr, a, b), b, a))
    }
  }

  /** A path extended by one link. */
  function Stretch(payload: nat, m: PathInfo, next: Node, link: Interface): PathInfo
    requires link.bw > 0
  {
    PathInfo(m.delay + link.delay,
             m.txDelay + payload * 1_000_000_000 * 8 / link.bw,
             Min(m.bw, link.bw),
             m.path + [next])
  }

  // ---- What the figures of a path are, link by link ----

  ghost predicate Carried(g: Graph, p: Path) {
    forall i :: 0 <= i < |p| - 1 ==> g.Carries(p[i], p[i + 1])
  }

  /** The interface of the i-th link. */
  ghost function LinkAt(g: Graph, p: Path, i: nat): Interface
    requires Carried(g, p) && i < |p| - 1
  {
    assert g.Carries(p[i], p[i + 1]);
    g.nbr[p[i]][p[i + 1]]
  }

  lemma LinksCarry(g: Graph, p: Path, i: nat)
    requires Carried(g, p) && i < |p| - 1
    ensures LinkAt(g, p, i).bw > 0
  {
    assert g.Carries(p[i], p[i + 1]);
  }

  /** The delays of the first n links. */
  ghost function DelaySum(g: Graph, p: Path, n: nat): nat
    requires Carried(g, p) && n < |p|
  {
    if n == 0 then 0 else DelaySum(g, p, n - 1) + LinkAt(g, p, n - 1).delay
  }

  /** The nanoseconds that a packet of `payload` bytes takes to be sent over the first n links. */
  ghost function TxSum(g: Graph, payload: nat, p: Path, n: nat): nat
    requires Carried(g, p) && n < |p|
  {
    if n == 0 then 0
    else
      LinksCarry(g, p, n - 1);
      TxSum(g, payload, p, n - 1) + payload * 8_000_000_000 / LinkAt(g, p, n - 1).bw
  }

  /** No link is narrower than b, and one is as narrow, unless b is the 64-bit maximum. */
  ghost predicate IsBottleneck(g: Graph, p: Path, b: nat)
    requires Carried(g, p)
  {
    && (forall i :: 0 <= i < |p| - 1 ==> b <= LinkAt(g, p, i).bw)
    && b <= 0xffff_ffff_ffff_ffff
    && (b == 0xffff_ffff_ffff_ffff || exists i :: 0 <= i < |p| - 1 && LinkAt(g, p, i).bw == b)
  }

  lemma {:induction false} SumsOfPrefix(g: Graph, payload: nat, p: Path, n: nat)
    requires n < |p| - 1 && Carried(g, p) && Carried(g, p[..|p| - 1])
    ensures DelaySum(g, p[..|p| - 1], n) == DelaySum(g, p, n)
    ensures TxSum(g, payload, p[..|p| - 1], n) == TxSum(g, payload, p, n)
  {
    if n > 0 { SumsOfPrefix(g, payload, p, n - 1); }
  }

  lemma CarriedPrefix(g: Graph, p: Path)
    requires Carried(g, p) && |p| > 1
    ensures Carried(g, p[..|p| - 1])
  {
    var q := p[..|p| - 1];
    forall i | 0 <= i < |q| - 1 ensures g.Carries(q[i], q[i + 1]) {
      assert g.Carries(p[i], p[i + 1]);
    }
  }

  /** The measure of a path consists of the sums over its links and of its bottleneck. */
  lemma {:induction false} MeasureIsSum(g: Graph, payload: nat, p: Path)
    requires |p| > 0 && Carried(g, p)
    ensures var m := g.Measure(payload, p);
            && m.path == p && m.delay == DelaySum(g, p, |p| - 1) && m.txDelay == TxSum(g, payload, p, |p| - 1)
            && IsBottleneck(g, p, m.bw)
    decreases |p|
  {
    if |p| > 1 {
      CarriedPrefix(g, p);
      MeasureIsSum(g, payload, p[..|p| - 1]);
      SumsOfPrefix(g, payload, p, |p| - 2);
      NarrowerLink(g, p, g.Measure(payload, p[..|p| - 1]).bw);
      hide IsBottleneck, Carried, LinkAt;
      LastStretch(g, payload, p);
    }
  }

  lemma LastStretch(g: Graph, payload: nat, p: Path)
    requires |p| > 1 && Carried(g, p) && Carried(g, p[..|p| - 1])
    ensures var m, s, link := g.Measure(payload, p), g.Measure(payload, p[..|p| - 1]), LinkAt(g, p, |p| - 2);
            && link.bw > 0 && m.path == p && m.delay == s.delay + link.delay && m.bw == Min(s.bw, link.bw)
            && m.txDelay == s.txDelay + payload * 8_000_000_000 / link.bw
  {
    LinksCarry(g, p, |p| - 2);
  }

  lemma NarrowerLink(g: Graph, p: Path, b: nat)
    requires |p| > 1 && Carried(g, p) && Carried(g, p[..|p| - 1]) && IsBottleneck(g, p[..|p| - 1], b)
    ensures IsBottleneck(g, p, Min(b, LinkAt(g, p, |p| - 2).bw))
  {
    var q, last := p[..|p| - 1], LinkAt(g, p, |p| - 2);
    var c := Min(b, last.bw);
    forall i: nat | i < |q| - 1 ensures LinkAt(g, q, i) == LinkAt(g, p, i) {}
    hide LinkAt, Carried;
    forall i: nat | i < |p| - 1 ensures c <= LinkAt(g, p, i).bw {
      if i < |q| - 1 { assert b <= LinkAt(g, q, i).bw; }
    }
    if b != UINT64_MAX && c == b {
      var i: nat :| i < |q| - 1 && LinkAt(g, q, i).bw == b;
      assert LinkAt(g, p, i).bw == c;
    } else if c != UINT64_MAX {
      assert LinkAt(g, p, |p| - 2).bw == c;
    }
  }

  function Disable(nbr: Adjacency, a: Node, b: Node): Adjacency {
    if a in nbr && b in nbr[a] then nbr[a := nbr[a][b := nbr[a][b].(up := false)]] else nbr
  }

  // ---- Paths ----

  lemma PathInit(g: Graph, h: Node, p: Path)
    requires g.IsPath(h, p) && |p| > 1
    ensures g.IsPath(h, p[..|p| - 1])
    ensures g.Up(p[|p| - 2], p[|p| - 1])
    ensures |p| > 2 ==> g.IsSwitch(p[|p| - 2])
  {
    var q := p[..|p| - 1];
    forall i | 0 <= i < |q| - 1 ensures g.Up(q[i], q[i + 1]) {
      assert g.Up(p[i], p[i + 1]);
    }
    assert g.Up(p[|p| - 2], p[|p| - 2 + 1]);
  }

  lemma PathSnoc(g: Graph, h: Node, p: Path, v: Node)
    requires g.IsPath(h, p) && g.Up(p[|p| - 1], v)
    requires |p| > 1 ==> g.IsSwitch(p[|p| - 1])
    ensures g.IsPath(h, p + [v])
  {
    var q := p + [v];
    forall i | 0 <= i < |q| - 1 ensures g.Up(q[i], q[i + 1]) {
      if i < |p| - 1 {
        assert g.Up(p[i], p[i + 1]);
      }
    }
  }

  /** A shorter way to any stop of a minimum-hop path would shorten the path. */
  lemma MinHopInit(g: Graph, h: Node, v: Node, p: Path)
    requires g.MinHop(h, v, p) && |p| > 1
    ensures g.MinHop(h, p[|p| - 2], p[..|p| - 1])
    ensures g.Up(p[|p| - 2], v)
    ensures p[|p| - 2] == h || g.IsSwitch(p[|p| - 2])
    ensures |p| > 2 ==> p[|p| - 2] != h
  {
    PathInit(g, h, p);
    var u, s := p[|p| - 2], p[..|p| - 1];
    assert g.IsPathTo(h, u, s);
    forall q | g.IsPathTo(h, u, q) ensures |s| <= |q| {
      if |q| < |s| {
        PathSnoc(g, h, q, v);
        assert g.IsPathTo(h, v, q + [v]);
      }
    }
    assert g.IsPathTo(h, h, [h]);
  }

  /** One more link after a minimum-hop path, when it leads one hop further away. */
  lemma MinHopSnoc(g: Graph, h: Node, u: Node, s: Path, v: Node, p: Path)
    requires g.MinHop(h, u, s) && g.MinHop(h, v, p)
    requires g.Up(u, v) && (u == h || g.IsSwitch(u))
    requires |p| == |s| + 1
    ensures g.MinHop(h, v, s + [v])
  {
    assert g.IsPathTo(h, h, [h]);
    PathSnoc(g, h, s, v);
    assert g.IsPathTo(h, v, s + [v]);
  }

  /** The last stops before v, told by distance alone. */
  lemma PredByDistance(g: Graph, h: Node, v: Node, u: Node, d: nat)
    requires g.Dist(h, v, d)
    ensures g.Pred(h, v, u) <==> d > 0 && g.Up(u, v) && (u == h || g.IsSwitch(u)) && g.Dist(h, u, d - 1)
  {
    if g.Pred(h, v, u) {
      var p :| g.MinHop(h, v, p) && |p| > 1 && p[|p| - 2] == u;
      MinHopInit(g, h, v, p);
    }
    if d > 0 && g.Up(u, v) && (u == h || g.IsSwitch(u)) && g.Dist(h, u, d - 1) {
      var p :| g.MinHop(h, v, p) && |p| == d + 1;
      var s :| g.MinHop(h, u, s) && |s| == d;
      MinHopSnoc(g, h, u, s, v, p);
      assert (s + [v])[|s + [v]| - 2] == u;
    }
  }
}
