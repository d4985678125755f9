/**
 What the computed routes are worth: forwarding along the tables reaches the host, the
 recorded figures obey a Bellman law, and link failures only ever lengthen routes.
 */
module RouteTheorems {
  import opened Basics
  import opened NetGraph
  import opened Exploration
  import opened Routing

  // ---- Existence of minimum-hop paths and of best routes ----

  lemma {:induction false} ShortestExists(g: Graph, h: Node, v: Node, p: Path)
    requires g.IsPathTo(h, v, p)
    ensures g.Reached(h, v)
    decreases |p|
  {
    if !g.MinHop(h, v, p) {
      var q :| g.IsPathTo(h, v, q) && |q| < |p|;
      ShortestExists(g, h, v, q);
    }
  }

  lemma {:induction false} BwBounded(g: Graph, payload: nat, m: PathInfo)
    requires IsMeasure(g, payload, m)
    ensures m.bw <= UINT64_MAX
    decreases |m.path|
  {
    if |m.path| > 1 {
      var s := MeasureInit(g, payload, m);
      BwBounded(g, payload, s);
    }
  }

  /** d and b are the best delay and, for that delay, the best bandwidth among the routes to v. */
  ghost predicate Best(g: Graph, payload: nat, h: Node, v: Node, d: nat, b: nat) {
    && (exists m :: IsRoute(g, payload, h, v, m) && m.delay == d && m.bw == b)
    && (forall m :: IsRoute(g, payload, h, v, m) ==> d < m.delay || (d == m.delay && m.bw <= b))
  }

  lemma {:induction false} BestExists(g: Graph, payload: nat, h: Node, v: Node, m: PathInfo) returns (d: nat, b: nat)
    requires IsRoute(g, payload, h, v, m)
    ensures Best(g, payload, h, v, d, b)
    ensures d < m.delay || (d == m.delay && m.bw <= b)
    decreases m.delay, UINT64_MAX - m.bw
  {
    if r :| IsRoute(g, payload, h, v, r) && !(m.delay < r.delay || (m.delay == r.delay && r.bw <= m.bw)) {
      BwBounded(g, payload, r);
      d, b := BestExists(g, payload, h, v, r);
    } else {
      d, b := m.delay, m.bw;
    }
  }

  // ---- The Bellman law ----

  lemma RouteInit(g: Graph, payload: nat, h: Node, v: Node, m: PathInfo) returns (u: Node, s: PathInfo)
    requires IsRoute(g, payload, h, v, m) && v != h
    ensures g.Pred(h, v, u) && IsRoute(g, payload, h, u, s) && g.Carries(u, v)
    ensures m == Stretch(payload, s, v, g.nbr[u][v])
  {
    u := m.path[|m.path| - 2];
    s := MeasureInit(g, payload, m);
    MinHopInit(g, h, v, m.path);
  }

  lemma RouteSnoc(g: Graph, payload: nat, h: Node, v: Node, u: Node, s: PathInfo)
    requires g.Valid() && g.Pred(h, v, u) && IsRoute(g, payload, h, u, s)
    ensures g.Carries(u, v) && IsRoute(g, payload, h, v, Stretch(payload, s, v, g.nbr[u][v]))
  {
    var p :| g.MinHop(h, v, p) && |p| > 1 && p[|p| - 2] == u;
    MinHopInit(g, h, v, p);
    assert g.IsPathTo(h, u, p[..|p| - 1]);
    MinHopSnoc(g, h, u, s.path, v, p);
    MeasureStretch(g, payload, s, v);
  }

  /** (d, b) improves on, or equals, what going through u with (e, c) would give. */
  ghost predicate NoWorse(d: nat, b: nat, e: nat, c: nat, link: Interface) {
    d < e + link.delay || (d == e + link.delay && Min(c, link.bw) <= b)
  }

  /** Best delay, and best bandwidth at that delay, follow from those of the previous stops alone:
      enumerating all paths computes what dynamic programming would. */
  lemma BellmanLaw(g: Graph, payload: nat, h: Node, v: Node, d: nat, b: nat)
    requires g.Valid() && v != h
    ensures Best(g, payload, h, v, d, b) <==>
      && (exists u, e: nat, c: nat :: Follows(g, payload, h, v, d, b, u, e, c))
      && (forall u, e: nat, c: nat :: ViaPred(g, payload, h, v, u, e, c) ==> NoWorse(d, b, e, c, g.nbr[u][v]))
  {
    if Best(g, payload, h, v, d, b) {
      var u0, e0, c0 := BellmanAttained(g, payload, h, v, d, b);
      forall u, e: nat, c: nat | ViaPred(g, payload, h, v, u, e, c) ensures NoWorse(d, b, e, c, g.nbr[u][v]) {
        BellmanBound(g, payload, h, v, d, b, u, e, c);
      }
    }
    if u, e: nat, c: nat :| Follows(g, payload, h, v, d, b, u, e, c) {
      if forall u, e: nat, c: nat :: ViaPred(g, payload, h, v, u, e, c) ==> NoWorse(d, b, e, c, g.nbr[u][v]) {
        BellmanConverse(g, payload, h, v, d, b, u, e, c);
      }
    }
  }

  /** u is a last stop before v on a shortest route, and (e, c) are the best figures of u itself. */
  ghost predicate ViaPred(g: Graph, payload: nat, h: Node, v: Node, u: Node, e: nat, c: nat) {
    g.Pred(h, v, u) && g.Carries(u, v) && Best(g, payload, h, u, e, c)
  }

  /** What the script recorded obeys the law: the figures of v follow from those recorded for the last stops
      before it. Stops whose every delay exceeds 64 bits, which are recorded with the maximum, play no part. */
  lemma RecordedBellman(g: Graph, payload: nat, h: Node, delay: Figures, txDelay: Figures, bw: Figures, v: Node)
    requires g.Valid() && v != h && FiguresExact(g, payload, h, delay, txDelay, bw)
    requires FitsUint64(g, payload, h, v)
    ensures exists u ::
      && Recorded(g, payload, h, u, v)
      && Figure(delay, v, h) == Figure(delay, u, h) + g.nbr[u][v].delay
      && Figure(bw, v, h) == Min(Figure(bw, u, h), g.nbr[u][v].bw)
    ensures forall u :: Recorded(g, payload, h, u, v) ==>
      NoWorse(Figure(delay, v, h), Figure(bw, v, h), Figure(delay, u, h), Figure(bw, u, h), g.nbr[u][v])
  {
    var d, b := Figure(delay, v, h), Figure(bw, v, h);
    RecordedBest(g, payload, h, delay, txDelay, bw, v);
    RecordedAttained(g, payload, h, delay, txDelay, bw, v);
    forall u | Recorded(g, payload, h, u, v)
      ensures NoWorse(d, b, Figure(delay, u, h), Figure(bw, u, h), g.nbr[u][v])
    {
      hide FiguresExact, Best, FitsUint64, Graph.Valid;
      RecordedBest(g, payload, h, delay, txDelay, bw, u);
      BellmanBound(g, payload, h, v, d, b, u, Figure(delay, u, h), Figure(bw, u, h));
    }
  }

  lemma RecordedAttained(g: Graph, payload: nat, h: Node, delay: Figures, txDelay: Figures, bw: Figures, v: Node)
    requires g.Valid() && v != h && FiguresExact(g, payload, h, delay, txDelay, bw)
    requires FitsUint64(g, payload, h, v)
    ensures exists u ::
      && Recorded(g, payload, h, u, v)
      && Figure(delay, v, h) == Figure(delay, u, h) + g.nbr[u][v].delay
      && Figure(bw, v, h) == Min(Figure(bw, u, h), g.nbr[u][v].bw)
  {
    var d, b := Figure(delay, v, h), Figure(bw, v, h);
    RecordedBest(g, payload, h, delay, txDelay, bw, v);
    FitsBelow(g, payload, h, v, d, b);
    hide FiguresExact, Best, FitsUint64, Graph.Valid, Figure, ViaPred;
    var u, e, c := BellmanAttained(g, payload, h, v, d, b);
    RecordedVia(g, payload, h, delay, txDelay, bw, v, u, e, c);
  }

  lemma RecordedVia(g: Graph, payload: nat, h: Node, delay: Figures, txDelay: Figures, bw: Figures, v: Node,
                    u: Node, e: nat, c: nat)
    requires FiguresExact(g, payload, h, delay, txDelay, bw)
    requires ViaPred(g, payload, h, v, u, e, c) && e <= UINT64_MAX
    ensures Recorded(g, payload, h, u, v) && Figure(delay, u, h) == e && Figure(bw, u, h) == c
  {
    hide FiguresExact, Best, FitsUint64, Graph.Pred, Figure;
    AttainedFits(g, payload, h, u, e, c);
    RecordedBest(g, payload, h, delay, txDelay, bw, u);
    BestUnique(g, payload, h, u, e, c, Figure(delay, u, h), Figure(bw, u, h));
  }

  lemma FitsBelow(g: Graph, payload: nat, h: Node, v: Node, d: nat, b: nat)
    requires Best(g, payload, h, v, d, b) && FitsUint64(g, payload, h, v)
    ensures d <= UINT64_MAX
  {}

  lemma AttainedFits(g: Graph, payload: nat, h: Node, v: Node, d: nat, b: nat)
    requires Best(g, payload, h, v, d, b) && d <= UINT64_MAX
    ensures FitsUint64(g, payload, h, v)
  {}

  lemma BestUnique(g: Graph, payload: nat, h: Node, v: Node, d: nat, b: nat, e: nat, c: nat)
    requires Best(g, payload, h, v, d, b) && Best(g, payload, h, v, e, c)
    ensures d == e && b == c
  {}

  /** u is a last stop before v, with a delay that can be recorded. */
  ghost predicate Recorded(g: Graph, payload: nat, h: Node, u: Node, v: Node) {
    g.Pred(h, v, u) && g.Carries(u, v) && FitsUint64(g, payload, h, u)
  }

  lemma RecordedBest(g: Graph, payload: nat, h: Node, delay: Figures, txDelay: Figures, bw: Figures, v: Node)
    requires FiguresExact(g, payload, h, delay, txDelay, bw) && FitsUint64(g, payload, h, v)
    ensures Best(g, payload, h, v, Figure(delay, v, h), Figure(bw, v, h))
  {
    var m :| IsRoute(g, payload, h, v, m) && m.delay <= UINT64_MAX;
    assert g.Reached(h, v);
  }

  /** (d, b) is what going through u gives. */
  ghost predicate Follows(g: Graph, payload: nat, h: Node, v: Node, d: nat, b: nat, u: Node, e: nat, c: nat) {
    ViaPred(g, payload, h, v, u, e, c) && d == e + g.nbr[u][v].delay && b == Min(c, g.nbr[u][v].bw)
  }

  lemma BellmanBound(g: Graph, payload: nat, h: Node, v: Node, d: nat, b: nat, u: Node, e: nat, c: nat)
    requires g.Valid() && Best(g, payload, h, v, d, b) && ViaPred(g, payload, h, v, u, e, c)
    ensures NoWorse(d, b, e, c, g.nbr[u][v])
  {
    var s :| IsRoute(g, payload, h, u, s) && s.delay == e && s.bw == c;
    RouteSnoc(g, payload, h, v, u, s);
  }

  lemma BellmanAttained(g: Graph, payload: nat, h: Node, v: Node, d: nat, b: nat) returns (u: Node, e: nat, c: nat)
    requires g.Valid() && v != h && Best(g, payload, h, v, d, b)
    ensures Follows(g, payload, h, v, d, b, u, e, c)
  {
    var m :| IsRoute(g, payload, h, v, m) && m.delay == d && m.bw == b;
    var s;
    u, s := RouteInit(g, payload, h, v, m);
    e, c := BestExists(g, payload, h, u, s);
    BellmanBound(g, payload, h, v, d, b, u, e, c);
  }

  lemma BellmanConverse(g: Graph, payload: nat, h: Node, v: Node, d: nat, b: nat, u: Node, e: nat, c: nat)
    requires g.Valid() && v != h
    requires Follows(g, payload, h, v, d, b, u, e, c)
    requires forall u, e: nat, c: nat :: ViaPred(g, payload, h, v, u, e, c) ==> NoWorse(d, b, e, c, g.nbr[u][v])
    ensures Best(g, payload, h, v, d, b)
  {
    var s :| IsRoute(g, payload, h, u, s) && s.delay == e && s.bw == c;
    RouteSnoc(g, payload, h, v, u, s);
    forall m | IsRoute(g, payload, h, v, m) ensures d < m.delay || (d == m.delay && m.bw <= b) {
      var u', e', c' := BelowBest(g, payload, h, v, m);
      assert NoWorse(d, b, e', c', g.nbr[u'][v]);
    }
  }

  /** No route is better than the best figures of its last stop allow. */
  lemma BelowBest(g: Graph, payload: nat, h: Node, v: Node, m: PathInfo) returns (u: Node, e: nat, c: nat)
    requires g.Valid() && v != h && IsRoute(g, payload, h, v, m)
    ensures ViaPred(g, payload, h, v, u, e, c)
    ensures e + g.nbr[u][v].delay < m.delay || (e + g.nbr[u][v].delay == m.delay && m.bw <= Min(c, g.nbr[u][v].bw))
  {
    var s;
    u, s := RouteInit(g, payload, h, v, m);
    e, c := BestExists(g, payload, h, u, s);
  }

  // ---- Forwarding ----

  /** The hop list of a node at distance d holds its neighbours at distance d - 1 that may forward, and only those. */
  lemma HopsByDistance(g: Graph, hops: HopTable, h: Node, v: Node, d: nat, u: Node)
    requires g.Valid() && HopsExact(g, hops) && g.IsHost(h) && g.Dist(h, v, d)
    ensures u in Hops(hops, v, h) <==> d > 0 && g.Up(v, u) && (u == h || g.IsSwitch(u)) && g.Dist(h, u, d - 1)
  {
    PredByDistance(g, h, v, u, d);
    assert u in Hops(hops, v, h) <==> g.Pred(h, v, u);
    assert g.Up(u, v) <==> g.Up(v, u);
  }

  lemma HopsNonEmpty(g: Graph, hops: HopTable, h: Node, v: Node, d: nat)
    requires g.Valid() && HopsExact(g, hops) && g.IsHost(h) && g.Dist(h, v, d)
    ensures Hops(hops, v, h) == [] <==> v == h
    ensures v == h <==> d == 0
  {
    assert g.IsPathTo(h, h, [h]);
    var p :| g.MinHop(h, v, p) && |p| == d + 1;
    if |p| > 1 {
      assert g.Pred(h, v, p[|p| - 2]);
      assert p[|p| - 2] in Hops(hops, v, h);
    } else if Hops(hops, v, h) != [] {
      HopsByDistance(g, hops, h, v, d, Hops(hops, v, h)[0]);
    }
  }

  /** A packet's way towards h: each step goes to any one of the installed next hops. */
  ghost predicate Walk(hops: HopTable, h: Node, w: Path) {
    |w| > 0 && forall i :: 0 <= i < |w| - 1 ==> w[i + 1] in Hops(hops, w[i], h)
  }

  /** After i steps the walk is d - i hops away from h, and came over an up link. */
  ghost predicate OnCourse(g: Graph, h: Node, w: Path, d: nat, i: nat)
    requires i < |w|
  {
    i <= d && g.Dist(h, w[i], d - i) && (i > 0 ==> g.Up(w[i - 1], w[i]) && (w[i] == h || g.IsSwitch(w[i])))
  }

  lemma {:induction false} WalkDescends(g: Graph, hops: HopTable, h: Node, w: Path, d: nat, i: nat)
    requires g.Valid() && HopsExact(g, hops) && g.IsHost(h)
    requires Walk(hops, h, w) && g.Dist(h, w[0], d) && i < |w|
    ensures OnCourse(g, h, w, d, i)
    decreases i
  {
    if i > 0 {
      WalkDescends(g, hops, h, w, d, i - 1);
      assert w[i - 1 + 1] in Hops(hops, w[i - 1], h);
      HopsByDistance(g, hops, h, w[i - 1], d - (i - 1), w[i]);
    }
  }

  /** Whatever next hops are chosen, a walk from a node d hops away never revisits a node, crosses
      only up links and switches, and cannot get stuck: it stops exactly at h, after exactly d steps. */
  lemma ForwardingReachesHost(g: Graph, hops: HopTable, h: Node, w: Path, d: nat)
    requires g.Valid() && HopsExact(g, hops) && g.IsHost(h)
    requires Walk(hops, h, w) && g.Dist(h, w[0], d)
    ensures |w| - 1 <= d
    ensures forall i :: 0 <= i < |w| - 1 ==> g.Up(w[i], w[i + 1])
    ensures forall i :: 0 < i < |w| - 1 ==> g.IsSwitch(w[i])
    ensures forall i, j :: 0 <= i < j < |w| ==> w[i] != w[j]
    ensures Hops(hops, w[|w| - 1], h) == [] <==> w[|w| - 1] == h
    ensures w[|w| - 1] == h <==> |w| - 1 == d
  {
    forall i: nat | i < |w| ensures OnCourse(g, h, w, d, i) {
      WalkDescends(g, hops, h, w, d, i);
    }
    assert OnCourse(g, h, w, d, |w| - 1);
    HopsNonEmpty(g, hops, h, w[|w| - 1], d - (|w| - 1));
    forall i: nat | i < |w| - 1 ensures g.Up(w[i], w[i + 1]) && w[i] != h && (i > 0 ==> g.IsSwitch(w[i])) {
      assert OnCourse(g, h, w, d, i) && OnCourse(g, h, w, d, i + 1);
      HopsNonEmpty(g, hops, h, w[i], d - i);
    }
    forall i, j | 0 <= i < j < |w| ensures w[i] != w[j] {
      assert OnCourse(g, h, w, d, i) && OnCourse(g, h, w, d, j);
    }
  }

  /** No two up links of a node are behind one port. */
  ghost predicate OwnPorts(g: Graph) {
    forall v: Node, u: Node, x: Node :: g.Up(v, u) && g.Up(v, x) && g.nbr[v][u].idx == g.nbr[v][x].idx ==> u == x
  }

  /** The table of v has a port towards h behind which u is. */
  ghost predicate Forwards(g: Graph, table: ForwardingTable, h: Node, v: Node, u: Node) {
    g.Up(v, u) && g.nbr[v][u].idx in Entries(table, v, h)
  }

  /** A packet's way towards h, as the installed tables send it. */
  ghost predicate TableWalk(g: Graph, table: ForwardingTable, h: Node, w: Path) {
    |w| > 0 && forall i :: 0 <= i < |w| - 1 ==> Forwards(g, table, h, w[i], w[i + 1])
  }

  lemma PortsAreHops(net: Network, h: Node, v: Node, u: Node)
    requires net.Consistent() && OwnPorts(net.G()) && net.G().IsHost(h) && 0 <= v < |net.kind|
    ensures Forwards(net.G(), net.table, h, v, u) <==> u in Hops(net.nextHop, v, h)
    ensures Entries(net.table, v, h) == [] <==> Hops(net.nextHop, v, h) == []
  {
    var g, hops := net.G(), Hops(net.nextHop, v, h);
    var ports := Ports(net.nbr2if, v, hops);
    assert Entries(net.table, v, h) == ports;
    forall k | 0 <= k < |hops| ensures g.Up(v, hops[k]) {
      assert hops[k] in hops;
      PredIsUp(g, h, v, hops[k]);
    }
    if Forwards(g, net.table, h, v, u) {
      var k :| 0 <= k < |ports| && ports[k] == g.nbr[v][u].idx;
      assert hops[k] == u;
    }
    if u in hops {
      var k :| 0 <= k < |hops| && hops[k] == u;
      assert ports[k] == g.nbr[v][u].idx;
    }
  }

  lemma PredIsUp(g: Graph, h: Node, v: Node, u: Node)
    requires g.Valid() && g.Pred(h, v, u)
    ensures g.Up(v, u)
  {
    var p :| g.MinHop(h, v, p) && |p| > 1 && p[|p| - 2] == u;
    assert g.Up(p[|p| - 2], p[|p| - 2 + 1]);
  }

  lemma ReachedIsKnown(g: Graph, h: Node, v: Node, d: nat)
    requires g.Valid() && g.IsHost(h) && g.Dist(h, v, d)
    ensures 0 <= v < |g.kind|
  {
    var p :| g.MinHop(h, v, p) && |p| == d + 1;
    if |p| > 1 { assert g.Up(p[|p| - 2], p[|p| - 2 + 1]); }
  }

  /** The same for the installed tables of a network whose ports lead to one neighbour each: whatever
      entries are taken, the packet comes to h after exactly d steps, over up links and switches, and is
      never where it was before. */
  lemma TablesReachHost(net: Network, h: Node, w: Path, d: nat)
    requires net.Consistent() && OwnPorts(net.G()) && net.G().IsHost(h)
    requires TableWalk(net.G(), net.table, h, w) && net.G().Dist(h, w[0], d)
    ensures |w| - 1 <= d && forall i :: 0 <= i < |w| - 1 ==> net.G().Up(w[i], w[i + 1])
    ensures forall i :: 0 < i < |w| - 1 ==> net.G().IsSwitch(w[i])
    ensures forall i, j :: 0 <= i < j < |w| ==> w[i] != w[j]
    ensures Entries(net.table, w[|w| - 1], h) == [] <==> w[|w| - 1] == h
    ensures w[|w| - 1] == h <==> |w| - 1 == d
  {
    var g := net.G();
    ReachedIsKnown(g, h, w[0], d);
    forall i | 0 <= i < |w| ensures 0 <= w[i] < |g.kind| {
      if i > 0 { assert Forwards(g, net.table, h, w[i - 1], w[i - 1 + 1]); }
    }
    forall i | 0 <= i < |w| - 1 ensures w[i + 1] in Hops(net.nextHop, w[i], h) {
      PortsAreHops(net, h, w[i], w[i + 1]);
    }
    ForwardingReachesHost(g, net.nextHop, h, w, d);
    PortsAreHops(net, h, w[|w| - 1], h);
  }

  // ---- Links going down ----

  /** g' has no up link that g lacks. */
  ghost predicate Weaker(g: Graph, g': Graph) {
    && g'.kind == g.kind
    && (forall u: Node, v: Node :: g'.Up(u, v) ==> g.Up(u, v) && g'.nbr[u][v] == g.nbr[u][v])
  }

  ghost predicate UsesLink(p: Path, a: Node, b: Node) {
    exists i :: 0 <= i < |p| - 1 && ((p[i] == a && p[i + 1] == b) || (p[i] == b && p[i + 1] == a))
  }

  lemma WeakerPath(g: Graph, g': Graph, h: Node, p: Path)
    requires Weaker(g, g') && g'.IsPath(h, p)
    ensures g.IsPath(h, p)
  {
    forall i | 0 <= i < |p| - 1 ensures g.Up(p[i], p[i + 1]) {
      assert g'.Up(p[i], p[i + 1]);
    }
    forall i | 0 < i < |p| - 1 ensures g.IsSwitch(p[i]) {
      assert g'.IsSwitch(p[i]);
    }
  }

  /** Fewer links: what is reached was reached before, and by no longer a way. */
  lemma DistancesNeverDecrease(g: Graph, g': Graph, h: Node, v: Node, d': nat)
    requires Weaker(g, g') && g'.Dist(h, v, d')
    ensures exists d: nat :: g.Dist(h, v, d) && d <= d'
  {
    var p' :| g'.MinHop(h, v, p') && |p'| == d' + 1;
    WeakerPath(g, g', h, p');
    ShortestExists(g, h, v, p');
    var p :| g.MinHop(h, v, p);
    assert g.Dist(h, v, |p| - 1);
  }

  lemma PathSurvives(g: Graph, a: Node, b: Node, g': Graph, h: Node, p: Path)
    requires Downed(g, a, b, g') && g.IsPath(h, p) && !UsesLink(p, a, b)
    ensures g'.IsPath(h, p)
  {
    forall i | 0 <= i < |p| - 1 ensures g'.Up(p[i], p[i + 1]) {
      assert g.Up(p[i], p[i + 1]);
    }
    forall i | 0 < i < |p| - 1 ensures g'.IsSwitch(p[i]) {
      assert g.IsSwitch(p[i]);
    }
  }

  /** When no shortest path from h to v used the lost link, the shortest paths are the same as before. */
  lemma UnusedLinkChangesNothing(g: Graph, a: Node, b: Node, g': Graph, h: Node, v: Node, p: Path)
    requires Downed(g, a, b, g')
    requires forall q :: g.MinHop(h, v, q) ==> !UsesLink(q, a, b)
    ensures g.MinHop(h, v, p) <==> g'.MinHop(h, v, p)
  {
    if g.MinHop(h, v, p) {
      PathSurvives(g, a, b, g', h, p);
      forall q | g'.IsPathTo(h, v, q) ensures |p| <= |q| {
        WeakerPath(g, g', h, q);
      }
    }
    if g'.MinHop(h, v, p) {
      WeakerPath(g, g', h, p);
      ShortestExists(g, h, v, p);
      var q :| g.MinHop(h, v, q);
      PathSurvives(g, a, b, g', h, q);
      forall r | g.IsPathTo(h, v, r) ensures |p| <= |r| {
        assert |q| <= |r|;
      }
    }
  }

  /** Hence its next hops towards h, as a set, and its distance are what they were. */
  lemma UnusedLinkKeepsHops(g: Graph, a: Node, b: Node, g': Graph, hops: HopTable, hops': HopTable, h: Node, v: Node)
    requires Downed(g, a, b, g') && g.IsHost(h)
    requires HopsExact(g, hops) && HopsExact(g', hops')
    requires forall q :: g.MinHop(h, v, q) ==> !UsesLink(q, a, b)
    ensures forall u: Node :: u in Hops(hops', v, h) <==> u in Hops(hops, v, h)
    ensures |Hops(hops', v, h)| == |Hops(hops, v, h)|
    ensures forall d: nat :: g'.Dist(h, v, d) <==> g.Dist(h, v, d)
  {
    forall p ensures g.MinHop(h, v, p) <==> g'.MinHop(h, v, p) {
      UnusedLinkChangesNothing(g, a, b, g', h, v, p);
    }
    SameHops(g, g', hops, hops', h, v);
  }

  lemma SameHops(g: Graph, g': Graph, hops: HopTable, hops': HopTable, h: Node, v: Node)
    requires g.IsHost(h) && g'.IsHost(h)
    requires HopsExact(g, hops) && HopsExact(g', hops')
    requires forall p :: g.MinHop(h, v, p) <==> g'.MinHop(h, v, p)
    ensures forall u: Node :: u in Hops(hops', v, h) <==> u in Hops(hops, v, h)
    ensures |Hops(hops', v, h)| == |Hops(hops, v, h)|
  {
    forall u: Node ensures u in Hops(hops', v, h) <==> u in Hops(hops, v, h) {
      assert u in Hops(hops, v, h) <==> g.Pred(h, v, u);
      assert u in Hops(hops', v, h) <==> g'.Pred(h, v, u);
    }
    SameItems(Hops(hops, v, h), Hops(hops', v, h));
  }

  /** A run of link failures: `nets[k + 1]` is `nets[k]` after the k-th link went down. */
  ghost predicate FailureRun(nets: seq<Graph>, links: seq<(Node, Node)>) {
    |nets| == |links| + 1 && forall k :: 0 <= k < |links| ==> Downed(nets[k], links[k].0, links[k].1, nets[k + 1])
  }

  ghost predicate Lost(links: seq<(Node, Node)>, u: Node, v: Node) {
    (u, v) in links || (v, u) in links
  }

  /** After any run, the up links are those that were up at the start and never taken down:
      neither the order of the failures nor repeating one matters. */
  lemma {:induction false} RunLeavesSurvivors(nets: seq<Graph>, links: seq<(Node, Node)>, u: Node, v: Node)
    requires FailureRun(nets, links)
    ensures Weaker(nets[0], nets[|links|])
    ensures nets[|links|].Up(u, v) <==> nets[0].Up(u, v) && !Lost(links, u, v)
    decreases |links|
  {
    if links != [] {
      var n := |links| - 1;
      assert Downed(nets[n], links[n].0, links[n].1, nets[n + 1]);
      RunLeavesSurvivors(nets[..n + 1], links[..n], u, v);
      assert links == links[..n] + [links[n]];
    }
  }

  /** A network with the links of g that are not among the lost ones. */
  ghost predicate Survivors(g: Graph, links: seq<(Node, Node)>, scratch: Graph) {
    scratch.kind == g.kind && forall u: Node, x: Node :: scratch.Up(u, x) <==> g.Up(u, x) && !Lost(links, u, x)
  }

  ghost predicate SameTowards(hops: HopTable, fresh': HopTable, v: Node, h: Node) {
    forall u: Node :: u in Hops(hops, v, h) <==> u in Hops(fresh', v, h)
  }

  /** Takes down one link after the other, in any order and with repetitions. The tables and next hops are
      then those that a computation from scratch gives for the links that are left, and name no other; no
      destination is closer than at the start. */
  method TakeDownLinks(net: Network, links: seq<(Node, Node)>)
    requires net.Consistent()
    modifies net
    ensures net.Consistent() && Survivors(old(net.G()), links, net.G())
    ensures forall scratch, fresh', v: Node, h: Node ::
      Survivors(old(net.G()), links, scratch) && HopsExact(scratch, fresh') && scratch.IsHost(h) ==>
        SameTowards(net.nextHop, fresh', v, h)
    ensures forall v: Node, h: Node, u: Node :: net.G().IsHost(h) && u in Hops(net.nextHop, v, h) ==>
      old(net.G()).Up(v, u) && !Lost(links, v, u)
    ensures forall h: Node, v: Node, d': nat :: net.G().Dist(h, v, d') ==>
      exists d: nat :: old(net.G()).Dist(h, v, d) && d <= d'
  {
    ghost var nets := [net.G()];
    for i := 0 to |links|
      invariant |nets| == i + 1 && nets[0] == old(net.G()) && nets[i] == net.G()
      invariant net.Consistent() && FailureRun(nets, links[..i])
    {
      var a, b := links[i].0, links[i].1;
      assert net.G().Valid();
      net.TakeDownLink(a, b);
      RunGoesOn(nets, links[..i], (a, b), net.G());
      nets := nets + [net.G()];
      assert links[..i + 1] == links[..i] + [(a, b)];
    }
    assert links[..|links|] == links;
    RunSurvivors(nets, links);
    assert HopsExact(net.G(), net.nextHop);
    forall scratch, fresh', v: Node, h: Node |
      Survivors(nets[0], links, scratch) && HopsExact(scratch, fresh') && scratch.IsHost(h)
      ensures SameTowards(net.nextHop, fresh', v, h)
    {
      TablesAfterFailures(nets, links, net.nextHop, scratch, fresh', h, v);
    }
    forall v: Node, h: Node, u: Node | net.G().IsHost(h) && u in Hops(net.nextHop, v, h)
      ensures nets[0].Up(v, u) && !Lost(links, v, u)
    {
      TablesAfterFailures(nets, links, net.nextHop, net.G(), net.nextHop, h, v);
    }
    forall h: Node, v: Node, d': nat | net.G().Dist(h, v, d')
      ensures exists d: nat :: nets[0].Dist(h, v, d) && d <= d'
    {
      DistancesNeverDecrease(nets[0], net.G(), h, v, d');
    }
  }

  lemma RunGoesOn(nets: seq<Graph>, links: seq<(Node, Node)>, link: (Node, Node), g: Graph)
    requires FailureRun(nets, links) && Downed(nets[|links|], link.0, link.1, g)
    ensures FailureRun(nets + [g], links + [link])
  {}

  lemma RunSurvivors(nets: seq<Graph>, links: seq<(Node, Node)>)
    requires FailureRun(nets, links)
    ensures Survivors(nets[0], links, nets[|links|]) && Weaker(nets[0], nets[|links|])
  {
    RunLeavesSurvivors(nets, links, 0, 0);
    forall u: Node, x: Node ensures nets[|links|].Up(u, x) <==> nets[0].Up(u, x) && !Lost(links, u, x) {
      RunLeavesSurvivors(nets, links, u, x);
    }
  }

  /** After any run, exact tables name only links that are up, agree with exact tables computed from
      scratch for the surviving network, and show no destination closer than at the start. */
  lemma TablesAfterFailures(nets: seq<Graph>, links: seq<(Node, Node)>, hops: HopTable, scratch: Graph,
                            fresh': HopTable,
                            h: Node, v: Node)
    requires FailureRun(nets, links) && nets[|links|].Valid() && nets[|links|].IsHost(h)
    requires HopsExact(nets[|links|], hops)
    requires Survivors(nets[0], links, scratch) && HopsExact(scratch, fresh')
    ensures SameTowards(hops, fresh', v, h)
    ensures forall u: Node :: u in Hops(hops, v, h) ==> nets[0].Up(v, u) && !Lost(links, v, u)
    ensures forall d': nat :: nets[|links|].Dist(h, v, d') ==> exists d: nat :: nets[0].Dist(h, v, d) && d <= d'
  {
    var g := nets[|links|];
    forall u: Node, x: Node ensures g.Up(u, x) <==> scratch.Up(u, x) {
      RunLeavesSurvivors(nets, links, u, x);
    }
    RunLeavesSurvivors(nets, links, h, v);
    forall p ensures g.MinHop(h, v, p) <==> scratch.MinHop(h, v, p) {
      SameUpSamePaths(g, scratch, h, v, p);
    }
    SameHops(g, scratch, hops, fresh', h, v);
    ExactHopsAdjacent(g, hops);
    forall u: Node | u in Hops(hops, v, h) ensures nets[0].Up(v, u) && !Lost(links, v, u) {
      RunLeavesSurvivors(nets, links, v, u);
    }
    forall d': nat | g.Dist(h, v, d') ensures exists d: nat :: nets[0].Dist(h, v, d) && d <= d' {
      DistancesNeverDecrease(nets[0], g, h, v, d');
    }
  }
}
