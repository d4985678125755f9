/**
 Shortest paths between the hosts of a leaf-spine topology: how many hops, and which paths.
 */
module LeafSpineRoutes {
  import opened Basics
  import opened LeafSpine
  import opened NetGraph
  import Exploration

  /** The network that the simulation builds from the generated file: the announced ids, the listed
      switches, and every emitted link in both directions. What the ids of DCI switches that no list names
      stand for is left open: no link leads there. */
  ghost predicate Realises(g: Graph, p: Params) {
    && |g.kind| == p.Total()
    && (forall v: nat :: v < p.Hosts() ==> g.IsHost(v))
    && (forall x :: Listed(p, x) ==> g.IsSwitch(Id(p, x)))
    && forall u: Node, v: Node :: g.Up(u, v) <==> exists l :: Joins(p, l, u, v)
  }

  /** The switches that the lists of the file name. */
  predicate Listed(p: Params, x: Device) {
    match x
    case HostAt(_, _, _) => false
    case DciAt(d) => p.dciPerDc > 0 && d < p.dcNum
    case _ => Exists(p, x)
  }

  lemma ListedExists(p: Params, x: Device)
    requires Listed(p, x)
    ensures Exists(p, x)
  {
    if x.DciAt? { MulMonotone(1, p.dciPerDc, p.dcNum); }
  }

  /** The emitted link l joins u and v, this way or the other. */
  predicate Joins(p: Params, l: Link, u: Node, v: Node) {
    Linked(p, l) && ((u, v) == (Id(p, l.a), Id(p, l.b)) || (v, u) == (Id(p, l.a), Id(p, l.b)))
  }

  predicate Adjacent(p: Params, x: Device, y: Device) {
    Linked(p, Link(x, y)) || Linked(p, Link(y, x))
  }

  lemma LinkedExist(p: Params, l: Link)
    requires Linked(p, l)
    ensures Exists(p, l.a) && Exists(p, l.b)
  {
    if !l.a.HostAt? { ListedExists(p, l.a); }
    ListedExists(p, l.b);
  }

  lemma UpMeansAdjacent(g: Graph, p: Params, u: Node, v: Node)
    requires Realises(g, p) && p.Balanced() && g.Up(u, v)
    ensures 0 <= u < p.Total() && 0 <= v < p.Total() && Adjacent(p, DeviceOf(p, u), DeviceOf(p, v))
  {
    var l :| Joins(p, l, u, v);
    LinkedExist(p, l);
    IdsPartition(p, l.a);
    IdsPartition(p, l.b);
  }

  lemma AdjacentMeansUp(g: Graph, p: Params, x: Device, y: Device)
    requires Realises(g, p) && Adjacent(p, x, y)
    ensures g.Up(Id(p, x), Id(p, y))
  {
    var l := if Linked(p, Link(x, y)) then Link(x, y) else Link(y, x);
    hide Linked, Id;
    assert Joins(p, l, Id(p, x), Id(p, y));
  }

  /** The network with the announced nodes and the emitted links, all alike. */
  ghost function Built(p: Params, link: Interface): Graph
    requires p.Balanced()
  {
    Graph(seq(p.Total(), v requires 0 <= v < p.Total() => if v < p.Hosts() then Host else Switch),
          map u: Node | 0 <= u < p.Total() :: LinksOf(p, u, link))
  }

  ghost function LinksOf(p: Params, u: nat, link: Interface): map<Node, Interface>
    requires p.Balanced() && u < p.Total()
  {
    map v: Node | 0 <= v < p.Total() && Adjacent(p, DeviceOf(p, u), DeviceOf(p, v)) :: link
  }

  lemma LinkJoins(p: Params, u: Node, v: Node)
    requires p.Balanced()
    ensures (exists l :: Joins(p, l, u, v))
            <==> 0 <= u < p.Total() && 0 <= v < p.Total() && Adjacent(p, DeviceOf(p, u), DeviceOf(p, v))
  {
    if 0 <= u < p.Total() && 0 <= v < p.Total() && Adjacent(p, DeviceOf(p, u), DeviceOf(p, v)) {
      var x, y := DeviceOf(p, u), DeviceOf(p, v);
      IdsCover(p, u);
      IdsCover(p, v);
      assert Joins(p, Link(x, y), u, v) || Joins(p, Link(y, x), u, v);
    }
    if l :| Joins(p, l, u, v) {
      LinkedExist(p, l);
      IdsPartition(p, l.a);
      IdsPartition(p, l.b);
    }
  }

  /** Such a network exists, and its links are up in both directions. */
  lemma BuiltRealises(p: Params, link: Interface)
    requires p.Balanced() && link.up && link.bw > 0
    ensures Realises(Built(p, link), p) && Built(p, link).Valid()
  {
    var g := Built(p, link);
    forall u: Node, v: Node ensures g.Up(u, v) <==> exists l :: Joins(p, l, u, v) {
      LinkJoins(p, u, v);
    }
    forall x | Listed(p, x) ensures g.IsSwitch(Id(p, x)) {
      ListedExists(p, x);
      IdsPartition(p, x);
      hide DeviceOf;
    }
    hide DeviceOf, Linked, Id, Listed;
    forall u: Node, v: Node
      ensures g.Up(u, v) ==> 0 <= u < p.Total() && 0 <= v < p.Total() && g.Carries(u, v) && g.Up(v, u)
    {}
  }

  // ---- How far ----

  /** Hops from a host to a device. */
  function Hops(h: Device, x: Device): nat
    requires h.HostAt?
  {
    match x
    case HostAt(d, i, j) => if x == h then 0 else if d == h.d && i == h.i then 2 else if d == h.d then 4 else 7
    case LeafAt(d, i) => if d == h.d && i == h.i then 1 else if d == h.d then 3 else 6
    case SpineAt(d, i) => if d == h.d then 2 else 5
    case DciAt(d) => if d == h.d then 3 else 4
  }

  lemma OneHop(p: Params, h: Device, x: Device, y: Device)
    requires h.HostAt? && Adjacent(p, x, y)
    ensures Hops(h, y) <= Hops(h, x) + 1
  {}

  /** No path is shorter. */
  lemma {:induction false} NoShortcut(g: Graph, p: Params, h: Device, q: Path, k: nat)
    requires Realises(g, p) && p.Balanced() && h.HostAt? && Exists(p, h)
    requires g.IsPath(Id(p, h), q) && k < |q|
    ensures 0 <= q[k] < p.Total() && Hops(h, DeviceOf(p, q[k])) <= k
  {
    IdsPartition(p, h);
    if k > 0 {
      NoShortcut(g, p, h, q, k - 1);
      assert g.Up(q[k - 1], q[k - 1 + 1]);
      UpMeansAdjacent(g, p, q[k - 1], q[k]);
      OneHop(p, h, DeviceOf(p, q[k - 1]), DeviceOf(p, q[k]));
    }
  }

  // ---- Which paths ----

  /** Up to spine s of the own data centre, and down by spine t of the other. */
  function Route(h: Device, x: Device, s: nat, t: nat): seq<Device>
    requires h.HostAt? && x.HostAt?
  {
    if x.d == h.d && x.i == h.i then [h, LeafAt(h.d, h.i), x]
    else if x.d == h.d then [h, LeafAt(h.d, h.i), SpineAt(h.d, s), LeafAt(x.d, x.i), x]
    else [h, LeafAt(h.d, h.i), SpineAt(h.d, s), DciAt(h.d), DciAt(x.d), SpineAt(x.d, t), LeafAt(x.d, x.i), x]
  }

  function IdPath(p: Params, devices: seq<Device>): (q: Path)
    ensures |q| == |devices| && forall k :: 0 <= k < |q| ==> q[k] == Id(p, devices[k])
  {
    seq(|devices|, k requires 0 <= k < |devices| => Id(p, devices[k]))
  }

  ghost predicate HostPair(p: Params, h: Device, x: Device) {
    h.HostAt? && x.HostAt? && Exists(p, h) && Exists(p, x) && h != x
  }

  predicate SameLeaf(h: Device, x: Device) {
    h.HostAt? && x.HostAt? && x.d == h.d && x.i == h.i
  }

  /** There are the switches that a way from h to x needs. */
  predicate Suitable(p: Params, h: Device, x: Device) {
    p.Balanced() && (SameLeaf(h, x) || p.spinesPerDc > 0) && (h.d == x.d || p.dciPerDc > 0)
  }

  /** The spines that a route takes exist. */
  predicate Choice(p: Params, h: Device, x: Device, s: nat, t: nat) {
    (SameLeaf(h, x) || s < p.spinesPerDc) && (h.d == x.d || t < p.spinesPerDc)
  }

  lemma RouteSteps(p: Params, h: Device, x: Device, s: nat, t: nat)
    requires HostPair(p, h, x) && Suitable(p, h, x) && Choice(p, h, x, s, t)
    ensures var r := Route(h, x, s, t);
            && |r| == Hops(h, x) + 1 && r[0] == h && r[|r| - 1] == x
            && (forall k :: 0 <= k < |r| - 1 ==> Adjacent(p, r[k], r[k + 1]))
            && (forall k :: 0 < k < |r| - 1 ==> Listed(p, r[k]))
  {}

  lemma RouteIsPath(g: Graph, p: Params, h: Device, x: Device, s: nat, t: nat)
    requires Realises(g, p) && HostPair(p, h, x) && Suitable(p, h, x) && Choice(p, h, x, s, t)
    ensures g.IsPathTo(Id(p, h), Id(p, x), IdPath(p, Route(h, x, s, t)))
  {
    var r := Route(h, x, s, t);
    var q := IdPath(p, r);
    RouteSteps(p, h, x, s, t);
    assert forall y :: Listed(p, y) ==> g.IsSwitch(Id(p, y));
    hide Route, Realises, Adjacent, Exists, Listed, Id;
    forall k | 0 <= k < |q| - 1 ensures g.Up(q[k], q[k + 1]) {
      AdjacentMeansUp(g, p, r[k], r[k + 1]);
    }
    forall k | 0 < k < |q| - 1 ensures g.IsSwitch(q[k]) {
      assert Listed(p, r[k]);
    }
  }

  /** The routes have the fewest hops. */
  lemma RouteIsShortest(g: Graph, p: Params, h: Device, x: Device, s: nat, t: nat)
    requires Realises(g, p) && HostPair(p, h, x) && Suitable(p, h, x) && Choice(p, h, x, s, t)
    ensures g.MinHop(Id(p, h), Id(p, x), IdPath(p, Route(h, x, s, t)))
    ensures |Route(h, x, s, t)| == Hops(h, x) + 1
  {
    RouteIsPath(g, p, h, x, s, t);
    RouteSteps(p, h, x, s, t);
    IdsPartition(p, x);
    hide Route, Realises, Exists, Id;
    forall q | g.IsPathTo(Id(p, h), Id(p, x), q) ensures |q| >= Hops(h, x) + 1 {
      NoShortcut(g, p, h, q, |q| - 1);
    }
  }

  /** On a path that is as short as possible every stop is as far as its position says. */
  lemma {:induction false} StopsInOrder(g: Graph, p: Params, h: Device, x: Device, q: Path, k: nat)
    requires Realises(g, p) && p.Balanced() && HostPair(p, h, x)
    requires g.IsPathTo(Id(p, h), Id(p, x), q) && |q| == Hops(h, x) + 1 && k < |q|
    ensures 0 <= q[k] < p.Total() && Hops(h, DeviceOf(p, q[k])) == k
    decreases |q| - k
  {
    NoShortcut(g, p, h, q, k);
    if k == |q| - 1 {
      IdsPartition(p, x);
    } else {
      StopsInOrder(g, p, h, x, q, k + 1);
      assert g.Up(q[k], q[k + 1]);
      UpMeansAdjacent(g, p, q[k], q[k + 1]);
      OneHop(p, h, DeviceOf(p, q[k]), DeviceOf(p, q[k + 1]));
    }
  }

  /** The devices on a shortest path. */
  ghost predicate Stops(p: Params, h: Device, x: Device, r: seq<Device>) {
    && h.HostAt? && |r| == Hops(h, x) + 1 && r[0] == h && r[|r| - 1] == x
    && (forall k :: 0 <= k < |r| ==> Hops(h, r[k]) == k)
    && (forall k :: 0 <= k < |r| - 1 ==> Adjacent(p, r[k], r[k + 1]))
    && (forall k :: 0 < k < |r| - 1 ==> !r[k].HostAt?)
  }

  lemma ShortestStops(g: Graph, p: Params, h: Device, x: Device, q: Path) returns (r: seq<Device>)
    requires Realises(g, p) && HostPair(p, h, x) && Suitable(p, h, x) && g.MinHop(Id(p, h), Id(p, x), q)
    ensures Stops(p, h, x, r) && q == IdPath(p, r)
  {
    RouteIsShortest(g, p, h, x, 0, 0);
    assert |q| == Hops(h, x) + 1;
    forall k | 0 <= k < |q| ensures 0 <= q[k] < p.Total() && Hops(h, DeviceOf(p, q[k])) == k {
      StopsInOrder(g, p, h, x, q, k);
    }
    r := seq(|q|, k requires 0 <= k < |q| => DeviceOf(p, q[k]));
    IdsPartition(p, h);
    IdsPartition(p, x);
    forall k | 0 <= k < |q| ensures q[k] == Id(p, r[k]) {
      IdsCover(p, q[k]);
    }
    forall k | 0 <= k < |r| - 1 ensures Adjacent(p, r[k], r[k + 1]) {
      assert g.Up(q[k], q[k + 1]);
      UpMeansAdjacent(g, p, q[k], q[k + 1]);
    }
    forall k | 0 < k < |r| - 1 ensures !r[k].HostAt? {
      assert g.IsSwitch(q[k]);
      assert !g.IsHost(q[k]);
    }
  }

  /** The stops leave no choice but the spines. */
  lemma StopsAreRoute(p: Params, h: Device, x: Device, r: seq<Device>) returns (s: nat, t: nat)
    requires HostPair(p, h, x) && Suitable(p, h, x) && Stops(p, h, x, r)
    ensures Choice(p, h, x, s, t) && r == Route(h, x, s, t)
  {
    s, t := 0, 0;
    assert Adjacent(p, r[0], r[1]);
    if x.d == h.d && x.i == h.i {
    } else if x.d == h.d {
      assert Adjacent(p, r[1], r[2]) && Adjacent(p, r[3], r[4]);
      s := r[2].i;
    } else {
      assert Adjacent(p, r[1], r[2]) && Adjacent(p, r[2], r[3]) && Adjacent(p, r[3], r[4]);
      assert Adjacent(p, r[4], r[5]) && Adjacent(p, r[5], r[6]) && Adjacent(p, r[6], r[7]);
      s, t := r[2].i, r[5].i;
    }
  }

  ghost predicate IsRoute(p: Params, h: Device, x: Device, q: Path) {
    h.HostAt? && x.HostAt? && exists s: nat, t: nat :: RouteBy(p, h, x, q, s, t)
  }

  predicate RouteBy(p: Params, h: Device, x: Device, q: Path, s: nat, t: nat)
    requires h.HostAt? && x.HostAt?
  {
    Choice(p, h, x, s, t) && q == IdPath(p, Route(h, x, s, t))
  }

  /** The shortest paths between two hosts: as many hops as `Hops` says, and one path for each choice of
      spines. */
  lemma ShortestPaths(g: Graph, p: Params, h: Device, x: Device, q: Path)
    requires Realises(g, p) && HostPair(p, h, x) && Suitable(p, h, x)
    ensures g.MinHop(Id(p, h), Id(p, x), q) <==> IsRoute(p, h, x, q)
    ensures g.Dist(Id(p, h), Id(p, x), Hops(h, x))
  {
    RouteIsShortest(g, p, h, x, 0, 0);
    hide Realises, Id, Route, Hops, Stops, Graph.MinHop;
    if g.MinHop(Id(p, h), Id(p, x), q) {
      var r := ShortestStops(g, p, h, x, q);
      var s, t := StopsAreRoute(p, h, x, r);
      assert RouteBy(p, h, x, q, s, t);
    }
    if IsRoute(p, h, x, q) {
      var s: nat, t: nat :| RouteBy(p, h, x, q, s, t);
      RouteIsShortest(g, p, h, x, s, t);
    }
  }

  // ---- Where there is no way ----

  /** What can be reached from h: its leaf, its data centre, or everything. */
  predicate Near(p: Params, h: Device, x: Device) {
    if p.spinesPerDc == 0 then (x.HostAt? || x.LeafAt?) && x.d == h.d && h.HostAt? && x.i == h.i
    else p.dciPerDc == 0 ==> x.d == h.d
  }

  lemma {:induction false} StaysNear(g: Graph, p: Params, h: Device, q: Path, k: nat)
    requires Realises(g, p) && p.Balanced() && h.HostAt? && Exists(p, h)
    requires g.IsPath(Id(p, h), q) && k < |q|
    ensures 0 <= q[k] < p.Total() && Near(p, h, DeviceOf(p, q[k]))
  {
    IdsPartition(p, h);
    if k > 0 {
      StaysNear(g, p, h, q, k - 1);
      assert g.Up(q[k - 1], q[k - 1 + 1]);
      UpMeansAdjacent(g, p, q[k - 1], q[k]);
    }
  }

  /** Two hosts reach each other exactly if there are the spines and the DCI switches between them. */
  lemma ReachedIfSuitable(g: Graph, p: Params, h: Device, x: Device)
    requires Realises(g, p) && p.Balanced() && HostPair(p, h, x)
    ensures g.Reached(Id(p, h), Id(p, x)) <==> Suitable(p, h, x)
  {
    if Suitable(p, h, x) {
      RouteIsShortest(g, p, h, x, 0, 0);
    }
    if q :| g.MinHop(Id(p, h), Id(p, x), q) {
      StaysNear(g, p, h, q, |q| - 1);
      IdsPartition(p, x);
    }
  }

  // ---- How many ----

  /** One, S or S * S shortest paths, for S spines in each data centre. */
  function PathCount(p: Params, h: Device, x: Device): nat
    requires h.HostAt? && x.HostAt?
  {
    if x.d != h.d then p.spinesPerDc * p.spinesPerDc else if x.i != h.i then p.spinesPerDc else 1
  }

  /** The spines of route number n. */
  function SpinesOf(p: Params, h: Device, x: Device, n: nat): (nat, nat) {
    if h.d == x.d || p.spinesPerDc == 0 then (n, 0) else (n / p.spinesPerDc, n % p.spinesPerDc)
  }

  function RouteNumber(p: Params, h: Device, x: Device, n: nat): Path
    requires h.HostAt? && x.HostAt?
  {
    IdPath(p, Route(h, x, SpinesOf(p, h, x, n).0, SpinesOf(p, h, x, n).1))
  }

  function AllRoutes(p: Params, h: Device, x: Device): (r: seq<Path>)
    requires h.HostAt? && x.HostAt?
    ensures |r| == PathCount(p, h, x) && forall n :: 0 <= n < |r| ==> r[n] == RouteNumber(p, h, x, n)
  {
    seq(PathCount(p, h, x), n requires 0 <= n < PathCount(p, h, x) => RouteNumber(p, h, x, n))
  }

  lemma SameRoute(p: Params, h: Device, x: Device, s: nat, t: nat, s': nat, t': nat)
    requires HostPair(p, h, x) && IdPath(p, Route(h, x, s, t)) == IdPath(p, Route(h, x, s', t'))
    ensures x.d != h.d || x.i != h.i ==> s == s'
    ensures x.d != h.d ==> t == t'
  {
    var q, q' := IdPath(p, Route(h, x, s, t)), IdPath(p, Route(h, x, s', t'));
    if x.d != h.d || x.i != h.i {
      assert q[2] == Id(p, SpineAt(h.d, s)) && q'[2] == Id(p, SpineAt(h.d, s'));
    }
    if x.d != h.d {
      assert q[5] == Id(p, SpineAt(x.d, t)) && q'[5] == Id(p, SpineAt(x.d, t'));
    }
  }

  lemma SpinesInRange(p: Params, h: Device, x: Device, n: nat)
    requires HostPair(p, h, x) && Suitable(p, h, x) && n < PathCount(p, h, x)
    ensures Choice(p, h, x, SpinesOf(p, h, x, n).0, SpinesOf(p, h, x, n).1)
    ensures x.d != h.d ==> n == SpinesOf(p, h, x, n).0 * p.spinesPerDc + SpinesOf(p, h, x, n).1
  {
    if x.d != h.d { Row(p.spinesPerDc, p.spinesPerDc, n); }
  }

  lemma RoutesDistinct(p: Params, h: Device, x: Device, m: nat, n: nat)
    requires HostPair(p, h, x) && Suitable(p, h, x) && m < n < PathCount(p, h, x)
    ensures RouteNumber(p, h, x, m) != RouteNumber(p, h, x, n)
  {
    SpinesInRange(p, h, x, m);
    SpinesInRange(p, h, x, n);
    if RouteNumber(p, h, x, m) == RouteNumber(p, h, x, n) {
      var (s, t) := SpinesOf(p, h, x, m);
      var (s', t') := SpinesOf(p, h, x, n);
      SameRoute(p, h, x, s, t, s', t');
    }
  }

  lemma RouteHasNumber(p: Params, h: Device, x: Device, q: Path) returns (n: nat)
    requires HostPair(p, h, x) && Suitable(p, h, x) && IsRoute(p, h, x, q)
    ensures n < PathCount(p, h, x) && q == RouteNumber(p, h, x, n)
  {
    var s: nat, t: nat :| RouteBy(p, h, x, q, s, t);
    if x.d != h.d {
      n := s * p.spinesPerDc + t;
      Cell(p.spinesPerDc, p.spinesPerDc, s, t);
      DivMod(p.spinesPerDc, s, t);
    } else {
      n := if x.i != h.i then s else 0;
      assert Route(h, x, s, t) == Route(h, x, n, 0);
    }
  }

  /** Any list of the shortest paths, each once, has that many. */
  lemma ShortestPathCount(g: Graph, p: Params, h: Device, x: Device, list: seq<Path>)
    requires Realises(g, p) && HostPair(p, h, x) && Suitable(p, h, x)
    requires Distinct(list) && forall q :: q in list <==> g.MinHop(Id(p, h), Id(p, x), q)
    ensures |list| == PathCount(p, h, x)
  {
    var all := AllRoutes(p, h, x);
    forall m, n | 0 <= m < n < |all| ensures all[m] != all[n] {
      RoutesDistinct(p, h, x, m, n);
    }
    forall q ensures q in list <==> q in all {
      ShortestPaths(g, p, h, x, q);
      ListedRoutes(p, h, x, q);
    }
    SameItems(list, all);
  }

  lemma ListedRoutes(p: Params, h: Device, x: Device, q: Path)
    requires HostPair(p, h, x) && Suitable(p, h, x)
    ensures q in AllRoutes(p, h, x) <==> IsRoute(p, h, x, q)
  {
    var all := AllRoutes(p, h, x);
    hide IsRoute, RouteNumber;
    if IsRoute(p, h, x, q) {
      var n := RouteHasNumber(p, h, x, q);
      assert all[n] == q;
    }
    if q in all {
      var n: nat :| n < |all| && all[n] == q;
      NumberIsRoute(p, h, x, n);
    }
  }

  lemma NumberIsRoute(p: Params, h: Device, x: Device, n: nat)
    requires HostPair(p, h, x) && Suitable(p, h, x) && n < PathCount(p, h, x)
    ensures IsRoute(p, h, x, RouteNumber(p, h, x, n))
  {
    SpinesInRange(p, h, x, n);
    assert RouteBy(p, h, x, RouteNumber(p, h, x, n), SpinesOf(p, h, x, n).0, SpinesOf(p, h, x, n).1);
  }

  /** The route computation enumerates that many paths between two hosts. */
  lemma EnumeratedPathCount(g: Graph, p: Params, payload: nat, h: Device, x: Device, paths: Exploration.NodePaths)
    requires Realises(g, p) && HostPair(p, h, x) && Suitable(p, h, x)
    requires Exploration.ExactPaths(g, payload, Id(p, h), paths)
    ensures Id(p, x) in paths && |paths[Id(p, x)]| == PathCount(p, h, x)
    ensures forall k :: 0 <= k < |paths[Id(p, x)]| ==> |paths[Id(p, x)][k].path| == Hops(h, x) + 1
  {
    var from, v := Id(p, h), Id(p, x);
    RouteIsShortest(g, p, h, x, 0, 0);
    assert g.Reached(from, v);
    hide Realises, Id, Route, Hops, HostPair, Suitable, PathCount, Graph.MinHop;
    var list := PathList(g, payload, from, v, paths);
    ShortestPathCount(g, p, h, x, list);
    forall k | 0 <= k < |list| ensures |paths[v][k].path| == Hops(h, x) + 1 {
      assert list[k] in list;
      SameLength(g, from, v, list[k], IdPath(p, Route(h, x, 0, 0)));
    }
  }

  lemma SameLength(g: Graph, from: Node, v: Node, q: Path, r: Path)
    requires g.MinHop(from, v, q) && g.MinHop(from, v, r)
    ensures |q| == |r|
  {}

  /** The paths of the entries that the route computation lists. */
  lemma PathList(g: Graph, payload: nat, from: Node, v: Node, paths: Exploration.NodePaths) returns (list: seq<Path>)
    requires Exploration.ExactPaths(g, payload, from, paths) && v in paths
    ensures |list| == |paths[v]| && forall k :: 0 <= k < |list| ==> list[k] == paths[v][k].path
    ensures Distinct(list) && forall q :: q in list <==> g.MinHop(from, v, q)
  {
    hide Graph.MinHop, Exploration.IsMeasure;
    var infos := paths[v];
    list := seq(|infos|, k requires 0 <= k < |infos| => infos[k].path);
    assert Exploration.Measured(g, payload, infos);
    forall q ensures q in list <==> g.MinHop(from, v, q) {
      assert Exploration.HasPath(infos, q) <==> g.MinHop(from, v, q);
      if Exploration.HasPath(infos, q) {
        var k :| 0 <= k < |infos| && infos[k].path == q;
        assert list[k] == q;
      }
      if q in list {
        var k :| 0 <= k < |list| && list[k] == q;
        assert infos[k].path == q;
      }
    }
  }
}
