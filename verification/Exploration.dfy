/**
 What the breadth-first search of `CalculateRoute` knows at every moment: `q` is the
 queue, `q[..i]` has been expanded, and `done` are the neighbours of `q[i]` already visited.
 */
module Exploration {
  import opened Basics
  import opened NetGraph

  type NodePaths = map<Node, seq<PathInfo>>
  type HopTable = map<Node, map<Node, seq<Node>>>

  function Hops(t: HopTable, v: Node, h: Node): seq<Node> {
    if v in t && h in t[v] then t[v][h] else []
  }

  function AddHop(t: HopTable, v: Node, h: Node, u: Node): HopTable {
    t[v := (if v in t then t[v] else map[])[h := Hops(t, v, h) + [u]]]
  }

  function PathsAt(paths: NodePaths, v: Node): seq<PathInfo> {
    if v in paths then paths[v] else []
  }

  ghost predicate HasPath(s: seq<PathInfo>, p: Path) {
    exists k :: 0 <= k < |s| && s[k].path == p
  }

  /** Every entry of s lists its path with that path's own figures, and no path is listed twice. */
  ghost predicate Measured(g: Graph, payload: nat, s: seq<PathInfo>) {
    && (forall k :: 0 <= k < |s| ==> IsMeasure(g, payload, s[k]))
    && (forall j, k :: 0 <= j < k < |s| ==> s[j].path != s[k].path)
  }

  ghost predicate IsMeasure(g: Graph, payload: nat, m: PathInfo) {
    && |m.path| > 0
    && (forall i :: 0 <= i < |m.path| - 1 ==> g.Carries(m.path[i], m.path[i + 1]))
    && m == g.Measure(payload, m.path)
  }

  /** Each listed path, continued over one link. */
  function Continued(payload: nat, s: seq<PathInfo>, next: Node, link: Interface): (r: seq<PathInfo>)
    requires link.bw > 0
    ensures |r| == |s| && forall k :: 0 <= k < |s| ==> r[k] == Stretch(payload, s[k], next, link)
  {
    seq(|s|, k requires 0 <= k < |s| => Stretch(payload, s[k], next, link))
  }

  // ---- The invariant ----

  /** The link from `q[j]` to v has been looked at. */
  ghost predicate Seen(i: nat, done: set<Node>, j: nat, v: Node) {
    j < i || (j == i && v in done)
  }

  ghost predicate Expanded(q: seq<Node>, i: nat, done: set<Node>, u: Node, v: Node) {
    exists j: nat :: j < |q| && q[j] == u && Seen(i, done, j, v)
  }

  ghost predicate QueueInv(g: Graph, h: Node, q: seq<Node>, i: nat, dis: map<Node, nat>) {
    && i <= |q| && |q| > 0 && q[0] == h
    && h in dis && dis[h] == 0
    && (forall j :: 0 <= j < |q| ==> q[j] in dis && (q[j] == h || g.IsSwitch(q[j])))
    && (forall j, k :: 0 <= j < k < |q| ==> q[j] != q[k] && dis[q[j]] <= dis[q[k]])
    && (forall v :: v in dis && (v == h || g.IsSwitch(v)) ==> v in q)
    && (forall v :: v in dis && dis[v] == 0 ==> v == h)
    && (i < |q| ==> forall v :: v in dis ==> dis[v] <= dis[q[i]] + 1)
  }

  ghost predicate EdgeInv(g: Graph, q: seq<Node>, i: nat, done: set<Node>, dis: map<Node, nat>)
    requires i <= |q| && forall j :: 0 <= j < |q| ==> q[j] in dis
  {
    forall j: nat, v: Node :: j < |q| && Seen(i, done, j, v) && g.Up(q[j], v) ==>
      v in dis && dis[v] <= dis[q[j]] + 1
  }

  /** `paths[v]` lists exactly the paths to v of length `dis[v]` whose last link has been looked at. */
  ghost predicate PathsInv(g: Graph, h: Node, payload: nat, q: seq<Node>, i: nat, done: set<Node>,
                           dis: map<Node, nat>, paths: NodePaths)
    requires i <= |q|
  {
    && paths.Keys == dis.Keys
    && forall v :: v in dis ==> ListInv(g, h, payload, q, i, done, dis, v, paths[v])
  }

  ghost predicate ListInv(g: Graph, h: Node, payload: nat, q: seq<Node>, i: nat, done: set<Node>,
                          dis: map<Node, nat>, v: Node, s: seq<PathInfo>)
    requires i <= |q| && v in dis
  {
    && |s| > 0 && Measured(g, payload, s)
    && forall p :: HasPath(s, p) <==> Listed(g, h, q, i, done, dis, v, p)
  }

  ghost predicate Listed(g: Graph, h: Node, q: seq<Node>, i: nat, done: set<Node>,
                         dis: map<Node, nat>, v: Node, p: Path)
    requires i <= |q| && v in dis
  {
    g.IsPathTo(h, v, p) && |p| == dis[v] + 1 && (|p| > 1 ==> Expanded(q, i, done, p[|p| - 2], v))
  }

  /** The hop lists grew by exactly the expanded neighbours one hop closer to h. */
  ghost predicate HopsInv(g: Graph, h: Node, q: seq<Node>, i: nat, done: set<Node>, dis: map<Node, nat>,
                          before: HopTable, hops: HopTable)
    requires i <= |q|
  {
    && (forall v: Node, u: Node :: u in Hops(hops, v, h) <==>
          u in Hops(before, v, h) || Closer(g, q, i, done, dis, v, u))
    && (forall v: Node :: Hops(before, v, h) == [] ==> Distinct(Hops(hops, v, h)))
    && (forall v: Node, x: Node :: x != h ==> Hops(hops, v, x) == Hops(before, v, x))
  }

  ghost predicate Closer(g: Graph, q: seq<Node>, i: nat, done: set<Node>, dis: map<Node, nat>, v: Node, u: Node)
    requires i <= |q|
  {
    Expanded(q, i, done, u, v) && g.Up(u, v) && u in dis && v in dis && dis[v] == dis[u] + 1
  }

  ghost predicate SearchInv(g: Graph, h: Node, payload: nat, q: seq<Node>, i: nat, done: set<Node>,
                            dis: map<Node, nat>, paths: NodePaths, before: HopTable, hops: HopTable)
  {
    && QueueInv(g, h, q, i, dis) && EdgeInv(g, q, i, done, dis)
    && PathsInv(g, h, payload, q, i, done, dis, paths) && HopsInv(g, h, q, i, done, dis, before, hops)
  }

  // ---- A path no longer than the current level has been found already ----

  lemma {:induction false} ShortPathFound(g: Graph, h: Node, q: seq<Node>, i: nat, done: set<Node>,
                                          dis: map<Node, nat>, p: Path)
    requires QueueInv(g, h, q, i, dis) && EdgeInv(g, q, i, done, dis)
    requires g.IsPath(h, p)
    requires i < |q| ==> |p| - 1 <= dis[q[i]]
    ensures p[|p| - 1] in dis && dis[p[|p| - 1]] <= |p| - 1
    decreases |p|
  {
    if |p| > 1 {
      PathInit(g, h, p);
      var s, u := p[..|p| - 1], p[|p| - 2];
      ShortPathFound(g, h, q, i, done, dis, s);
      if |p| == 2 { assert u == h; }
      assert u in q;
      var j :| 0 <= j < |q| && q[j] == u;
      assert j < i;
      assert Seen(i, done, j, p[|p| - 1]);
    }
  }

  /** When a node is about to be expanded, its list of paths is complete. */
  lemma CompleteBeforeExpansion(g: Graph, h: Node, payload: nat, q: seq<Node>, i: nat, done: set<Node>,
                                dis: map<Node, nat>, paths: NodePaths, p: Path)
    requires QueueInv(g, h, q, i, dis) && EdgeInv(g, q, i, done, dis)
    requires PathsInv(g, h, payload, q, i, done, dis, paths)
    requires i < |q|
    ensures HasPath(paths[q[i]], p) <==> g.IsPathTo(h, q[i], p) && |p| == dis[q[i]] + 1
  {
    if g.IsPathTo(h, q[i], p) && |p| == dis[q[i]] + 1 && |p| > 1 {
      PathInit(g, h, p);
      var s, u := p[..|p| - 1], p[|p| - 2];
      ShortPathFound(g, h, q, i, done, dis, s);
      if |p| == 2 { assert u == h; }
      var j :| 0 <= j < |q| && q[j] == u;
      assert j < i;
      assert Seen(i, done, j, q[i]);
    }
    assert Listed(g, h, q, i, done, dis, q[i], p) <==> HasPath(paths[q[i]], p);
  }

  // ---- One neighbour visited ----

  function VisitDis(g: Graph, now: Node, next: Node, dis: map<Node, nat>): map<Node, nat>
    requires now in dis
  {
    if next !in dis then dis[next := dis[now] + 1] else dis
  }

  function VisitQueue(g: Graph, next: Node, dis: map<Node, nat>, q: seq<Node>): seq<Node> {
    if next !in dis && g.IsSwitch(next) then q + [next] else q
  }

  predicate Takes(now: Node, next: Node, dis: map<Node, nat>)
    requires now in dis
  {
    next !in dis || dis[now] + 1 == dis[next]
  }

  function VisitPaths(g: Graph, payload: nat, now: Node, next: Node, dis: map<Node, nat>, paths: NodePaths): NodePaths
    requires now in dis && now in paths && g.Carries(now, next)
  {
    if Takes(now, next, dis) then
      paths[next := PathsAt(paths, next) + Continued(payload, paths[now], next, g.nbr[now][next])]
    else paths
  }

  function VisitHops(h: Node, now: Node, next: Node, dis: map<Node, nat>, hops: HopTable): HopTable
    requires now in dis
  {
    if next !in dis || (Takes(now, next, dis) && now !in Hops(hops, next, h)) then AddHop(hops, next, h, now) else hops
  }

  lemma VisitKeepsQueue(g: Graph, h: Node, q: seq<Node>, i: nat, dis: map<Node, nat>, next: Node)
    requires QueueInv(g, h, q, i, dis) && i < |q|
    ensures QueueInv(g, h, VisitQueue(g, next, dis, q), i, VisitDis(g, q[i], next, dis))
  {
    if next !in dis {
      var q', dis' := VisitQueue(g, next, dis, q), VisitDis(g, q[i], next, dis);
      assert forall j :: 0 <= j < |q| ==> q'[j] == q[j] && dis'[q[j]] == dis[q[j]];
      forall v | v in dis' && (v == h || g.IsSwitch(v)) ensures v in q' {
        if v in dis {
          var k :| 0 <= k < |q| && q[k] == v;
          assert q'[k] == v;
        } else {
          assert q'[|q|] == v;
        }
      }
    }
  }

  lemma VisitKeepsEdges(g: Graph, h: Node, q: seq<Node>, i: nat, done: set<Node>, dis: map<Node, nat>, next: Node)
    requires QueueInv(g, h, q, i, dis) && EdgeInv(g, q, i, done, dis)
    requires i < |q| && g.Up(q[i], next) && next !in done
    requires QueueInv(g, h, VisitQueue(g, next, dis, q), i, VisitDis(g, q[i], next, dis))
    ensures EdgeInv(g, VisitQueue(g, next, dis, q), i, done + {next}, VisitDis(g, q[i], next, dis))
  {
    var q', dis' := VisitQueue(g, next, dis, q), VisitDis(g, q[i], next, dis);
    forall j: nat, v: Node | j < |q'| && Seen(i, done + {next}, j, v) && g.Up(q'[j], v)
      ensures v in dis' && dis'[v] <= dis'[q'[j]] + 1
    {
      assert q'[j] == q[j];
      if v != next || j < i {
        assert Seen(i, done, j, v);
      }
    }
  }

  lemma ExpandedStep(q: seq<Node>, q': seq<Node>, i: nat, done: set<Node>, next: Node, u: Node, v: Node)
    requires i < |q| <= |q'| && q'[..|q|] == q
    ensures Expanded(q', i, done + {next}, u, v) <==> Expanded(q, i, done, u, v) || (u == q[i] && v == next)
  {
    assert forall j :: 0 <= j < |q| ==> q'[..|q|][j] == q'[j];
    if Expanded(q', i, done + {next}, u, v) {
      var j: nat :| j < |q'| && q'[j] == u && Seen(i, done + {next}, j, v);
      assert q[j] == u;
      assert Seen(i, done, j, v) || (j == i && v == next);
    }
    if Expanded(q, i, done, u, v) {
      var j: nat :| j < |q| && q[j] == u && Seen(i, done, j, v);
      assert q'[j] == u && Seen(i, done + {next}, j, v);
    }
    if u == q[i] && v == next {
      assert q'[i] == u && Seen(i, done + {next}, i, v);
    }
  }

  lemma MeasureStretch(g: Graph, payload: nat, m: PathInfo, next: Node)
    requires IsMeasure(g, payload, m) && g.Carries(m.path[|m.path| - 1], next)
    ensures IsMeasure(g, payload, Stretch(payload, m, next, g.nbr[m.path[|m.path| - 1]][next]))
  {
    var s, p := m.path, m.path + [next];
    forall k | 0 <= k < |p| - 1 ensures g.Carries(p[k], p[k + 1]) {
      if k < |s| - 1 { assert g.Carries(s[k], s[k + 1]); }
    }
    assert p[..|p| - 1] == s;
  }

  lemma ContinuedPaths(payload: nat, s: seq<PathInfo>, next: Node, link: Interface, p: Path)
    requires link.bw > 0
    ensures HasPath(Continued(payload, s, next, link), p) <==>
      |p| > 0 && p[|p| - 1] == next && HasPath(s, p[..|p| - 1])
  {
    var r := Continued(payload, s, next, link);
    if HasPath(r, p) {
      var k :| 0 <= k < |r| && r[k].path == p;
      assert p[..|p| - 1] == s[k].path;
    }
    if |p| > 0 && p[|p| - 1] == next && HasPath(s, p[..|p| - 1]) {
      var k :| 0 <= k < |s| && s[k].path == p[..|p| - 1];
      assert r[k].path == p;
    }
  }

  lemma HasPathConcat(a: seq<PathInfo>, b: seq<PathInfo>, p: Path)
    ensures HasPath(a + b, p) <==> HasPath(a, p) || HasPath(b, p)
  {
    if HasPath(a, p) {
      var k :| 0 <= k < |a| && a[k].path == p;
      assert (a + b)[k].path == p;
    }
    if HasPath(b, p) {
      var k :| 0 <= k < |b| && b[k].path == p;
      assert (a + b)[|a| + k].path == p;
    }
  }

  /** The list of `next` after the visit, when the visit adds to it. */
  lemma VisitLists(g: Graph, h: Node, payload: nat, q: seq<Node>, i: nat, done: set<Node>, dis: map<Node, nat>,
                   paths: NodePaths, next: Node, p: Path)
    requires g.Valid() && QueueInv(g, h, q, i, dis) && EdgeInv(g, q, i, done, dis)
    requires PathsInv(g, h, payload, q, i, done, dis, paths)
    requires i < |q| && g.Carries(q[i], next) && next !in done && Takes(q[i], next, dis)
    ensures
      var q', dis' := VisitQueue(g, next, dis, q), VisitDis(g, q[i], next, dis);
      HasPath(VisitPaths(g, payload, q[i], next, dis, paths)[next], p) <==>
        Listed(g, h, q', i, done + {next}, dis', next, p)
  {
    var now := q[i];
    var q', dis' := VisitQueue(g, next, dis, q), VisitDis(g, now, next, dis);
    var link := g.nbr[now][next];
    HasPathConcat(PathsAt(paths, next), Continued(payload, paths[now], next, link), p);
    ContinuedPaths(payload, paths[now], next, link, p);
    if |p| > 0 { CompleteBeforeExpansion(g, h, payload, q, i, done, dis, paths, p[..|p| - 1]); }
    if |p| > 1 {
      ExpandedStep(q, q', i, done, next, p[|p| - 2], next);
      if next !in dis && Expanded(q, i, done, p[|p| - 2], next) && g.IsPathTo(h, next, p) {
        PathInit(g, h, p);
        assert false;
      }
      if g.IsPathTo(h, next, p) && |p| == dis'[next] + 1 && p[|p| - 2] == now {
        PathInit(g, h, p);
      }
      if p[|p| - 1] == next && g.IsPathTo(h, now, p[..|p| - 1]) && |p| - 1 == dis[now] + 1 {
        PathSnoc(g, h, p[..|p| - 1], next);
        assert p[..|p| - 1] + [next] == p;
      }
    }
  }

  lemma OtherListKept(g: Graph, h: Node, payload: nat, q: seq<Node>, i: nat, done: set<Node>, dis: map<Node, nat>,
                      v: Node, s: seq<PathInfo>, next: Node)
    requires QueueInv(g, h, q, i, dis) && EdgeInv(g, q, i, done, dis) && i < |q| && v in dis
    requires ListInv(g, h, payload, q, i, done, dis, v, s)
    requires v != next || !Takes(q[i], next, dis)
    ensures
      var q', dis' := VisitQueue(g, next, dis, q), VisitDis(g, q[i], next, dis);
      ListInv(g, h, payload, q', i, done + {next}, dis', v, s)
  {
    var q', dis' := VisitQueue(g, next, dis, q), VisitDis(g, q[i], next, dis);
    forall p ensures HasPath(s, p) <==> Listed(g, h, q', i, done + {next}, dis', v, p) {
      assert HasPath(s, p) <==> Listed(g, h, q, i, done, dis, v, p);
      if |p| > 1 { ExpandedStep(q, q', i, done, next, p[|p| - 2], v); }
      if v == next && g.IsPathTo(h, v, p) && |p| > 1 && |p| == dis[v] + 1 && p[|p| - 2] == q[i] {
        PathInit(g, h, p);
        ShortPathFound(g, h, q, i, done, dis, p[..|p| - 1]);
      }
    }
  }

  lemma VisitKeepsPaths(g: Graph, h: Node, payload: nat, q: seq<Node>, i: nat, done: set<Node>, dis: map<Node, nat>,
                        paths: NodePaths, next: Node)
    requires g.Valid() && QueueInv(g, h, q, i, dis) && EdgeInv(g, q, i, done, dis)
    requires PathsInv(g, h, payload, q, i, done, dis, paths)
    requires i < |q| && g.Carries(q[i], next) && next !in done
    ensures
      var q', dis' := VisitQueue(g, next, dis, q), VisitDis(g, q[i], next, dis);
      PathsInv(g, h, payload, q', i, done + {next}, dis', VisitPaths(g, payload, q[i], next, dis, paths))
  {
    var now := q[i];
    var q', dis' := VisitQueue(g, next, dis, q), VisitDis(g, now, next, dis);
    var paths' := VisitPaths(g, payload, now, next, dis, paths);
    forall v | v in dis' ensures ListInv(g, h, payload, q', i, done + {next}, dis', v, paths'[v]) {
      if v != next || !Takes(now, next, dis) {
        OtherListKept(g, h, payload, q, i, done, dis, v, paths[v], next);
      } else {
        assert ListInv(g, h, payload, q, i, done, dis, now, paths[now]);
        VisitMeasured(g, h, payload, q, i, done, dis, paths, next);
        forall p ensures HasPath(paths'[next], p) <==> Listed(g, h, q', i, done + {next}, dis', next, p) {
          VisitLists(g, h, payload, q, i, done, dis, paths, next, p);
        }
      }
    }
  }

  lemma MeasuredConcat(g: Graph, payload: nat, a: seq<PathInfo>, b: seq<PathInfo>)
    requires Measured(g, payload, a) && Measured(g, payload, b)
    requires forall p :: HasPath(b, p) ==> !HasPath(a, p)
    ensures Measured(g, payload, a + b)
  {
    var s := a + b;
    forall j, k | 0 <= j < k < |s| ensures s[j].path != s[k].path {
      if j < |a| <= k {
        assert HasPath(b, b[k - |a|].path) && HasPath(a, a[j].path);
      }
    }
  }

  lemma MeasuredContinued(g: Graph, payload: nat, s: seq<PathInfo>, now: Node, next: Node)
    requires Measured(g, payload, s) && g.Carries(now, next)
    requires forall k :: 0 <= k < |s| ==> |s[k].path| > 0 && s[k].path[|s[k].path| - 1] == now
    ensures Measured(g, payload, Continued(payload, s, next, g.nbr[now][next]))
  {
    var b := Continued(payload, s, next, g.nbr[now][next]);
    forall k | 0 <= k < |b| ensures IsMeasure(g, payload, b[k]) {
      MeasureStretch(g, payload, s[k], next);
    }
    forall j, k | 0 <= j < k < |b| ensures b[j].path != b[k].path {
      assert b[j].path[..|b[j].path| - 1] == s[j].path;
      assert b[k].path[..|b[k].path| - 1] == s[k].path;
    }
  }

  lemma VisitMeasured(g: Graph, h: Node, payload: nat, q: seq<Node>, i: nat, done: set<Node>, dis: map<Node, nat>,
                      paths: NodePaths, next: Node)
    requires g.Valid() && QueueInv(g, h, q, i, dis)
    requires PathsInv(g, h, payload, q, i, done, dis, paths)
    requires i < |q| && g.Carries(q[i], next) && next !in done
    ensures Measured(g, payload, PathsAt(paths, next) + Continued(payload, paths[q[i]], next, g.nbr[q[i]][next]))
  {
    var now := q[i];
    var a, s := PathsAt(paths, next), paths[now];
    var link := g.nbr[now][next];
    assert ListInv(g, h, payload, q, i, done, dis, now, s);
    assert next in dis ==> ListInv(g, h, payload, q, i, done, dis, next, a);
    forall k | 0 <= k < |s| ensures |s[k].path| > 0 && s[k].path[|s[k].path| - 1] == now {
      assert HasPath(s, s[k].path);
    }
    MeasuredContinued(g, payload, s, now, next);
    forall p | HasPath(Continued(payload, s, next, link), p) ensures !HasPath(a, p) {
      ContinuedPaths(payload, s, next, link, p);
      if HasPath(a, p) {
        assert false;
      }
    }
    MeasuredConcat(g, payload, a, Continued(payload, s, next, link));
  }

  lemma VisitKeepsHops(g: Graph, h: Node, q: seq<Node>, i: nat, done: set<Node>, dis: map<Node, nat>,
                       before: HopTable, hops: HopTable, next: Node)
    requires QueueInv(g, h, q, i, dis)
    requires HopsInv(g, h, q, i, done, dis, before, hops)
    requires i < |q| && g.Up(q[i], next) && next !in done
    requires forall u :: Expanded(q, i, done, u, next) && g.Up(u, next) ==> next in dis
    ensures
      var q', dis' := VisitQueue(g, next, dis, q), VisitDis(g, q[i], next, dis);
      HopsInv(g, h, q', i, done + {next}, dis', before, VisitHops(h, q[i], next, dis, hops))
  {
    var now := q[i];
    var q', dis' := VisitQueue(g, next, dis, q), VisitDis(g, now, next, dis);
    var hops' := VisitHops(h, now, next, dis, hops);
    forall v: Node, u: Node
      ensures u in Hops(hops', v, h) <==> u in Hops(before, v, h) || Closer(g, q', i, done + {next}, dis', v, u)
    {
      VisitHopMember(g, h, q, i, done, dis, before, hops, next, v, u);
    }
    forall v: Node | Hops(before, v, h) == [] ensures Distinct(Hops(hops', v, h)) {
      assert Distinct(Hops(hops, v, h));
      if v == next {
        VisitHopsDistinct(g, h, q, i, done, dis, before, hops, next);
      } else {
        assert Hops(hops', v, h) == Hops(hops, v, h);
      }
    }
    forall v: Node, x: Node | x != h ensures Hops(hops', v, x) == Hops(before, v, x) {
      assert Hops(hops', v, x) == Hops(hops, v, x);
    }
  }

  lemma VisitHopsDistinct(g: Graph, h: Node, q: seq<Node>, i: nat, done: set<Node>, dis: map<Node, nat>,
                          before: HopTable, hops: HopTable, next: Node)
    requires i < |q| && q[i] in dis && Hops(before, next, h) == [] && Distinct(Hops(hops, next, h))
    requires forall u :: u in Hops(hops, next, h) ==> Closer(g, q, i, done, dis, next, u)
    ensures Distinct(Hops(VisitHops(h, q[i], next, dis, hops), next, h))
  {
    var listed := Hops(hops, next, h);
    if listed != [] {
      var u := listed[0];
      assert u in Hops(hops, next, h);
      assert Closer(g, q, i, done, dis, next, u);
    }
  }

  lemma VisitHopMember(g: Graph, h: Node, q: seq<Node>, i: nat, done: set<Node>, dis: map<Node, nat>,
                       before: HopTable, hops: HopTable, next: Node, v: Node, u: Node)
    requires i < |q| && forall j :: 0 <= j < |q| ==> q[j] in dis
    requires u in Hops(hops, v, h) <==> u in Hops(before, v, h) || Closer(g, q, i, done, dis, v, u)
    requires g.Up(q[i], next) && next !in done
    requires Expanded(q, i, done, u, next) && g.Up(u, next) ==> next in dis
    ensures
      var q', dis' := VisitQueue(g, next, dis, q), VisitDis(g, q[i], next, dis);
      u in Hops(VisitHops(h, q[i], next, dis, hops), v, h) <==>
        u in Hops(before, v, h) || Closer(g, q', i, done + {next}, dis', v, u)
  {
    var now := q[i];
    var q', dis' := VisitQueue(g, next, dis, q), VisitDis(g, now, next, dis);
    var hops' := VisitHops(h, now, next, dis, hops);
    ExpandedStep(q, q', i, done, next, u, v);
    if Expanded(q, i, done, u, v) {
      assert u in q;
    }
    if v != next {
      assert Hops(hops', v, h) == Hops(hops, v, h);
    }
  }

  lemma VisitAllowed(g: Graph, h: Node, payload: nat, q: seq<Node>, i: nat, done: set<Node>, dis: map<Node, nat>,
                     paths: NodePaths, before: HopTable, hops: HopTable, next: Node)
    requires g.Valid() && SearchInv(g, h, payload, q, i, done, dis, paths, before, hops)
    requires i < |q| && g.Up(q[i], next)
    ensures q[i] in dis && paths.Keys == dis.Keys && |paths[q[i]]| > 0
    ensures g.Carries(q[i], next)
  {
    assert ListInv(g, h, payload, q, i, done, dis, q[i], paths[q[i]]);
  }

  /** Visiting a neighbour over an up link keeps the whole invariant. */
  lemma VisitKeepsAll(g: Graph, h: Node, payload: nat, q: seq<Node>, i: nat, done: set<Node>, dis: map<Node, nat>,
                      paths: NodePaths, before: HopTable, hops: HopTable, next: Node)
    requires g.Valid() && SearchInv(g, h, payload, q, i, done, dis, paths, before, hops)
    requires i < |q| && g.Up(q[i], next) && next !in done
    ensures
      SearchInv(g, h, payload, VisitQueue(g, next, dis, q), i, done + {next}, VisitDis(g, q[i], next, dis),
                VisitPaths(g, payload, q[i], next, dis, paths), before, VisitHops(h, q[i], next, dis, hops))
  {
    VisitKeepsQueue(g, h, q, i, dis, next);
    VisitKeepsEdges(g, h, q, i, done, dis, next);
    VisitKeepsPaths(g, h, payload, q, i, done, dis, paths, next);
    VisitKeepsHops(g, h, q, i, done, dis, before, hops, next);
  }

  // ---- A neighbour over a link that is down, and the step to the next node of the queue ----

  lemma SkipKeepsAll(g: Graph, h: Node, payload: nat, q: seq<Node>, i: nat, done: set<Node>, dis: map<Node, nat>,
                     paths: NodePaths, before: HopTable, hops: HopTable, next: Node)
    requires SearchInv(g, h, payload, q, i, done, dis, paths, before, hops)
    requires i < |q| && !g.Up(q[i], next)
    ensures SearchInv(g, h, payload, q, i, done + {next}, dis, paths, before, hops)
  {
    forall v, p | v in dis ensures HasPath(paths[v], p) <==> Listed(g, h, q, i, done + {next}, dis, v, p) {
      assert HasPath(paths[v], p) <==> Listed(g, h, q, i, done, dis, v, p);
      if |p| > 1 {
        ExpandedStep(q, q, i, done, next, p[|p| - 2], v);
        if g.IsPathTo(h, v, p) { PathInit(g, h, p); }
      }
    }
    forall v: Node, u: Node
      ensures u in Hops(hops, v, h) <==> u in Hops(before, v, h) || Closer(g, q, i, done + {next}, dis, v, u)
    {
      ExpandedStep(q, q, i, done, next, u, v);
      assert u in Hops(hops, v, h) <==> u in Hops(before, v, h) || Closer(g, q, i, done, dis, v, u);
    }
  }

  lemma AdvanceExpanded(g: Graph, q: seq<Node>, i: nat, done: set<Node>)
    requires i < |q| && forall v :: g.Up(q[i], v) ==> v in done
    requires forall j, k :: 0 <= j < k < |q| ==> q[j] != q[k]
    ensures forall u: Node, v: Node :: g.Up(u, v) ==> (Expanded(q, i + 1, {}, u, v) <==> Expanded(q, i, done, u, v))
  {
    forall u: Node, v: Node | g.Up(u, v) ensures Expanded(q, i + 1, {}, u, v) <==> Expanded(q, i, done, u, v) {
      if Expanded(q, i + 1, {}, u, v) {
        var j: nat :| j < |q| && q[j] == u && Seen(i + 1, {}, j, v);
        assert Seen(i, done, j, v);
      }
      if Expanded(q, i, done, u, v) {
        var j: nat :| j < |q| && q[j] == u && Seen(i, done, j, v);
        assert Seen(i + 1, {}, j, v);
      }
    }
  }

  lemma AdvanceList(g: Graph, h: Node, payload: nat, q: seq<Node>, i: nat, done: set<Node>, dis: map<Node, nat>,
                    v: Node, s: seq<PathInfo>)
    requires i < |q| && v in dis && ListInv(g, h, payload, q, i, done, dis, v, s)
    requires forall u: Node, v: Node :: g.Up(u, v) ==> (Expanded(q, i + 1, {}, u, v) <==> Expanded(q, i, done, u, v))
    ensures ListInv(g, h, payload, q, i + 1, {}, dis, v, s)
  {
    forall p ensures HasPath(s, p) <==> Listed(g, h, q, i + 1, {}, dis, v, p) {
      assert HasPath(s, p) <==> Listed(g, h, q, i, done, dis, v, p);
      if |p| > 1 && g.IsPathTo(h, v, p) { PathInit(g, h, p); }
    }
  }

  lemma AdvanceHops(g: Graph, h: Node, q: seq<Node>, i: nat, done: set<Node>, dis: map<Node, nat>,
                    before: HopTable, hops: HopTable)
    requires i < |q| && HopsInv(g, h, q, i, done, dis, before, hops)
    requires forall u: Node, v: Node :: g.Up(u, v) ==> (Expanded(q, i + 1, {}, u, v) <==> Expanded(q, i, done, u, v))
    ensures HopsInv(g, h, q, i + 1, {}, dis, before, hops)
  {
    hide Expanded;
    forall v: Node, u: Node
      ensures u in Hops(hops, v, h) <==> u in Hops(before, v, h) || Closer(g, q, i + 1, {}, dis, v, u)
    {
      assert u in Hops(hops, v, h) <==> u in Hops(before, v, h) || Closer(g, q, i, done, dis, v, u);
    }
  }

  lemma AdvanceKeepsAll(g: Graph, h: Node, payload: nat, q: seq<Node>, i: nat, done: set<Node>, dis: map<Node, nat>,
                        paths: NodePaths, before: HopTable, hops: HopTable)
    requires SearchInv(g, h, payload, q, i, done, dis, paths, before, hops)
    requires i < |q| && forall v :: g.Up(q[i], v) ==> v in done
    ensures SearchInv(g, h, payload, q, i + 1, {}, dis, paths, before, hops)
  {
    AdvanceExpanded(g, q, i, done);
    hide Expanded, HopsInv, ListInv;
    AdvanceHops(g, h, q, i, done, dis, before, hops);
    forall v | v in dis ensures ListInv(g, h, payload, q, i + 1, {}, dis, v, paths[v]) {
      AdvanceList(g, h, payload, q, i, done, dis, v, paths[v]);
    }
  }

  // ---- What is known when the queue is exhausted ----

  /** The lists hold every minimum-hop path from h, each once, and nothing else. */
  ghost predicate ExactPaths(g: Graph, payload: nat, h: Node, paths: NodePaths) {
    && (forall v :: v in paths <==> g.Reached(h, v))
    && (forall v :: v in paths ==> Measured(g, payload, paths[v]))
    && (forall v, p :: v in paths ==> (HasPath(paths[v], p) <==> g.MinHop(h, v, p)))
  }

  lemma ListedAtEnd(g: Graph, h: Node, payload: nat, q: seq<Node>, dis: map<Node, nat>, paths: NodePaths,
                    v: Node, p: Path)
    requires QueueInv(g, h, q, |q|, dis) && EdgeInv(g, q, |q|, {}, dis)
    requires PathsInv(g, h, payload, q, |q|, {}, dis, paths)
    ensures g.IsPathTo(h, v, p) ==> v in dis && dis[v] + 1 <= |p|
    ensures v in dis ==> (HasPath(paths[v], p) <==> g.IsPathTo(h, v, p) && |p| == dis[v] + 1)
  {
    if g.IsPathTo(h, v, p) {
      ShortPathFound(g, h, q, |q|, {}, dis, p);
      if |p| > 1 && |p| == dis[v] + 1 {
        PathInit(g, h, p);
        var u := p[|p| - 2];
        if |p| == 2 { assert u == h; }
        ShortPathFound(g, h, q, |q|, {}, dis, p[..|p| - 1]);
        var j: nat :| j < |q| && q[j] == u;
        assert Seen(|q|, {}, j, v);
      }
    }
    if v in dis {
      assert ListInv(g, h, payload, q, |q|, {}, dis, v, paths[v]);
      assert HasPath(paths[v], p) <==> Listed(g, h, q, |q|, {}, dis, v, p);
    }
  }

  lemma PathsAtEnd(g: Graph, h: Node, payload: nat, q: seq<Node>, dis: map<Node, nat>, paths: NodePaths)
    requires QueueInv(g, h, q, |q|, dis) && EdgeInv(g, q, |q|, {}, dis)
    requires PathsInv(g, h, payload, q, |q|, {}, dis, paths)
    ensures ExactPaths(g, payload, h, paths)
    ensures forall v, p :: g.MinHop(h, v, p) ==> v in dis && |p| == dis[v] + 1
    ensures forall v :: v in dis ==> g.Reached(h, v)
  {
    forall v, p
      ensures g.MinHop(h, v, p) <==> v in dis && g.IsPathTo(h, v, p) && |p| == dis[v] + 1
      ensures v in dis ==> (HasPath(paths[v], p) <==> g.MinHop(h, v, p))
    {
      ListedAtEnd(g, h, payload, q, dis, paths, v, p);
      forall r | g.IsPathTo(h, v, r) ensures v in dis && dis[v] + 1 <= |r| {
        ListedAtEnd(g, h, payload, q, dis, paths, v, r);
      }
      if v in dis && g.MinHop(h, v, p) {
        assert ListInv(g, h, payload, q, |q|, {}, dis, v, paths[v]);
        var r := paths[v][0].path;
        assert HasPath(paths[v], r);
        ListedAtEnd(g, h, payload, q, dis, paths, v, r);
      }
    }
    forall v | v in dis ensures g.Reached(h, v) && Measured(g, payload, paths[v]) {
      assert ListInv(g, h, payload, q, |q|, {}, dis, v, paths[v]);
      assert HasPath(paths[v], paths[v][0].path);
      assert g.MinHop(h, v, paths[v][0].path);
    }
  }

  lemma HopsAtEnd(g: Graph, h: Node, payload: nat, q: seq<Node>, dis: map<Node, nat>, paths: NodePaths,
                  before: HopTable, hops: HopTable, v: Node, u: Node)
    requires SearchInv(g, h, payload, q, |q|, {}, dis, paths, before, hops)
    ensures u in Hops(hops, v, h) <==> u in Hops(before, v, h) || g.Pred(h, v, u)
  {
    PathsAtEnd(g, h, payload, q, dis, paths);
    CloserAtEnd(g, h, q, dis, v, u);
    assert u in Hops(hops, v, h) <==> u in Hops(before, v, h) || Closer(g, q, |q|, {}, dis, v, u);
  }

  lemma CloserAtEnd(g: Graph, h: Node, q: seq<Node>, dis: map<Node, nat>, v: Node, u: Node)
    requires QueueInv(g, h, q, |q|, dis)
    requires forall v, p :: g.MinHop(h, v, p) ==> v in dis && |p| == dis[v] + 1
    requires forall v :: v in dis ==> g.Reached(h, v)
    ensures Closer(g, q, |q|, {}, dis, v, u) <==> g.Pred(h, v, u)
  {
    if v in dis {
      DistAtEnd(g, h, dis, v);
      PredByDistance(g, h, v, u, dis[v]);
      if g.Pred(h, v, u) {
        assert u in q;
        var j: nat :| j < |q| && q[j] == u;
        assert Seen(|q|, {}, j, v);
      }
      if Closer(g, q, |q|, {}, dis, v, u) {
        DistAtEnd(g, h, dis, u);
      }
    }
  }

  lemma DistAtEnd(g: Graph, h: Node, dis: map<Node, nat>, v: Node)
    requires forall v, p :: g.MinHop(h, v, p) ==> v in dis && |p| == dis[v] + 1
    requires v in dis && g.Reached(h, v)
    ensures g.Dist(h, v, dis[v])
  {
    var p :| g.MinHop(h, v, p);
  }

  // ---- The start ----

  lemma StartInv(g: Graph, h: Node, payload: nat, before: HopTable)
    ensures SearchInv(g, h, payload, [h], 0, {}, map[h := 0], map[h := [PathInfo(0, 0, UINT64_MAX, [h])]],
                      before, before)
  {
    var s := [PathInfo(0, 0, UINT64_MAX, [h])];
    forall p ensures HasPath(s, p) <==> Listed(g, h, [h], 0, {}, map[h := 0], h, p) {
      if p == [h] { assert s[0].path == p; }
    }
  }

  // ---- The outcome of the whole search ----

  /** The hop lists towards h gained exactly the last stops of the minimum-hop paths from h;
      a list that was empty holds no hop twice. */
  ghost predicate HopsGained(g: Graph, h: Node, before: HopTable, after: HopTable) {
    && (forall v: Node, u: Node :: u in Hops(after, v, h) <==> u in Hops(before, v, h) || g.Pred(h, v, u))
    && (forall v: Node :: Hops(before, v, h) == [] ==> Distinct(Hops(after, v, h)))
  }

  ghost predicate ColumnKept(h: Node, before: HopTable, after: HopTable) {
    forall v: Node :: Hops(after, v, h) == Hops(before, v, h)
  }

  ghost function Ids(n: nat): (s: set<Node>)
    ensures forall v :: v in s <==> 0 <= v < n
  {
    if n == 0 then {} else Ids(n - 1) + {n - 1}
  }

  lemma QueueNodes(g: Graph, h: Node, payload: nat, q: seq<Node>, i: nat, dis: map<Node, nat>, paths: NodePaths,
                   before: HopTable, hops: HopTable)
    requires SearchInv(g, h, payload, q, i, {}, dis, paths, before, hops) && i < |q|
    ensures q[i] in {h} + Ids(|g.kind|)
    ensures forall j :: 0 <= j < i ==> q[j] != q[i]
  {}

  lemma SearchAtEnd(g: Graph, h: Node, payload: nat, q: seq<Node>, dis: map<Node, nat>, paths: NodePaths,
                    before: HopTable, hops: HopTable)
    requires SearchInv(g, h, payload, q, |q|, {}, dis, paths, before, hops)
    ensures ExactPaths(g, payload, h, paths)
    ensures HopsGained(g, h, before, hops)
    ensures forall x :: x != h ==> ColumnKept(x, before, hops)
  {
    PathsAtEnd(g, h, payload, q, dis, paths);
    forall v: Node, u: Node ensures u in Hops(hops, v, h) <==> u in Hops(before, v, h) || g.Pred(h, v, u) {
      HopsAtEnd(g, h, payload, q, dis, paths, before, hops, v, u);
    }
  }
}
