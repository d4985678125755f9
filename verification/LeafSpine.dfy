/**
 The leaf-spine topology generator: how many nodes and links it announces, the ids it gives to them,
 and the links it emits.
 */
module LeafSpine {
  import opened Basics

  /** Data centres; hosts, leaves and spines of each; hosts of each leaf; DCI switches of each. */
  datatype Params = Params(dcNum: nat, hostsPerDc: nat, leavesPerDc: nat, spinesPerDc: nat, hostsPerLeaf: nat,
                           dciPerDc: nat) {

    /** Every host of a data centre hangs on one of its leaves. */
    predicate Balanced() {
      hostsPerDc == leavesPerDc * hostsPerLeaf
    }

    function Hosts(): nat { dcNum * hostsPerDc }
    function Leaves(): nat { dcNum * leavesPerDc }
    function Spines(): nat { dcNum * spinesPerDc }
    function Dcis(): nat { dcNum * dciPerDc }
    function Total(): nat { Hosts() + Leaves() + Spines() + Dcis() }
  }

  /** Host j of leaf i of data centre d, leaf i, spine i, and DCI switch number d. */
  datatype Device = HostAt(d: nat, i: nat, j: nat) | LeafAt(d: nat, i: nat) | SpineAt(d: nat, i: nat) | DciAt(d: nat)

  predicate Exists(p: Params, x: Device) {
    match x
    case HostAt(d, i, j) => d < p.dcNum && i < p.leavesPerDc && j < p.hostsPerLeaf
    case LeafAt(d, i) => d < p.dcNum && i < p.leavesPerDc
    case SpineAt(d, i) => d < p.dcNum && i < p.spinesPerDc
    case DciAt(d) => d < p.Dcis()
  }

  function Id(p: Params, x: Device): nat {
    match x
    case HostAt(d, i, j) => d * p.hostsPerDc + i * p.hostsPerLeaf + j
    case LeafAt(d, i) => p.Hosts() + d * p.leavesPerDc + i
    case SpineAt(d, i) => p.Hosts() + p.Leaves() + d * p.spinesPerDc + i
    case DciAt(d) => p.Hosts() + p.Leaves() + p.Spines() + d
  }

  // ---- The ids ----

  /** Position q, r of a grid with n columns. */
  lemma Cell(rows: nat, n: nat, q: nat, r: nat)
    requires q < rows && r < n
    ensures q * n + r < rows * n
  {
    MulMonotone(q + 1, rows, n);
  }

  lemma Row(rows: nat, n: nat, x: nat)
    requires x < rows * n
    ensures n > 0 && x / n < rows && x == (x / n) * n + x % n
  {
    MulMonotone(rows, x / n, n);
  }

  function HostOf(p: Params, id: nat): Device
    requires p.hostsPerDc > 0 && p.hostsPerLeaf > 0
  {
    HostAt(id / p.hostsPerDc, (id % p.hostsPerDc) / p.hostsPerLeaf, (id % p.hostsPerDc) % p.hostsPerLeaf)
  }

  function LeafOf(n: nat, id: nat): Device
    requires n > 0
  {
    LeafAt(id / n, id % n)
  }

  function SpineOf(n: nat, id: nat): Device
    requires n > 0
  {
    SpineAt(id / n, id % n)
  }

  /** The device that has an id. */
  function DeviceOf(p: Params, id: nat): Device
    requires p.Balanced() && id < p.Total()
  {
    var leaf0, spine0, dci0 := p.Hosts(), p.Hosts() + p.Leaves(), p.Hosts() + p.Leaves() + p.Spines();
    if id < leaf0 then
      HostRow(p, id);
      HostOf(p, id)
    else if id < spine0 then
      Row(p.dcNum, p.leavesPerDc, id - leaf0);
      LeafOf(p.leavesPerDc, id - leaf0)
    else if id < dci0 then
      Row(p.dcNum, p.spinesPerDc, id - spine0);
      SpineOf(p.spinesPerDc, id - spine0)
    else DciAt(id - dci0)
  }

  lemma HostRow(p: Params, id: nat)
    requires p.Balanced() && id < p.Hosts()
    ensures p.hostsPerDc > 0 && p.hostsPerLeaf > 0
    ensures id / p.hostsPerDc < p.dcNum && (id % p.hostsPerDc) / p.hostsPerLeaf < p.leavesPerDc
    ensures id == (id / p.hostsPerDc) * p.hostsPerDc
                  + ((id % p.hostsPerDc) / p.hostsPerLeaf) * p.hostsPerLeaf + (id % p.hostsPerDc) % p.hostsPerLeaf
  {
    Row(p.dcNum, p.hostsPerDc, id);
    Row(p.leavesPerDc, p.hostsPerLeaf, id % p.hostsPerDc);
  }

  /** The ids of the devices are exactly the numbers below the announced total, each once. */
  lemma IdsPartition(p: Params, x: Device)
    requires p.Balanced() && Exists(p, x)
    ensures Id(p, x) < p.Total() && DeviceOf(p, Id(p, x)) == x
  {
    match x {
      case HostAt(d, i, j) =>
        Cell(p.leavesPerDc, p.hostsPerLeaf, i, j);
        Cell(p.dcNum, p.hostsPerDc, d, i * p.hostsPerLeaf + j);
        DivMod(p.hostsPerDc, d, i * p.hostsPerLeaf + j);
        DivMod(p.hostsPerLeaf, i, j);
      case LeafAt(d, i) =>
        Cell(p.dcNum, p.leavesPerDc, d, i);
        DivMod(p.leavesPerDc, d, i);
      case SpineAt(d, i) =>
        Cell(p.dcNum, p.spinesPerDc, d, i);
        DivMod(p.spinesPerDc, d, i);
      case DciAt(d) =>
    }
  }

  lemma IdsCover(p: Params, id: nat)
    requires p.Balanced() && id < p.Total()
    ensures Exists(p, DeviceOf(p, id)) && Id(p, DeviceOf(p, id)) == id
  {
    if id < p.Hosts() {
      HostRow(p, id);
    } else if id < p.Hosts() + p.Leaves() {
      Row(p.dcNum, p.leavesPerDc, id - p.Hosts());
    } else if id < p.Hosts() + p.Leaves() + p.Spines() {
      Row(p.dcNum, p.spinesPerDc, id - p.Hosts() - p.Leaves());
    }
  }

  // ---- The links ----

  datatype Link = Link(a: Device, b: Device)

  predicate Linked(p: Params, l: Link) {
    match l
    case Link(HostAt(d, i, j), LeafAt(e, k)) => d == e < p.dcNum && i == k < p.leavesPerDc && j < p.hostsPerLeaf
    case Link(LeafAt(d, i), SpineAt(e, k)) => d == e < p.dcNum && i < p.leavesPerDc && k < p.spinesPerDc
    case Link(SpineAt(d, i), DciAt(e)) => p.dciPerDc > 0 && d == e < p.dcNum && i < p.spinesPerDc
    case Link(DciAt(d), DciAt(e)) => p.dciPerDc > 0 && d < e < p.dcNum
    case _ => false
  }

  function HostLinks(d: nat, i: nat, n: nat): (r: seq<Link>)
    ensures |r| == n && forall k :: 0 <= k < n ==> r[k] == Link(HostAt(d, i, k), LeafAt(d, i))
  {
    seq(n, k requires 0 <= k < n => Link(HostAt(d, i, k), LeafAt(d, i)))
  }

  function AllHostLinks(p: Params, d: nat, n: nat): seq<Link> {
    if n == 0 then [] else AllHostLinks(p, d, n - 1) + HostLinks(d, n - 1, p.hostsPerLeaf)
  }

  function LeafLinks(d: nat, i: nat, n: nat): (r: seq<Link>)
    ensures |r| == n && forall k :: 0 <= k < n ==> r[k] == Link(LeafAt(d, i), SpineAt(d, k))
  {
    seq(n, k requires 0 <= k < n => Link(LeafAt(d, i), SpineAt(d, k)))
  }

  function AllLeafLinks(p: Params, d: nat, n: nat): seq<Link> {
    if n == 0 then [] else AllLeafLinks(p, d, n - 1) + LeafLinks(d, n - 1, p.spinesPerDc)
  }

  function SpineLinks(d: nat, n: nat): (r: seq<Link>)
    ensures |r| == n && forall k :: 0 <= k < n ==> r[k] == Link(SpineAt(d, k), DciAt(d))
  {
    seq(n, k requires 0 <= k < n => Link(SpineAt(d, k), DciAt(d)))
  }

  function DcLinks(p: Params, d: nat): seq<Link> {
    AllHostLinks(p, d, p.leavesPerDc) + AllLeafLinks(p, d, p.leavesPerDc)
    + if p.dciPerDc > 0 then SpineLinks(d, p.spinesPerDc) else []
  }

  function IntraDcLinks(p: Params, n: nat): seq<Link> {
    if n == 0 then [] else IntraDcLinks(p, n - 1) + DcLinks(p, n - 1)
  }

  function DciLinksOf(d: nat, n: nat): (r: seq<Link>)
    requires d < n
    ensures |r| == n - d - 1 && forall k :: 0 <= k < |r| ==> r[k] == Link(DciAt(d), DciAt(d + 1 + k))
  {
    seq(n - d - 1, k requires 0 <= k < n - d - 1 => Link(DciAt(d), DciAt(d + 1 + k)))
  }

  function DciLinks(p: Params, n: nat): seq<Link>
    requires n <= p.dcNum
  {
    if n == 0 then [] else DciLinks(p, n - 1) + DciLinksOf(n - 1, p.dcNum)
  }

  function Links(p: Params): seq<Link> {
    IntraDcLinks(p, p.dcNum) + if p.dciPerDc > 0 then DciLinks(p, p.dcNum) else []
  }

  // ---- Which links, each once, and how many ----

  /** s lists exactly the links of `what`, each once. */
  ghost predicate Lists(s: seq<Link>, what: Link -> bool) {
    Distinct(s) && forall l :: l in s <==> what(l)
  }

  lemma ListsBoth(s: seq<Link>, a: Link -> bool, t: seq<Link>, b: Link -> bool, c: Link -> bool)
    requires Lists(s, a) && Lists(t, b)
    requires forall l :: (c(l) <==> a(l) || b(l)) && !(a(l) && b(l))
    ensures Lists(s + t, c)
  {
    var all := s + t;
    forall i, j | 0 <= i < j < |all| ensures all[i] != all[j] {
      if i < |s| <= j {
        assert all[i] in s && all[j] in t;
      }
    }
  }

  predicate HostLink(p: Params, d: nat, n: nat, l: Link) {
    l.a.HostAt? && l.b.LeafAt? && l.a.d == l.b.d == d && l.a.i == l.b.i < n && l.a.j < p.hostsPerLeaf
  }

  lemma {:induction false} ListsHosts(p: Params, d: nat, n: nat)
    ensures Lists(AllHostLinks(p, d, n), (l: Link) => HostLink(p, d, n, l))
    ensures |AllHostLinks(p, d, n)| == n * p.hostsPerLeaf
  {
    if n > 0 {
      ListsHosts(p, d, n - 1);
      var row := HostLinks(d, n - 1, p.hostsPerLeaf);
      var added := (l: Link) => HostLink(p, d, n, l) && l.a.i == n - 1;
      forall l ensures l in row <==> added(l) {
        if added(l) { assert row[l.a.j] == l; }
      }
      ListsBoth(AllHostLinks(p, d, n - 1), (l: Link) => HostLink(p, d, n - 1, l), row, added,
          (l: Link) => HostLink(p, d, n, l));
    }
  }

  predicate LeafLink(p: Params, d: nat, n: nat, l: Link) {
    l.a.LeafAt? && l.b.SpineAt? && l.a.d == l.b.d == d && l.a.i < n && l.b.i < p.spinesPerDc
  }

  lemma {:induction false} ListsLeaves(p: Params, d: nat, n: nat)
    ensures Lists(AllLeafLinks(p, d, n), (l: Link) => LeafLink(p, d, n, l))
    ensures |AllLeafLinks(p, d, n)| == n * p.spinesPerDc
  {
    if n > 0 {
      ListsLeaves(p, d, n - 1);
      var row := LeafLinks(d, n - 1, p.spinesPerDc);
      var added := (l: Link) => LeafLink(p, d, n, l) && l.a.i == n - 1;
      forall l ensures l in row <==> added(l) {
        if added(l) { assert row[l.b.i] == l; }
      }
      ListsBoth(AllLeafLinks(p, d, n - 1), (l: Link) => LeafLink(p, d, n - 1, l), row, added,
          (l: Link) => LeafLink(p, d, n, l));
    }
  }

  predicate SpineLink(p: Params, d: nat, l: Link) {
    p.dciPerDc > 0 && l.a.SpineAt? && l.b.DciAt? && l.a.d == l.b.d == d && l.a.i < p.spinesPerDc
  }

  predicate DcLink(p: Params, d: nat, l: Link) {
    HostLink(p, d, p.leavesPerDc, l) || LeafLink(p, d, p.leavesPerDc, l) || SpineLink(p, d, l)
  }

  function LinksPerDc(p: Params): nat {
    p.leavesPerDc * p.hostsPerLeaf + p.leavesPerDc * p.spinesPerDc + if p.dciPerDc > 0 then p.spinesPerDc else 0
  }

  lemma ListsDc(p: Params, d: nat)
    ensures Lists(DcLinks(p, d), (l: Link) => DcLink(p, d, l)) && |DcLinks(p, d)| == LinksPerDc(p)
  {
    ListsHosts(p, d, p.leavesPerDc);
    ListsLeaves(p, d, p.leavesPerDc);
    var hosts, leaves := (l: Link) => HostLink(p, d, p.leavesPerDc, l), (l: Link) => LeafLink(p, d, p.leavesPerDc, l);
    var spines := if p.dciPerDc > 0 then SpineLinks(d, p.spinesPerDc) else [];
    forall l ensures l in spines <==> SpineLink(p, d, l) {
      if SpineLink(p, d, l) { assert spines[l.a.i] == l; }
    }
    var both := (l: Link) => hosts(l) || leaves(l);
    ListsBoth(AllHostLinks(p, d, p.leavesPerDc), hosts, AllLeafLinks(p, d, p.leavesPerDc), leaves, both);
    ListsBoth(AllHostLinks(p, d, p.leavesPerDc) + AllLeafLinks(p, d, p.leavesPerDc), both,
              spines, (l: Link) => SpineLink(p, d, l), (l: Link) => DcLink(p, d, l));
  }

  lemma {:induction false} ListsDcs(p: Params, n: nat)
    ensures Lists(IntraDcLinks(p, n), (l: Link) => l.a.d < n && DcLink(p, l.a.d, l))
    ensures |IntraDcLinks(p, n)| == n * LinksPerDc(p)
  {
    if n > 0 {
      ListsDcs(p, n - 1);
      ListsDc(p, n - 1);
      ListsBoth(IntraDcLinks(p, n - 1), (l: Link) => l.a.d < n - 1 && DcLink(p, l.a.d, l),
                DcLinks(p, n - 1), (l: Link) => DcLink(p, n - 1, l),
                (l: Link) => l.a.d < n && DcLink(p, l.a.d, l));
      assert n * LinksPerDc(p) == (n - 1) * LinksPerDc(p) + LinksPerDc(p);
    }
  }

  predicate DciLink(p: Params, n: nat, l: Link) {
    l.a.DciAt? && l.b.DciAt? && l.a.d < n && l.a.d < l.b.d < p.dcNum
  }

  /** Twice the number, to stay with whole numbers. */
  lemma {:induction false} ListsDcis(p: Params, n: nat)
    requires n <= p.dcNum
    ensures Lists(DciLinks(p, n), (l: Link) => DciLink(p, n, l))
    ensures 2 * |DciLinks(p, n)| == n * (2 * p.dcNum - n - 1)
  {
    if n > 0 {
      ListsDcis(p, n - 1);
      var row := DciLinksOf(n - 1, p.dcNum);
      var added := (l: Link) => DciLink(p, n, l) && l.a.d == n - 1;
      forall l ensures l in row <==> added(l) {
        if added(l) { assert row[l.b.d - n] == l; }
      }
      ListsBoth(DciLinks(p, n - 1), (l: Link) => DciLink(p, n - 1, l), row, added, (l: Link) => DciLink(p, n, l));
    }
  }

  /** The emitted links are the links of the topology, each once. */
  lemma LinksExact(p: Params)
    ensures Lists(Links(p), (l: Link) => Linked(p, l))
    ensures 2 * |Links(p)| == 2 * (p.dcNum * LinksPerDc(p)) + if p.dciPerDc > 0 then p.dcNum * (p.dcNum - 1) else 0
  {
    ListsDcs(p, p.dcNum);
    ListsDcis(p, p.dcNum);
    var dcis := if p.dciPerDc > 0 then DciLinks(p, p.dcNum) else [];
    ListsBoth(IntraDcLinks(p, p.dcNum), (l: Link) => l.a.d < p.dcNum && DcLink(p, l.a.d, l),
              dcis, (l: Link) => p.dciPerDc > 0 && DciLink(p, p.dcNum, l), (l: Link) => Linked(p, l));
  }

  /** The links of a full mesh. */
  function Pairs(n: nat): nat {
    if n == 0 then 0 else n * (n - 1) / 2
  }

  /** The number of links that the file announces. */
  function HeaderLinks(p: Params): nat {
    (p.hostsPerDc + p.leavesPerDc * p.spinesPerDc + if p.dciPerDc > 0 then p.spinesPerDc else 0) * p.dcNum
    + Pairs(p.Dcis())
  }

  lemma {:induction false} Half(n: nat) returns (k: nat)
    ensures n * (n - 1) == 2 * k
  {
    if n == 0 {
      k := 0;
    } else {
      k := Half(n - 1);
      assert n * (n - 1) == (n - 1) * (n - 2) + 2 * (n - 1);
      k := k + n - 1;
    }
  }

  /** The links that a full mesh of all n * k DCI switches has above one of n, twice and per data centre. */
  function Excess(n: nat, k: nat): int {
    if k > 0 then (k - 1) * (n * (k + 1) - 1) else 0
  }

  lemma MeshExcess(n: nat, k: nat)
    ensures n * k * (n * k - 1) == (if k > 0 then n * (n - 1) else 0) + n * Excess(n, k)
  {
    if k > 0 {
      var a := n * k;
      calc {
        (k - 1) * (n * (k + 1) - 1);
        (k - 1) * (a + n - 1);
        k * (a + n - 1) - (a + n - 1);
        k * (a - 1) + k * n - (a + n - 1);
        k * (a - 1) - (n - 1);
      }
      assert n * (k * (a - 1)) == a * (a - 1);
      assert n * (k * (a - 1) - (n - 1)) == n * (k * (a - 1)) - n * (n - 1);
    }
  }

  lemma ExcessSign(n: nat, k: nat)
    requires n > 0
    ensures Excess(n, k) >= 0 && (Excess(n, k) == 0 <==> k <= 1)
    ensures k > 1 ==> Excess(n, k) >= 2 && (Excess(n, k) == 2 <==> n == 1 && k == 2)
  {
    if k > 1 {
      var b := n * (k + 1) - 1;
      MulMonotone(1, n, k + 1);
      assert b >= k;
      MulMonotone(1, k - 1, b);
      assert (k - 1) * b >= b;
      if k == 2 { assert b == 3 * n - 1; }
    }
  }

  lemma ZeroProduct(n: nat, x: int)
    ensures n * x == 0 <==> n == 0 || x == 0
  {}

  /** When as many links are emitted as announced. With a host count that fits the leaves, exactly if no
      data centre has a second DCI switch, which the emission does not know. */
  lemma HeaderAgrees(p: Params)
    ensures |Links(p)| == HeaderLinks(p) <==>
            p.dcNum == 0 || 2 * (p.leavesPerDc * p.hostsPerLeaf) == 2 * p.hostsPerDc + Excess(p.dcNum, p.dciPerDc)
    ensures p.Balanced() ==> (|Links(p)| == HeaderLinks(p) <==> p.dcNum == 0 || p.dciPerDc <= 1)
  {
    LinksExact(p);
    var n := p.dcNum;
    var half := Half(p.Dcis());
    var announced := p.hostsPerDc + p.leavesPerDc * p.spinesPerDc + if p.dciPerDc > 0 then p.spinesPerDc else 0;
    MeshExcess(n, p.dciPerDc);
    assert HeaderLinks(p) == announced * n + half;
    TimesDiff(n, announced, LinksPerDc(p));
    hide Links, HeaderLinks;
    ZeroProduct(n, 2 * announced - 2 * LinksPerDc(p) + Excess(n, p.dciPerDc));
    TimesSum(n, 2 * announced - 2 * LinksPerDc(p), Excess(n, p.dciPerDc));
    if n > 0 { ExcessSign(n, p.dciPerDc); }
  }

  /** The script's own numbers, with two DCI switches in each data centre, and with one host more. */
  lemma HeaderOff(p: Params)
    requires p == Params(8, 32, 8, 4, 4, 2) || p == Params(8, 33, 8, 4, 4, 1)
    ensures |Links(p)| != HeaderLinks(p)
  {
    HeaderAgrees(p);
    hide Links, HeaderLinks;
  }

  lemma TimesDiff(n: nat, a: nat, b: nat)
    ensures n * (2 * a - 2 * b) == 2 * (a * n) - 2 * (n * b)
  {}

  lemma TimesSum(n: nat, a: int, b: int)
    ensures n * (a + b) == n * a + n * b
  {}

  // ---- The generator ----

  type IdLink = (nat, nat)

  function Ids(p: Params, links: seq<Link>): (r: seq<IdLink>)
    ensures |r| == |links| && forall k :: 0 <= k < |r| ==> r[k] == (Id(p, links[k].a), Id(p, links[k].b))
  {
    seq(|links|, k requires 0 <= k < |links| => (Id(p, links[k].a), Id(p, links[k].b)))
  }

  lemma IdsBoth(p: Params, s: seq<Link>, t: seq<Link>)
    ensures Ids(p, s + t) == Ids(p, s) + Ids(p, t)
  {}

  function Range(from: nat, n: nat): (r: seq<nat>)
    ensures |r| == n && forall k :: 0 <= k < n ==> r[k] == from + k
  {
    seq(n, k requires 0 <= k < n => from + k)
  }

  class LeafSpineTopologyGenerator {
    const p: Params
    var totalHosts: nat
    var totalLeaves: nat
    var totalSpines: nat
    var totalDcis: nat
    var totalNodes: nat
    var leafIdStart: nat
    var spineIdStart: nat
    var dciIdStart: nat

    constructor (p: Params)
      ensures this.p == p
    {
      this.p := p;
    }

    predicate Counted()
      reads this
    {
      && totalHosts == p.Hosts() && totalLeaves == p.Leaves() && totalSpines == p.Spines()
      && totalDcis == p.Dcis() && totalNodes == p.Total()
      && leafIdStart == p.Hosts() && spineIdStart == p.Hosts() + p.Leaves()
      && dciIdStart == p.Hosts() + p.Leaves() + p.Spines()
    }

    method CalculateNodeCounts() returns (nodes: nat, switches: nat, dcis: nat)
      modifies this
      ensures Counted() && nodes == p.Total() && switches == p.Leaves() + p.Spines() && dcis == p.Dcis()
    {
      totalHosts := p.dcNum * p.hostsPerDc;
      totalLeaves := p.dcNum * p.leavesPerDc;
      totalSpines := p.dcNum * p.spinesPerDc;
      totalDcis := p.dcNum * p.dciPerDc;
      totalNodes := totalHosts + totalLeaves + totalSpines + totalDcis;
      leafIdStart := totalHosts;
      spineIdStart := totalHosts + totalLeaves;
      dciIdStart := totalHosts + totalLeaves + totalSpines;
      return totalNodes, totalLeaves + totalSpines, totalDcis;
    }

    method CalculateLinkCounts() returns (total: nat)
      requires Counted()
      ensures total == HeaderLinks(p)
    {
      var linksPerDc: nat;
      if p.dciPerDc > 0 {
        linksPerDc := p.hostsPerDc + p.leavesPerDc * p.spinesPerDc + p.spinesPerDc;
      } else {
        linksPerDc := p.hostsPerDc + p.leavesPerDc * p.spinesPerDc;
      }
      total := linksPerDc * p.dcNum + Pairs(totalDcis);
    }

    /** The ids of the switches inside the data centres: all ids from the first leaf to the last spine. */
    method GenerateSwitchIds() returns (switchIds: seq<nat>, dciIds: seq<nat>)
      requires Counted()
      ensures switchIds == Range(p.Hosts(), p.Leaves() + p.Spines())
      ensures dciIds == if p.dciPerDc > 0 then Range(p.Hosts() + p.Leaves() + p.Spines(), p.dcNum) else []
    {
      switchIds := IdBlocks(leafIdStart, p.leavesPerDc);
      var spineIds := IdBlocks(spineIdStart, p.spinesPerDc);
      switchIds := switchIds + spineIds;
      dciIds := [];
      if p.dciPerDc > 0 {
        for i := 0 to p.dcNum
          invariant dciIds == Range(dciIdStart, i)
        {
          dciIds := dciIds + [dciIdStart + i];
        }
      }
    }

    method IdBlocks(start: nat, perDc: nat) returns (ids: seq<nat>)
      ensures ids == Range(start, p.dcNum * perDc)
    {
      ids := [];
      for i := 0 to p.dcNum
        invariant ids == Range(start, i * perDc)
      {
        var first := start + i * perDc;
        assert (i + 1) * perDc == i * perDc + perDc;
        for j := 0 to perDc
          invariant ids == Range(start, i * perDc + j)
        {
          ids := ids + [first + j];
        }
      }
    }

    method HostsToLeaf(d: nat, i: nat, hostStart: nat, leaf: nat) returns (output: seq<IdLink>)
      requires Counted() && hostStart == d * p.hostsPerDc && leaf == Id(p, LeafAt(d, i))
      ensures output == Ids(p, HostLinks(d, i, p.hostsPerLeaf))
    {
      output := [];
      var start := hostStart + i * p.hostsPerLeaf;
      for j := 0 to p.hostsPerLeaf
        invariant |output| == j && forall k :: 0 <= k < j ==> output[k] == (start + k, leaf)
      {
        output := output + [(start + j, leaf)];
      }
    }

    method HostsToLeaves(d: nat) returns (output: seq<IdLink>)
      requires Counted()
      ensures output == Ids(p, AllHostLinks(p, d, p.leavesPerDc))
    {
      output := [];
      var hostStart, leafStart := d * p.hostsPerDc, leafIdStart + d * p.leavesPerDc;
      for i := 0 to p.leavesPerDc
        invariant output == Ids(p, AllHostLinks(p, d, i))
      {
        var row := HostsToLeaf(d, i, hostStart, leafStart + i);
        output := output + row;
        IdsBoth(p, AllHostLinks(p, d, i), HostLinks(d, i, p.hostsPerLeaf));
      }
    }

    method LeafToSpines(d: nat, i: nat, leaf: nat, spineStart: nat) returns (output: seq<IdLink>)
      requires Counted() && leaf == Id(p, LeafAt(d, i)) && spineStart == Id(p, SpineAt(d, 0))
      ensures output == Ids(p, LeafLinks(d, i, p.spinesPerDc))
    {
      output := [];
      for j := 0 to p.spinesPerDc
        invariant |output| == j && forall k :: 0 <= k < j ==> output[k] == (leaf, spineStart + k)
      {
        output := output + [(leaf, spineStart + j)];
      }
    }

    method LeavesToSpines(d: nat) returns (output: seq<IdLink>)
      requires Counted()
      ensures output == Ids(p, AllLeafLinks(p, d, p.leavesPerDc))
    {
      output := [];
      var leafStart, spineStart := leafIdStart + d * p.leavesPerDc, spineIdStart + d * p.spinesPerDc;
      for i := 0 to p.leavesPerDc
        invariant output == Ids(p, AllLeafLinks(p, d, i))
      {
        var row := LeafToSpines(d, i, leafStart + i, spineStart);
        output := output + row;
        IdsBoth(p, AllLeafLinks(p, d, i), LeafLinks(d, i, p.spinesPerDc));
      }
    }

    method SpinesToDci(d: nat) returns (output: seq<IdLink>)
      requires Counted()
      ensures output == Ids(p, if p.dciPerDc > 0 then SpineLinks(d, p.spinesPerDc) else [])
    {
      output := [];
      if p.dciPerDc > 0 {
        var spineStart, dci := spineIdStart + d * p.spinesPerDc, dciIdStart + d;
        for i := 0 to p.spinesPerDc
          invariant |output| == i && forall k :: 0 <= k < i ==> output[k] == (spineStart + k, dci)
        {
          output := output + [(spineStart + i, dci)];
        }
      }
    }

    method GenerateIntraDcConnections() returns (output: seq<IdLink>)
      requires Counted()
      ensures output == Ids(p, IntraDcLinks(p, p.dcNum))
    {
      output := [];
      for d := 0 to p.dcNum
        invariant output == Ids(p, IntraDcLinks(p, d))
      {
        var hosts := HostsToLeaves(d);
        var leaves := LeavesToSpines(d);
        var spines := SpinesToDci(d);
        var up := if p.dciPerDc > 0 then SpineLinks(d, p.spinesPerDc) else [];
        IdsBoth(p, AllHostLinks(p, d, p.leavesPerDc), AllLeafLinks(p, d, p.leavesPerDc));
        IdsBoth(p, AllHostLinks(p, d, p.leavesPerDc) + AllLeafLinks(p, d, p.leavesPerDc), up);
        IdsBoth(p, IntraDcLinks(p, d), DcLinks(p, d));
        output := output + (hosts + leaves + spines);
      }
    }

    method GenerateDciInterconnections() returns (output: seq<IdLink>)
      requires Counted()
      ensures output == Ids(p, if p.dciPerDc > 0 then DciLinks(p, p.dcNum) else [])
    {
      output := [];
      if p.dciPerDc > 0 {
        for i := 0 to p.dcNum
          invariant output == Ids(p, DciLinks(p, i))
        {
          var dci1 := dciIdStart + i;
          ghost var before := output;
          for j := i + 1 to p.dcNum
            invariant output == before + Ids(p, DciLinksOf(i, j))
          {
            var dci2 := dciIdStart + j;
            output := output + [(dci1, dci2)];
          }
          IdsBoth(p, DciLinks(p, i), DciLinksOf(i, p.dcNum));
        }
      }
    }

    /** The file: the announced numbers, the switch ids, and the links. */
    method GenerateTopologyContent()
      returns (header: seq<nat>, switchIds: seq<nat>, dciIds: seq<nat>, links: seq<IdLink>)
      modifies this
      ensures Counted()
      ensures header == [p.Total(), p.Leaves() + p.Spines()] + (if p.dciPerDc > 0 then [p.Dcis()] else [])
                        + [HeaderLinks(p)]
      ensures switchIds == Range(p.Hosts(), p.Leaves() + p.Spines())
      ensures dciIds == if p.dciPerDc > 0 then Range(p.Hosts() + p.Leaves() + p.Spines(), p.dcNum) else []
      ensures links == Ids(p, Links(p))
    {
      var nodes, switches, dcis := CalculateNodeCounts();
      var total := CalculateLinkCounts();
      header := if p.dciPerDc > 0 then [nodes, switches, dcis, total] else [nodes, switches, total];
      switchIds, dciIds := GenerateSwitchIds();
      var intra := GenerateIntraDcConnections();
      var inter := GenerateDciInterconnections();
      links := intra + inter;
      IdsBoth(p, IntraDcLinks(p, p.dcNum), if p.dciPerDc > 0 then DciLinks(p, p.dcNum) else []);
    }
  }
}
