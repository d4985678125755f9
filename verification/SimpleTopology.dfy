/**
 The simple topology generator: hosts, one switch of each data centre, and its DCI switch.
 */
module SimpleTopology {
  import opened Basics
  import LeafSpine

  datatype Params = Params(dcNum: nat, hostsPerDc: nat, torsPerDc: nat, dciPerDc: nat) {
    function Hosts(): nat { dcNum * hostsPerDc }
    function Tors(): nat { dcNum * torsPerDc }
    function Dcis(): nat { dcNum * dciPerDc }
    function Total(): nat { Hosts() + Tors() + Dcis() }
    function Tor(d: nat): nat { Hosts() + d * torsPerDc }
    function Dci(d: nat): nat { Hosts() + Tors() + d }
  }

  type IdLink = (nat, nat)

  /** The links of one data centre: its hosts to its first switch, and that to the DCI switch. */
  function DcLinks(p: Params, d: nat): (r: seq<IdLink>)
    ensures |r| == p.hostsPerDc + 1
    ensures forall k :: 0 <= k < p.hostsPerDc ==> r[k] == (d * p.hostsPerDc + k, p.Tor(d))
    ensures r[p.hostsPerDc] == (p.Tor(d), p.Dci(d))
  {
    seq(p.hostsPerDc, k requires 0 <= k < p.hostsPerDc => (d * p.hostsPerDc + k, p.Tor(d))) + [(p.Tor(d), p.Dci(d))]
  }

  function IntraDcLinks(p: Params, n: nat): seq<IdLink> {
    if n == 0 then [] else IntraDcLinks(p, n - 1) + DcLinks(p, n - 1)
  }

  function MeshRow(p: Params, d: nat, n: nat): (r: seq<IdLink>)
    requires d < n
    ensures |r| == n - d - 1 && forall k :: 0 <= k < |r| ==> r[k] == (p.Dci(d), p.Dci(d + 1 + k))
  {
    seq(n - d - 1, k requires 0 <= k < n - d - 1 => (p.Dci(d), p.Dci(d + 1 + k)))
  }

  function Mesh(p: Params, n: nat): seq<IdLink>
    requires n <= p.dcNum
  {
    if n == 0 then [] else Mesh(p, n - 1) + MeshRow(p, n - 1, p.dcNum)
  }

  function Links(p: Params): seq<IdLink> {
    IntraDcLinks(p, p.dcNum) + if p.dciPerDc > 0 then Mesh(p, p.dcNum) else []
  }

  /** The number of links that the file announces. */
  function HeaderLinks(p: Params): nat {
    (p.hostsPerDc + p.torsPerDc) * p.dcNum + LeafSpine.Pairs(p.Dcis())
  }

  lemma {:induction false} IntraCount(p: Params, n: nat)
    ensures |IntraDcLinks(p, n)| == n * (p.hostsPerDc + 1)
  {
    if n > 0 { IntraCount(p, n - 1); }
  }

  lemma {:induction false} MeshCount(p: Params, n: nat)
    requires n <= p.dcNum
    ensures 2 * |Mesh(p, n)| == n * (2 * p.dcNum - n - 1)
  {
    if n > 0 { MeshCount(p, n - 1); }
  }

  lemma LinkCount(p: Params)
    ensures 2 * |Links(p)| == 2 * (p.dcNum * (p.hostsPerDc + 1)) + if p.dciPerDc > 0 then p.dcNum * (p.dcNum - 1) else 0
  {
    IntraCount(p, p.dcNum);
    MeshCount(p, p.dcNum);
    assert 2 * p.dcNum - p.dcNum - 1 == p.dcNum - 1;
  }

  /** How many more links are announced than emitted, twice. */
  lemma HeaderGap(p: Params)
    ensures 2 * HeaderLinks(p) - 2 * |Links(p)|
            == p.dcNum * (2 * p.torsPerDc - 2 + LeafSpine.Excess(p.dcNum, p.dciPerDc))
  {
    hide Links, LeafSpine.Excess;
    var n, k := p.dcNum, p.dciPerDc;
    LinkCount(p);
    var half := LeafSpine.Half(n * k);
    assert HeaderLinks(p) == (p.hostsPerDc + p.torsPerDc) * n + half;
    hide HeaderLinks;
    LeafSpine.MeshExcess(n, k);
    LeafSpine.TimesDiff(n, p.hostsPerDc + p.torsPerDc, p.hostsPerDc + 1);
    LeafSpine.TimesSum(n, 2 * p.torsPerDc - 2, LeafSpine.Excess(n, k));
  }

  /** As many links are emitted as announced exactly if each data centre has one switch and no second DCI
      switch, or if the switch that a single data centre lacks makes up for the link between two. */
  lemma HeaderAgrees(p: Params)
    ensures |Links(p)| == HeaderLinks(p) <==>
            || p.dcNum == 0 || (p.torsPerDc == 1 && p.dciPerDc <= 1)
            || (p.torsPerDc == 0 && p.dcNum == 1 && p.dciPerDc == 2)
  {
    HeaderGap(p);
    LeafSpine.ZeroProduct(p.dcNum, 2 * p.torsPerDc - 2 + LeafSpine.Excess(p.dcNum, p.dciPerDc));
    if p.dcNum > 0 { LeafSpine.ExcessSign(p.dcNum, p.dciPerDc); }
    hide *;
  }

  /** Two switches in each of two data centres. */
  lemma HeaderOff()
    ensures var p := Params(2, 2, 2, 1); |Links(p)| != HeaderLinks(p)
  {
    HeaderAgrees(Params(2, 2, 2, 1));
  }

  // ---- The ends of the links ----

  ghost predicate Known(p: Params, links: seq<IdLink>) {
    forall l :: l in links ==> l.0 < p.Total() && l.1 < p.Total()
  }

  lemma SwitchesBelow(p: Params, d: nat)
    requires d < p.dcNum
    ensures p.hostsPerDc > 0 ==> d * p.hostsPerDc + p.hostsPerDc <= p.Hosts()
    ensures d * p.torsPerDc <= p.Tors()
    ensures p.dciPerDc > 0 ==> p.Dci(d) < p.Total() && p.Tor(d) < p.Total()
  {
    MulMonotone(d + 1, p.dcNum, p.hostsPerDc);
    MulMonotone(d, p.dcNum, p.torsPerDc);
    if p.dciPerDc > 0 {
      MulMonotone(1, p.dciPerDc, p.dcNum);
      assert p.Dcis() >= p.dcNum;
    }
  }

  lemma KnownDc(p: Params, d: nat)
    requires d < p.dcNum && p.dciPerDc > 0
    ensures Known(p, DcLinks(p, d))
  {
    SwitchesBelow(p, d);
  }

  lemma {:induction false} KnownIntra(p: Params, n: nat)
    requires n <= p.dcNum && p.dciPerDc > 0
    ensures Known(p, IntraDcLinks(p, n))
  {
    if n > 0 {
      KnownIntra(p, n - 1);
      KnownDc(p, n - 1);
    }
  }

  lemma {:induction false} KnownMesh(p: Params, n: nat)
    requires n <= p.dcNum && p.dciPerDc > 0
    ensures Known(p, Mesh(p, n))
  {
    if n > 0 {
      KnownMesh(p, n - 1);
      forall l | l in MeshRow(p, n - 1, p.dcNum) ensures l.0 < p.Total() && l.1 < p.Total() {
        SwitchesBelow(p, n - 1);
        SwitchesBelow(p, l.1 - p.Dci(0));
      }
    }
  }

  lemma {:induction false} Emitted(p: Params, n: nat, d: nat)
    requires d < n
    ensures (p.Tor(d), p.Dci(d)) in IntraDcLinks(p, n)
  {
    if d == n - 1 {
      assert DcLinks(p, d)[p.hostsPerDc] == (p.Tor(d), p.Dci(d));
    } else {
      Emitted(p, n - 1, d);
    }
  }

  /** Every link joins announced nodes exactly if there are DCI switches: every data centre is linked to
      one in any case. */
  lemma EndsKnown(p: Params)
    ensures Known(p, Links(p)) <==> p.dcNum == 0 || p.dciPerDc > 0
  {
    if p.dcNum > 0 && p.dciPerDc > 0 {
      KnownIntra(p, p.dcNum);
      KnownMesh(p, p.dcNum);
    } else if p.dcNum > 0 {
      Emitted(p, p.dcNum, 0);
      assert (p.Tor(0), p.Dci(0)) in Links(p);
    }
  }

  /** One data centre without a DCI switch: its link to one leads to an id that is not announced. */
  lemma EndUnknown()
    ensures var p := Params(1, 2, 1, 0); (2, 3) in Links(p) && p.Total() == 3
  {
    var p := Params(1, 2, 1, 0);
    Emitted(p, 1, 0);
    assert p.Tor(0) == 2 && p.Dci(0) == 3;
  }

  class SimpleTopologyGenerator {
    const p: Params
    var totalHosts: nat
    var totalTors: nat
    var totalDcis: nat
    var totalNodes: nat
    var torIdStart: nat
    var dciIdStart: nat

    constructor (p: Params)
      ensures this.p == p
    {
      this.p := p;
    }

    predicate Counted()
      reads this
    {
      && totalHosts == p.Hosts() && totalTors == p.Tors() && totalDcis == p.Dcis() && totalNodes == p.Total()
      && torIdStart == p.Hosts() && dciIdStart == p.Hosts() + p.Tors()
    }

    method CalculateNodeCounts()
      modifies this
      ensures Counted()
    {
      totalHosts := p.dcNum * p.hostsPerDc;
      totalTors := p.dcNum * p.torsPerDc;
      totalDcis := p.dcNum * p.dciPerDc;
      totalNodes := totalHosts + totalTors + totalDcis;
      torIdStart := totalHosts;
      dciIdStart := totalHosts + totalTors;
    }

    method CalculateLinkCounts() returns (total: nat)
      requires Counted()
      ensures total == HeaderLinks(p)
    {
      var linksPerDc := p.hostsPerDc + p.torsPerDc;
      total := linksPerDc * p.dcNum + LeafSpine.Pairs(totalDcis);
    }

    method DcConnections(d: nat, hostStart: nat, tor: nat, dci: nat) returns (output: seq<IdLink>)
      requires hostStart == d * p.hostsPerDc && tor == p.Tor(d) && dci == p.Dci(d)
      ensures output == DcLinks(p, d)
    {
      output := [];
      for i := 0 to p.hostsPerDc
        invariant |output| == i && forall k :: 0 <= k < i ==> output[k] == (hostStart + k, tor)
      {
        output := output + [(hostStart + i, tor)];
      }
      output := output + [(tor, dci)];
    }

    method GenerateIntraDcConnections() returns (output: seq<IdLink>)
      requires Counted()
      ensures output == IntraDcLinks(p, p.dcNum)
    {
      output := [];
      for d := 0 to p.dcNum
        invariant output == IntraDcLinks(p, d)
      {
        var one := DcConnections(d, d * p.hostsPerDc, torIdStart + d * p.torsPerDc, dciIdStart + d);
        output := output + one;
      }
    }

    method GenerateDciInterconnections() returns (output: seq<IdLink>)
      requires Counted()
      ensures output == if p.dciPerDc > 0 then Mesh(p, p.dcNum) else []
    {
      output := [];
      if p.dciPerDc > 0 {
        for i := 0 to p.dcNum
          invariant output == Mesh(p, i)
        {
          var dci1 := dciIdStart + i;
          ghost var before := output;
          for j := i + 1 to p.dcNum
            invariant output == before + MeshRow(p, i, j)
          {
            output := output + [(dci1, dciIdStart + j)];
          }
        }
      }
    }

    /** The id of one switch of each data centre, and of one DCI switch. */
    method GenerateSwitchIds() returns (torIds: seq<nat>, dciIds: seq<nat>)
      requires Counted()
      ensures |torIds| == |dciIds| == p.dcNum
      ensures forall d :: 0 <= d < p.dcNum ==> torIds[d] == p.Tor(d) && dciIds[d] == p.Dci(d)
    {
      var tor, dci := torIdStart, dciIdStart;
      torIds := seq(p.dcNum, d requires 0 <= d < p.dcNum => tor + d * p.torsPerDc);
      dciIds := seq(p.dcNum, d requires 0 <= d < p.dcNum => dci + d);
    }

    /** The file: the announced numbers, the switch ids, and the links. */
    method GenerateTopologyContent()
      returns (header: seq<nat>, torIds: seq<nat>, dciIds: seq<nat>, links: seq<IdLink>)
      modifies this
      ensures header == [p.Total(), p.Tors(), p.Dcis(), HeaderLinks(p)] && links == Links(p)
      ensures |torIds| == |dciIds| == p.dcNum
      ensures forall d :: 0 <= d < p.dcNum ==> torIds[d] == p.Tor(d) && dciIds[d] == p.Dci(d)
    {
      CalculateNodeCounts();
      var total := CalculateLinkCounts();
      header := [totalNodes, totalTors, totalDcis, total];
      torIds, dciIds := GenerateSwitchIds();
      var intra := GenerateIntraDcConnections();
      var inter := GenerateDciInterconnections();
      links := intra + inter;
    }
  }
}
