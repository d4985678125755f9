/**
 The traffic generators: a heap of hosts ordered by the time of their next flow. Random draws are
 input streams; times are in nanoseconds.
 */
module TrafficGen {
  import opened Basics
  import opened Flows
  import opened FlowTheorems

  datatype Entry = Entry(t: nat, src: nat)

  /** What the random functions return, call by call. */
  datatype Draws = Draws(gap: nat -> nat, dc: nat -> nat, host: nat -> nat, size: nat -> int)

  ghost predicate PositiveAfter(gap: nat -> nat, n: nat) {
    exists m: nat :: n <= m && gap(m) > 0
  }

  /** However many gaps were drawn, a positive one is still to come. */
  ghost predicate Recurring(gap: nat -> nat) {
    forall n :: PositiveAfter(gap, n)
  }

  // ---- The heap, by what `heapq` promises ----

  predicate Before(a: Entry, b: Entry) {
    a.t < b.t || (a.t == b.t && a.src <= b.src)
  }

  ghost predicate First(h: seq<Entry>, i: nat)
    requires i < |h|
  {
    forall j :: 0 <= j < |h| ==> Before(h[i], h[j])
  }

  function Without(h: seq<Entry>, i: nat): (r: seq<Entry>)
    requires i < |h|
    ensures |r| == |h| - 1 && forall j :: 0 <= j < |r| ==> r[j] == if j < i then h[j] else h[j + 1]
  {
    h[..i] + h[i + 1..]
  }

  method SmallestAt(h: seq<Entry>) returns (i: nat)
    requires h != []
    ensures i < |h| && First(h, i)
  {
    i := 0;
    for k := 1 to |h|
      invariant i < |h| && forall j :: 0 <= j < k ==> Before(h[i], h[j])
    {
      if !Before(h[i], h[k]) {
        i := k;
      }
    }
  }

  method HeapPop(h: seq<Entry>) returns (e: Entry, rest: seq<Entry>, ghost i: nat)
    requires h != []
    ensures i < |h| && First(h, i) && e == h[i] && rest == Without(h, i)
  {
    var k := SmallestAt(h);
    i := k;
    e, rest := h[k], Without(h, k);
  }

  // ---- What a generated file looks like ----

  /** The hosts first..first + nhost, the times to generate between, and the stream of gaps. */
  datatype Plan = Plan(base: nat, end: nat, first: nat, nhost: nat, gap: nat -> nat) {
    predicate Has(host: nat) {
      first <= host < first + nhost
    }

    /** The gap drawn in turn m: every host drew one before the first turn. */
    function GapIn(m: nat): nat {
      gap(nhost + m)
    }
  }

  /** When the next flow of the host is due after n turns; turn m took the host log[m].src, due at log[m].t. */
  function Due(p: Plan, log: seq<Entry>, n: nat, host: nat): nat
    requires n <= |log| && p.Has(host)
  {
    if n == 0 then p.base + p.gap(host - p.first)
    else if log[n - 1].src == host then log[n - 1].t + p.GapIn(n - 1)
    else Due(p, log, n - 1, host)
  }

  /** The host of turn m would be due again only after the end. */
  predicate Late(p: Plan, log: seq<Entry>, m: nat)
    requires m < |log|
  {
    log[m].t + p.GapIn(m) > p.end
  }

  /** The host has left before turn n. */
  ghost predicate Gone(p: Plan, log: seq<Entry>, n: nat, host: nat)
    requires n <= |log|
  {
    exists m :: 0 <= m < n && log[m].src == host && Late(p, log, m)
  }

  /** Turn m belongs to a host that has not left, at the time at which it is due. */
  ghost predicate TurnAt(p: Plan, log: seq<Entry>, m: nat)
    requires m < |log|
  {
    var e := log[m];
    p.Has(e.src) && !Gone(p, log, m, e.src) && e.t == Due(p, log, m, e.src)
  }

  ghost predicate Ordered(log: seq<Entry>) {
    forall i, j :: 0 <= i < j < |log| ==> Before(log[i], log[j])
  }

  /** All turns of a generator: in order of time and host, until every host has left. */
  ghost predicate Turns(p: Plan, log: seq<Entry>) {
    && Ordered(log)
    && (forall m :: 0 <= m < |log| ==> TurnAt(p, log, m))
    && (forall host :: p.Has(host) ==> Gone(p, log, |log|, host))
  }

  /** The turns that write a flow. */
  function Written(p: Plan, log: seq<Entry>, n: nat): seq<Entry>
    requires n <= |log|
  {
    if n == 0 then [] else Written(p, log, n - 1) + if Late(p, log, n - 1) then [] else [log[n - 1]]
  }

  /** The flows of the written turns: priority 3, port 100, and the sizes drawn one after the other, at least 1. */
  ghost predicate FlowsOf(written: seq<Entry>, size: nat -> int, flows: seq<Flow>) {
    && |flows| == |written|
    && (forall k :: 0 <= k < |flows| ==> flows[k].start == written[k].t && flows[k].src == written[k].src)
    && (forall k :: 0 <= k < |flows| ==> flows[k].pg == 3 && flows[k].dport == 100)
    && (forall k :: 0 <= k < |flows| ==> flows[k].size == if size(k) <= 0 then 1 else size(k))
  }

  /** The file has a flow for exactly those turns whose host is due again by the end. */
  ghost predicate Generated(p: Plan, size: nat -> int, header: nat, flows: seq<Flow>, log: seq<Entry>) {
    header == |flows| && Turns(p, log) && FlowsOf(Written(p, log, |log|), size, flows)
  }

  // ---- There is one such file ----

  lemma {:induction false} DueOfPrefix(p: Plan, a: seq<Entry>, b: seq<Entry>, n: nat, host: nat)
    requires n <= |a| && n <= |b| && a[..n] == b[..n] && p.Has(host)
    ensures Due(p, a, n, host) == Due(p, b, n, host)
  {
    if n > 0 {
      assert a[n - 1] == a[..n][n - 1] == b[..n][n - 1] == b[n - 1];
      assert a[..n - 1] == a[..n][..n - 1] && b[..n - 1] == b[..n][..n - 1];
      DueOfPrefix(p, a, b, n - 1, host);
    }
  }

  lemma GoneOfPrefix(p: Plan, a: seq<Entry>, b: seq<Entry>, n: nat, host: nat)
    requires n <= |a| && n <= |b| && a[..n] == b[..n]
    ensures Gone(p, a, n, host) <==> Gone(p, b, n, host)
  {
    assert forall m :: 0 <= m < n ==> a[m] == a[..n][m] && b[m] == b[..n][m];
    assert forall m :: 0 <= m < n ==> (Late(p, a, m) <==> Late(p, b, m));
  }

  /** A host that has not left has a turn to come, at the time at which it is due now. */
  lemma {:induction false} NextTurn(p: Plan, log: seq<Entry>, n: nat, host: nat) returns (m: nat)
    requires Turns(p, log) && n <= |log| && p.Has(host) && !Gone(p, log, n, host)
    ensures n <= m < |log| && log[m] == Entry(Due(p, log, n, host), host)
    decreases |log| - n
  {
    assert Gone(p, log, |log|, host);
    if log[n].src == host {
      m := n;
      assert TurnAt(p, log, n);
    } else {
      assert !Gone(p, log, n + 1, host) by {
        assert forall m :: 0 <= m < n + 1 && log[m].src == host && Late(p, log, m) ==> m < n;
      }
      m := NextTurn(p, log, n + 1, host);
    }
  }

  /** After the same turns, the next one of the other log is at most as early. */
  lemma NextNotEarlier(p: Plan, a: seq<Entry>, b: seq<Entry>, n: nat)
    requires Turns(p, a) && Turns(p, b) && n <= |a| && n < |b| && a[..n] == b[..n]
    ensures n < |a| && (a[n] == b[n] || Before(a[n], b[n]))
  {
    var host := b[n].src;
    assert TurnAt(p, b, n);
    GoneOfPrefix(p, a, b, n, host);
    DueOfPrefix(p, a, b, n, host);
    var m := NextTurn(p, a, n, host);
    assert a[m] == b[n];
  }

  /** The gaps decide all turns, and with them the times and sources of the file. */
  lemma {:induction false} OneFile(p: Plan, a: seq<Entry>, b: seq<Entry>, n: nat)
    requires Turns(p, a) && Turns(p, b) && n <= |a| && n <= |b| && a[..n] == b[..n]
    ensures a == b
    decreases |a| - n
  {
    if n < |a| || n < |b| {
      if n < |b| { NextNotEarlier(p, a, b, n); }
      if n < |a| { NextNotEarlier(p, b, a, n); }
      assert a[n] == b[n];
      assert a[..n + 1] == a[..n] + [a[n]] && b[..n + 1] == b[..n] + [b[n]];
      OneFile(p, a, b, n + 1);
    } else {
      assert a == a[..n] == b[..n] == b;
    }
  }

  // ---- The flows of a file ----

  lemma {:induction false} DueFromBase(p: Plan, log: seq<Entry>, n: nat, host: nat)
    requires n <= |log| && p.Has(host) && forall m :: 0 <= m < n ==> TurnAt(p, log, m)
    ensures Due(p, log, n, host) >= p.base
  {
    if n > 0 {
      assert TurnAt(p, log, n - 1);
      DueFromBase(p, log, n - 1, host);
    }
  }

  /** The turn that wrote entry k. */
  lemma {:induction false} TurnOf(p: Plan, log: seq<Entry>, n: nat, k: nat) returns (m: nat)
    requires n <= |log| && k < |Written(p, log, n)|
    ensures m < n && !Late(p, log, m) && Written(p, log, n)[k] == log[m]
  {
    if k < |Written(p, log, n - 1)| {
      m := TurnOf(p, log, n - 1, k);
    } else {
      m := n - 1;
    }
  }

  /** What is written belongs to a host of the plan, between the two times. */
  lemma WrittenInPlan(p: Plan, log: seq<Entry>, k: nat)
    requires Turns(p, log) && k < |Written(p, log, |log|)|
    ensures var e := Written(p, log, |log|)[k];
            p.Has(e.src) && p.base <= e.t <= p.end
  {
    var m := TurnOf(p, log, |log|, k);
    assert TurnAt(p, log, m);
    DueFromBase(p, log, m, log[m].src);
  }

  lemma {:induction false} WrittenOrdered(p: Plan, log: seq<Entry>, n: nat)
    requires n <= |log| && Ordered(log)
    ensures Ordered(Written(p, log, n))
  {
    if n > 0 {
      WrittenOrdered(p, log, n - 1);
      var before := Written(p, log, n - 1);
      forall k | 0 <= k < |before| ensures Before(before[k], log[n - 1]) {
        var m := TurnOf(p, log, n - 1, k);
      }
    }
  }

  lemma FileSorted(p: Plan, size: nat -> int, log: seq<Entry>, flows: seq<Flow>)
    requires Turns(p, log) && FlowsOf(Written(p, log, |log|), size, flows)
    ensures Sorted(flows)
  {
    WrittenOrdered(p, log, |log|);
    var w := Written(p, log, |log|);
    forall i, j | 0 <= i < j < |flows| ensures flows[i].start <= flows[j].start {
      assert Before(w[i], w[j]);
    }
  }

  /** One host, times up to 10, all gaps 6. */
  const SHORT: Plan := Plan(0, 10, 0, 1, (k: nat) => 6)

  /** Its only arrival before the end is at 6; as the next would be at 12, no flow is written. */
  lemma LastArrivalNotWritten()
    ensures Turns(SHORT, [Entry(6, 0)]) && Written(SHORT, [Entry(6, 0)], 1) == [] && 6 <= SHORT.end
  {
    var log := [Entry(6, 0)];
    assert Due(SHORT, log, 0, 0) == 6 && Late(SHORT, log, 0) && log[0].src == 0;
    assert TurnAt(SHORT, log, 0);
    assert Written(SHORT, log, 0) == [];
  }

  // ---- The loop ----

  /** The host has an entry in the heap. */
  ghost predicate Live(h: seq<Entry>, host: nat) {
    exists i :: 0 <= i < |h| && h[i].src == host
  }

  ghost predicate InPlace(p: Plan, log: seq<Entry>, e: Entry) {
    p.Has(e.src) && !Gone(p, log, |log|, e.src) && e.t == Due(p, log, |log|, e.src)
  }

  /** The entries are the hosts that have not left, with their times, after all turns so far. */
  ghost predicate HeapInv(p: Plan, h: seq<Entry>, log: seq<Entry>) {
    OneEach(h) && AllInPlace(p, log, h) && NoneEarlier(log, h) && NoneLost(p, log, h)
  }

  ghost predicate OneEach(h: seq<Entry>) {
    forall i, j :: 0 <= i < j < |h| ==> h[i].src != h[j].src
  }

  ghost predicate AllInPlace(p: Plan, log: seq<Entry>, h: seq<Entry>) {
    forall i :: 0 <= i < |h| ==> InPlace(p, log, h[i])
  }

  ghost predicate NoneEarlier(log: seq<Entry>, h: seq<Entry>) {
    forall i, m :: 0 <= i < |h| && 0 <= m < |log| ==> Before(log[m], h[i])
  }

  ghost predicate NoneLost(p: Plan, log: seq<Entry>, h: seq<Entry>) {
    forall host: nat :: p.Has(host) ==> Live(h, host) || Gone(p, log, |log|, host)
  }

  ghost predicate LogInv(p: Plan, log: seq<Entry>) {
    Ordered(log) && forall m :: 0 <= m < |log| ==> TurnAt(p, log, m)
  }

  ghost predicate LoopInv(p: Plan, h: seq<Entry>, log: seq<Entry>) {
    && LogInv(p, log) && HeapInv(p, h, log)
    && |h| <= p.nhost && |log| == |Written(p, log, |log|)| + p.nhost - |h|
  }

  /** The next arrival of the host, unless it is after the end. */
  function Back(p: Plan, log: seq<Entry>, e: Entry): seq<Entry> {
    var next := e.t + p.GapIn(|log|);
    if next > p.end then [] else [Entry(next, e.src)]
  }

  /** The heap after a turn of h[i]. */
  function NextHeap(p: Plan, log: seq<Entry>, h: seq<Entry>, i: nat): (h': seq<Entry>)
    requires i < |h|
    ensures var next := h[i].t + p.GapIn(|log|);
            h' == if next > p.end then Without(h, i) else Without(h, i) + [Entry(next, h[i].src)]
  {
    Without(h, i) + Back(p, log, h[i])
  }

  function Spare(end: nat, e: Entry): nat {
    if e.t <= end then end - e.t else 0
  }

  ghost function Slack(end: nat, h: seq<Entry>): nat {
    if h == [] then 0 else Slack(end, h[..|h| - 1]) + Spare(end, h[|h| - 1])
  }

  lemma SlackPush(end: nat, h: seq<Entry>, e: Entry)
    ensures Slack(end, h + [e]) == Slack(end, h) + Spare(end, e)
  {
    assert (h + [e])[..|h|] == h;
  }

  lemma {:induction false} SlackWithout(end: nat, h: seq<Entry>, i: nat)
    requires i < |h|
    ensures Slack(end, h) == Slack(end, Without(h, i)) + Spare(end, h[i])
  {
    var front, last := h[..|h| - 1], h[|h| - 1];
    if i == |h| - 1 {
      assert Without(h, i) == front;
    } else {
      SlackWithout(end, front, i);
      assert Without(h, i) == Without(front, i) + [last];
      SlackPush(end, Without(front, i), last);
    }
  }

  /** A turn takes a host out of the heap, or takes its gap away from the time that is left. */
  lemma SlackTurn(p: Plan, log: seq<Entry>, h: seq<Entry>, i: nat)
    requires i < |h|
    ensures var h' := NextHeap(p, log, h, i);
            || |h'| == |h| - 1
            || (|h'| == |h| && Slack(p.end, h') + p.GapIn(|log|) == Slack(p.end, h))
  {
    SlackWithout(p.end, h, i);
    if Back(p, log, h[i]) != [] {
      SlackPush(p.end, Without(h, i), Back(p, log, h[i])[0]);
    }
  }

  /** One turn of a host that is in place: nothing changes about the earlier turns and other hosts. */
  lemma OneMoreTurn(p: Plan, log: seq<Entry>, e: Entry)
    ensures var log' := log + [e];
            && (forall n: nat, host :: n <= |log| && p.Has(host) ==> Due(p, log', n, host) == Due(p, log, n, host))
            && (forall m :: 0 <= m < |log| ==> (Late(p, log', m) <==> Late(p, log, m)))
            && (forall n: nat, host :: n <= |log| ==> (Gone(p, log', n, host) <==> Gone(p, log, n, host)))
  {
    var log' := log + [e];
    forall n: nat, host | n <= |log| && p.Has(host) ensures Due(p, log', n, host) == Due(p, log, n, host) {
      assert log'[..n] == log[..n];
      DueOfPrefix(p, log', log, n, host);
    }
    forall n: nat, host | n <= |log| ensures Gone(p, log', n, host) <==> Gone(p, log, n, host) {
      assert log'[..n] == log[..n];
      GoneOfPrefix(p, log', log, n, host);
    }
  }

  lemma GoneNext(p: Plan, log: seq<Entry>, e: Entry, host: nat)
    ensures var log' := log + [e];
            Gone(p, log', |log'|, host) <==> Gone(p, log, |log|, host) || (e.src == host && Late(p, log', |log|))
  {
    OneMoreTurn(p, log, e);
    var log' := log + [e];
    if Gone(p, log, |log|, host) {
      var m :| 0 <= m < |log| && log[m].src == host && Late(p, log, m);
      assert log'[m].src == host && Late(p, log', m);
    }
    if e.src == host && Late(p, log', |log|) {
      assert log'[|log|].src == host;
    }
  }

  lemma {:induction false} WrittenOfPrefix(p: Plan, a: seq<Entry>, b: seq<Entry>, n: nat)
    requires n <= |a| && n <= |b| && a[..n] == b[..n]
    ensures Written(p, a, n) == Written(p, b, n)
  {
    if n > 0 {
      assert a[n - 1] == a[..n][n - 1] == b[..n][n - 1] == b[n - 1];
      assert a[..n - 1] == a[..n][..n - 1] && b[..n - 1] == b[..n][..n - 1];
      WrittenOfPrefix(p, a, b, n - 1);
    }
  }

  lemma WrittenNext(p: Plan, log: seq<Entry>, e: Entry)
    ensures Written(p, log + [e], |log + [e]|)
            == Written(p, log, |log|) + if e.t + p.GapIn(|log|) > p.end then [] else [e]
  {
    WrittenOfPrefix(p, log + [e], log, |log|);
  }

  lemma LogNext(p: Plan, log: seq<Entry>, h: seq<Entry>, i: nat)
    requires LogInv(p, log) && i < |h| && InPlace(p, log, h[i]) && NoneEarlier(log, h)
    ensures LogInv(p, log + [h[i]])
  {
    var log' := log + [h[i]];
    OneMoreTurn(p, log, h[i]);
    forall m | 0 <= m < |log'| ensures TurnAt(p, log', m) {
      if m < |log| { assert TurnAt(p, log, m); }
    }
  }

  lemma InPlaceNext(p: Plan, log: seq<Entry>, h: seq<Entry>, i: nat)
    requires i < |h| && OneEach(h) && AllInPlace(p, log, h)
    ensures AllInPlace(p, log + [h[i]], NextHeap(p, log, h, i))
  {
    var e, rest, back := h[i], Without(h, i), Back(p, log, h[i]);
    assert InPlace(p, log, e);
    forall j | 0 <= j < |rest| ensures InPlace(p, log + [e], rest[j]) {
      assert rest[j] == h[if j < i then j else j + 1];
      StaysInPlace(p, log, e, rest[j]);
    }
    GoneNext(p, log, e, e.src);
    if back != [] { assert InPlace(p, log + [e], back[0]); }
  }

  lemma StaysInPlace(p: Plan, log: seq<Entry>, e: Entry, other: Entry)
    requires InPlace(p, log, other) && other.src != e.src
    ensures InPlace(p, log + [e], other)
  {
    GoneNext(p, log, e, other.src);
    OneMoreTurn(p, log, e);
  }

  lemma NoneLostNext(p: Plan, log: seq<Entry>, h: seq<Entry>, i: nat)
    requires i < |h| && NoneLost(p, log, h)
    ensures NoneLost(p, log + [h[i]], NextHeap(p, log, h, i))
  {
    var e, rest := h[i], Without(h, i);
    var log', h' := log + [e], NextHeap(p, log, h, i);
    forall host: nat | p.Has(host) ensures Live(h', host) || Gone(p, log', |log'|, host) {
      GoneNext(p, log, e, host);
      if host == e.src {
        assert Late(p, log', |log|) || h'[|rest|].src == host;
      } else if Live(h, host) {
        var j :| 0 <= j < |h| && h[j].src == host;
        assert h'[if j < i then j else j - 1] == h[j];
      }
    }
  }

  lemma OrderNext(p: Plan, log: seq<Entry>, h: seq<Entry>, i: nat)
    requires i < |h| && First(h, i) && OneEach(h) && NoneEarlier(log, h)
    ensures OneEach(NextHeap(p, log, h, i))
    ensures NoneEarlier(log + [h[i]], NextHeap(p, log, h, i))
  {}

  /** One turn of the host that is first in the heap: it goes back into the heap, and its flow is written,
      exactly if it is due again by the end. */
  lemma TurnKeepsInv(p: Plan, log: seq<Entry>, h: seq<Entry>, i: nat)
    requires LoopInv(p, h, log) && i < |h| && First(h, i)
    ensures LoopInv(p, NextHeap(p, log, h, i), log + [h[i]])
    ensures Written(p, log + [h[i]], |log + [h[i]]|)
            == Written(p, log, |log|) + if h[i].t + p.GapIn(|log|) > p.end then [] else [h[i]]
  {
    assert InPlace(p, log, h[i]);
    WrittenNext(p, log, h[i]);
    hide InPlace, Written;
    LogNext(p, log, h, i);
    InPlaceNext(p, log, h, i);
    NoneLostNext(p, log, h, i);
    OrderNext(p, log, h, i);
    hide LogInv, OneEach, AllInPlace, NoneEarlier, NoneLost;
  }

  // ---- The generators ----

  /** One entry per host, with its first arrival. */
  method InitialHeap(p: Plan) returns (h: seq<Entry>)
    ensures LoopInv(p, h, [])
  {
    h := [];
    for i := 0 to p.nhost
      invariant |h| == i && forall j :: 0 <= j < i ==> h[j] == Entry(p.base + p.gap(j), p.first + j)
    {
      h := h + [Entry(p.base + p.gap(i), p.first + i)];
    }
    forall host: nat | p.Has(host) ensures Live(h, host) {
      assert h[host - p.first].src == host;
    }
  }

  /** A positive gap that is still to come. */
  lemma NextPositive(gap: nat -> nat, n: nat) returns (m: nat)
    requires Recurring(gap)
    ensures n <= m && gap(m) > 0
  {
    assert PositiveAfter(gap, n);
    m :| n <= m && gap(m) > 0;
  }

  lemma HeapInPlan(p: Plan, log: seq<Entry>, h: seq<Entry>, i: nat)
    requires LoopInv(p, h, log) && i < |h|
    ensures p.Has(h[i].src)
  {
    assert InPlace(p, log, h[i]);
  }

  lemma AtEnd(p: Plan, log: seq<Entry>)
    requires LoopInv(p, [], log)
    ensures Turns(p, log) && |log| == |Written(p, log, |log|)| + p.nhost
  {}

  /** One turn of the loop, whatever is written, and a positive gap still to come. */
  lemma SomeTurn(p: Plan, log: seq<Entry>, h: seq<Entry>, next: nat)
    returns (log': seq<Entry>, h': seq<Entry>, next': nat)
    requires Recurring(p.gap) && LoopInv(p, h, log) && h != []
    requires p.nhost + |log| <= next && p.gap(next) > 0
    ensures LoopInv(p, h', log') && log <= log' && Written(p, log, |log|) <= Written(p, log', |log'|)
    ensures p.nhost + |log'| <= next' && p.gap(next') > 0
    ensures || |h'| < |h|
            || (|h'| == |h| && Slack(p.end, h') < Slack(p.end, h))
            || (|h'| == |h| && Slack(p.end, h') == Slack(p.end, h) && next' - |log'| < next - |log|)
  {
    hide LoopInv, Recurring, Written, NextHeap, Slack, First;
    var i := Smallest(h);
    log', h', next' := log + [h[i]], NextHeap(p, log, h, i), next;
    SlackTurn(p, log, h, i);
    TurnKeepsInv(p, log, h, i);
    if next == p.nhost + |log| { next' := NextPositive(p.gap, next + 1); }
  }

  /** What the loop does from here on, whatever is written: it comes to an end. */
  lemma {:induction false} Finished(p: Plan, log: seq<Entry>, h: seq<Entry>, next: nat) returns (all: seq<Entry>)
    requires Recurring(p.gap) && LoopInv(p, h, log) && p.nhost + |log| <= next && p.gap(next) > 0
    ensures Turns(p, all) && |all| == |Written(p, all, |all|)| + p.nhost
    ensures log <= all && Written(p, log, |log|) <= Written(p, all, |all|)
    decreases |h|, Slack(p.end, h), next - |log|
  {
    hide *;
    if h == [] {
      AtEnd(p, log);
      all := log;
    } else {
      var log', h', next' := SomeTurn(p, log, h, next);
      all := Finished(p, log', h', next');
    }
  }

  lemma {:induction false} Smallest(h: seq<Entry>) returns (i: nat)
    requires h != []
    ensures i < |h| && First(h, i)
  {
    i := 0;
    if |h| > 1 {
      var k := Smallest(h[..|h| - 1]);
      i := if Before(h[k], h[|h| - 1]) then k else |h| - 1;
      assert forall j :: 0 <= j < |h| - 1 ==> h[..|h| - 1][j] == h[j];
    }
  }

  /** Every flow goes where its turn leads. */
  ghost predicate Sent(dst: (nat, nat) -> Option<nat>, flows: seq<Flow>) {
    forall k: nat :: k < |flows| ==> dst(flows[k].src, k) == Some(flows[k].dst)
  }

  ghost predicate Unsent(dst: (nat, nat) -> Option<nat>, written: seq<Entry>) {
    exists k: nat :: k < |written| && dst(written[k].src, k).None?
  }

  /** The loop of both generators between data centres: pop the host that is due first; write its flow
      and push it back, unless it is next due too late. Choosing a destination can fail. */
  method PopAndPush(p: Plan, dst: (nat, nat) -> Option<nat>, size: nat -> int)
    returns (failed: bool, nFlow: nat, flows: seq<Flow>, ghost log: seq<Entry>)
    requires Recurring(p.gap)
    ensures Turns(p, log) && |log| == |Written(p, log, |log|)| + p.nhost
    ensures failed <==> Unsent(dst, Written(p, log, |log|))
    ensures !failed ==> Generated(p, size, nFlow, flows, log) && Sent(dst, flows)
  {
    hide LoopInv, Slack, Without, Turns, Recurring, First, NextHeap, Written;
    var hostHeap := InitialHeap(p);
    failed, nFlow, flows, log := false, 0, [], [];
    var drawn := p.nhost;
    ghost var next := NextPositive(p.gap, drawn);
    while hostHeap != []
      invariant LoopInv(p, hostHeap, log) && drawn == p.nhost + |log| && nFlow == |flows|
      invariant FlowsOf(Written(p, log, |log|), size, flows) && Sent(dst, flows)
      invariant drawn <= next && p.gap(next) > 0
      decreases |hostHeap|, Slack(p.end, hostHeap), next - drawn
    {
      ghost var heap0, log0 := hostHeap, log;
      var e;
      ghost var i;
      e, hostHeap, i := HeapPop(hostHeap);
      SlackTurn(p, log0, heap0, i);
      TurnKeepsInv(p, log0, heap0, i);
      log := log + [e];
      var nextT := e.t + p.gap(drawn);
      drawn := drawn + 1;
      if nextT <= p.end {
        if dst(e.src, nFlow).None? {
          ghost var written := Written(p, log, |log|);
          next := NextPositive(p.gap, drawn);
          log := Finished(p, log, NextHeap(p, log0, heap0, i), next);
          assert Written(p, log, |log|)[nFlow] == written[nFlow] == e;
          return true, nFlow, flows, log;
        }
        var bytes := size(nFlow);
        if bytes <= 0 {
          bytes := 1;
        }
        flows := flows + [Flow(e.src, dst(e.src, nFlow).value, 3, 100, bytes, e.t)];
        nFlow := nFlow + 1;
        hostHeap := hostHeap + [Entry(nextT, e.src)];
      }
      assert hostHeap == NextHeap(p, log0, heap0, i);
      if next < drawn { next := NextPositive(p.gap, drawn); }
    }
    AtEnd(p, log);
  }

  // ---- Destinations ----

  function OtherDcs(dcCount: nat, srcDc: nat): (r: seq<nat>)
    requires srcDc < dcCount
    ensures |r| == dcCount - 1 && forall dc :: dc in r ==> dc < dcCount && dc != srcDc
  {
    seq(srcDc, i requires 0 <= i < srcDc => i)
    + seq(dcCount - srcDc - 1, i requires 0 <= i < dcCount - srcDc - 1 => srcDc + 1 + i)
  }

  /** Host number `host`, of those of one data centre. */
  function HostIn(dcNodes: nat, dc: nat, host: nat): nat
    requires dcNodes > 0
  {
    dc * dcNodes + host % dcNodes
  }

  predicate InDc(dcNodes: nat, dc: nat, host: nat) {
    dcNodes > 0 && host / dcNodes == dc
  }

  lemma HostInDc(dcNodes: nat, dc: nat, host: nat)
    requires dcNodes > 0
    ensures InDc(dcNodes, dc, HostIn(dcNodes, dc, host))
  {
    DivMod(dcNodes, dc, host % dcNodes);
  }

  /** The hosts of a data centre are numbered in a row. */
  lemma RowInDc(dcNodes: nat, dc: nat, host: nat)
    requires dc * dcNodes <= host < dc * dcNodes + dcNodes
    ensures InDc(dcNodes, dc, host)
  {
    DivMod(dcNodes, dc, host - dc * dcNodes);
  }

  /** Any host of the data centre. */
  function NamedDst(dcNodes: nat, dc: nat, host: nat): Option<nat> {
    if dcNodes > 0 then Some(HostIn(dcNodes, dc, host)) else None
  }

  /** There is a choice unless the data centre of the source is the only one. */
  function ElsewhereDst(dcCount: nat, dcNodes: nat, src: nat, dc: nat, host: nat): Option<nat> {
    if dcCount >= 2 && dcNodes > 0 && src / dcNodes < dcCount then
      var otherDcs := OtherDcs(dcCount, src / dcNodes);
      Some(HostIn(dcNodes, otherDcs[dc % |otherDcs|], host))
    else None
  }

  /** The destination has the drawn number in the drawn one of the other data centres, counted upwards. */
  predicate SentElsewhere(dcCount: nat, dcNodes: nat, dc: nat, host: nat, src: nat, dst: nat) {
    && dcCount > 1 && dcNodes > 0 && dst < dcCount * dcNodes && dst % dcNodes == host % dcNodes
    && var other := dc % (dcCount - 1);
       dst / dcNodes == if other < src / dcNodes then other else other + 1
  }

  lemma OtherDcAt(dcCount: nat, srcDc: nat, c: nat)
    requires srcDc < dcCount && c < dcCount - 1
    ensures OtherDcs(dcCount, srcDc)[c] == if c < srcDc then c else c + 1
  {}

  lemma HostRest(dcNodes: nat, dc: nat, host: nat)
    requires dcNodes > 0
    ensures HostIn(dcNodes, dc, host) % dcNodes == host % dcNodes
  {
    DivMod(dcNodes, dc, host % dcNodes);
  }

  lemma Elsewhere(dcCount: nat, dcNodes: nat, src: nat, dc: nat, host: nat)
    requires src < dcCount * dcNodes
    ensures var dst := ElsewhereDst(dcCount, dcNodes, src, dc, host);
            && (dst.None? <==> dcCount == 1)
            && (dst.Some? ==> SentElsewhere(dcCount, dcNodes, dc, host, src, dst.value))
  {
    MulMonotone(dcCount, src / dcNodes, dcNodes);
    if dcCount >= 2 {
      OtherDcAt(dcCount, src / dcNodes, dc % (dcCount - 1));
      var dstDc := OtherDcs(dcCount, src / dcNodes)[dc % (dcCount - 1)];
      HostInDc(dcNodes, dstDc, host);
      HostRest(dcNodes, dstDc, host);
      MulMonotone(dstDc + 1, dcCount, dcNodes);
    }
  }

  lemma OtherDc(dcCount: nat, dcNodes: nat, dc: nat, host: nat, src: nat, dst: nat)
    requires SentElsewhere(dcCount, dcNodes, dc, host, src, dst)
    ensures dcNodes > 0 && dst / dcNodes != src / dcNodes
  {}

  datatype Outcome = BadDcs | NoOtherDc | File(header: nat, flows: seq<Flow>)

  /** Flows from every data centre to every other. With one data centre there is no other to choose, which
      is an error as soon as a flow is to be written. */
  method GenerateInterDc(dcCount: nat, dcNodes: nat, base: nat, end: nat, draws: Draws)
    returns (r: Outcome, ghost log: seq<Entry>)
    requires Recurring(draws.gap)
    ensures var p := Plan(base, end, 0, dcCount * dcNodes, draws.gap);
            && Turns(p, log) && !r.BadDcs?
            && (r.NoOtherDc? <==> dcCount == 1 && Written(p, log, |log|) != [])
            && (r.File? ==> Generated(p, draws.size, r.header, r.flows, log))
    ensures r.File? ==> forall k: nat :: k < |r.flows| ==>
              && SentElsewhere(dcCount, dcNodes, draws.dc(k), draws.host(k), r.flows[k].src, r.flows[k].dst)
              && r.flows[k].dst / dcNodes != r.flows[k].src / dcNodes
  {
    var p := Plan(base, end, 0, dcCount * dcNodes, draws.gap);
    var dst := (src: nat, k: nat) => ElsewhereDst(dcCount, dcNodes, src, draws.dc(k), draws.host(k));
    var failed, header, flows;
    failed, header, flows, log := PopAndPush(p, dst, draws.size);
    hide Turns, Recurring, ElsewhereDst, SentElsewhere;
    ghost var written := Written(p, log, |log|);
    forall k: nat | k < |written| ensures dst(written[k].src, k).None? <==> dcCount == 1 {
      WrittenInPlan(p, log, k);
      Elsewhere(dcCount, dcNodes, written[k].src, draws.dc(k), draws.host(k));
    }
    assert written != [] ==> dst(written[0].src, 0).None? || dcCount != 1;
    if failed {
      return NoOtherDc, log;
    }
    forall k: nat | k < |flows|
      ensures SentElsewhere(dcCount, dcNodes, draws.dc(k), draws.host(k), flows[k].src, flows[k].dst)
      ensures dcNodes > 0 && flows[k].dst / dcNodes != flows[k].src / dcNodes
    {
      WrittenInPlan(p, log, k);
      Elsewhere(dcCount, dcNodes, flows[k].src, draws.dc(k), draws.host(k));
      OtherDc(dcCount, dcNodes, draws.dc(k), draws.host(k), flows[k].src, flows[k].dst);
    }
    r := File(header, flows);
  }

  function ToNamed(dcNodes: nat, dc: nat, host: nat -> nat): (nat, nat) -> Option<nat> {
    (_: nat, k: nat) => NamedDst(dcNodes, dc, host(k))
  }

  /** The hosts are those of one data centre, and the destinations the drawn hosts of another. */
  ghost predicate Between(dcNodes: nat, srcDc: nat, dstDc: nat, host: nat -> nat, flows: seq<Flow>) {
    forall k: nat :: k < |flows| ==>
      && InDc(dcNodes, srcDc, flows[k].src) && InDc(dcNodes, dstDc, flows[k].dst)
      && flows[k].dst % dcNodes == host(k) % dcNodes
  }

  lemma SentToNamed(p: Plan, size: nat -> int, dcNodes: nat, srcDc: nat, dstDc: nat, host: nat -> nat, header: nat,
                    flows: seq<Flow>, log: seq<Entry>)
    requires p.first == srcDc * dcNodes && p.nhost == dcNodes
    requires Generated(p, size, header, flows, log) && Sent(ToNamed(dcNodes, dstDc, host), flows)
    ensures Between(dcNodes, srcDc, dstDc, host, flows)
  {
    hide Turns, HostIn;
    forall k: nat | k < |flows|
      ensures InDc(dcNodes, srcDc, flows[k].src) && InDc(dcNodes, dstDc, flows[k].dst)
      ensures dcNodes > 0 && flows[k].dst % dcNodes == host(k) % dcNodes
    {
      WrittenInPlan(p, log, k);
      hide InDc;
      RowInDc(dcNodes, srcDc, flows[k].src);
      HostInDc(dcNodes, dstDc, host(k));
      HostRest(dcNodes, dstDc, host(k));
    }
  }

  lemma NamedAlwaysSent(p: Plan, dcNodes: nat, dstDc: nat, host: nat -> nat, log: seq<Entry>)
    requires p.nhost == dcNodes && Turns(p, log)
    ensures !Unsent(ToNamed(dcNodes, dstDc, host), Written(p, log, |log|))
  {
    var written, dst := Written(p, log, |log|), ToNamed(dcNodes, dstDc, host);
    hide Turns, Written, HostIn;
    forall k: nat | k < |written| ensures dst(written[k].src, k).Some? {
      WrittenInPlan(p, log, k);
      assert dst(written[k].src, k) == NamedDst(dcNodes, dstDc, host(k));
    }
  }

  /** Flows from one data centre to another that both are named by the user. */
  method GenerateTwoDcs(dcCount: nat, dcNodes: nat, srcDc: nat, dstDc: nat, base: nat, end: nat, draws: Draws)
    returns (r: Outcome, ghost log: seq<Entry>)
    requires Recurring(draws.gap)
    ensures r.BadDcs? <==> srcDc >= dcCount || dstDc >= dcCount || srcDc == dstDc
    ensures r.BadDcs? || r.File?
    ensures r.File? ==> Generated(Plan(base, end, srcDc * dcNodes, dcNodes, draws.gap), draws.size, r.header, r.flows,
                                  log)
    ensures r.File? ==> Between(dcNodes, srcDc, dstDc, draws.host, r.flows)
  {
    if srcDc >= dcCount || dstDc >= dcCount || srcDc == dstDc {
      return BadDcs, [];
    }
    hide *;
    var p := Plan(base, end, srcDc * dcNodes, dcNodes, draws.gap);
    var failed, header, flows;
    failed, header, flows, log := PopAndPush(p, ToNamed(dcNodes, dstDc, draws.host), draws.size);
    NamedAlwaysSent(p, dcNodes, dstDc, draws.host, log);
    SentToNamed(p, draws.size, dcNodes, srcDc, dstDc, draws.host, header, flows, log);
    r := File(header, flows);
  }

  ghost predicate DiffersAfter(host: nat -> nat, nhost: nat, src: nat, n: nat)
    requires nhost > 0
  {
    exists m: nat :: n <= m && host(m) % nhost != src
  }

  /** For every host, one that differs from it is still to be drawn. */
  ghost predicate Varied(host: nat -> nat, nhost: nat) {
    nhost > 0 ==> forall src: nat, n: nat :: src < nhost ==> DiffersAfter(host, nhost, src, n)
  }

  /** Draw until the destination is not the source. */
  method PickOther(nhost: nat, src: nat, host: nat -> nat, n: nat) returns (dst: nat, n': nat)
    requires nhost > 0 && DiffersAfter(host, nhost, src, n)
    ensures dst < nhost && dst != src && n < n' && dst == host(n' - 1) % nhost
    ensures forall m :: n <= m < n' - 1 ==> host(m) % nhost == src
  {
    ghost var m: nat :| n <= m && host(m) % nhost != src;
    dst, n' := host(n) % nhost, n + 1;
    while dst == src
      invariant n < n' && dst == host(n' - 1) % nhost && n' - 1 <= m
      invariant forall k :: n <= k < n' - 1 ==> host(k) % nhost == src
      decreases m - n'
    {
      dst, n' := host(n') % nhost, n' + 1;
    }
  }

  /** In turn m the draws up to number picks[m] were looked at: the first that is not the host of the turn. */
  ghost predicate PickAt(nhost: nat, host: nat -> nat, log: seq<Entry>, picks: seq<nat>, m: nat)
    requires nhost > 0 && m < |log| == |picks|
  {
    var from := if m == 0 then 0 else picks[m - 1] + 1;
    && from <= picks[m] && host(picks[m]) % nhost != log[m].src
    && forall i :: from <= i < picks[m] ==> host(i) % nhost == log[m].src
  }

  /** The draws that the written turns picked. */
  function Picked(p: Plan, log: seq<Entry>, picks: seq<nat>, n: nat): seq<nat>
    requires n <= |log| == |picks|
  {
    if n == 0 then [] else Picked(p, log, picks, n - 1) + if Late(p, log, n - 1) then [] else [picks[n - 1]]
  }

  /** Every flow goes to the host that its turn picked. */
  ghost predicate SentToPicked(p: Plan, host: nat -> nat, log: seq<Entry>, picks: seq<nat>, flows: seq<Flow>) {
    && |picks| == |log| && (p.nhost > 0 || log == [])
    && (forall m :: 0 <= m < |log| ==> PickAt(p.nhost, host, log, picks, m))
    && var picked := Picked(p, log, picks, |log|);
       |picked| == |flows| && forall k :: 0 <= k < |flows| ==> p.nhost > 0 && flows[k].dst == host(picked[k]) % p.nhost
  }

  lemma {:induction false} PickedOfPrefix(p: Plan, log: seq<Entry>, picks: seq<nat>, e: Entry, x: nat, n: nat)
    requires n <= |log| == |picks|
    ensures Picked(p, log + [e], picks + [x], n) == Picked(p, log, picks, n)
  {
    if n > 0 { PickedOfPrefix(p, log, picks, e, x, n - 1); }
  }

  /** One more turn, whose flow, if it is not late, goes to the host that it picked. */
  lemma PickKeeps(p: Plan, host: nat -> nat, log: seq<Entry>, picks: seq<nat>, flows: seq<Flow>, e: Entry, x: nat,
                  more: seq<Flow>)
    requires SentToPicked(p, host, log, picks, flows) && p.nhost > 0
    requires var from := if picks == [] then 0 else picks[|picks| - 1] + 1;
             && from <= x && host(x) % p.nhost != e.src
             && forall i :: from <= i < x ==> host(i) % p.nhost == e.src
    requires if e.t + p.GapIn(|log|) > p.end then more == []
             else |more| == 1 && more[0].dst == host(x) % p.nhost
    ensures SentToPicked(p, host, log + [e], picks + [x], flows + more)
  {
    var log', picks' := log + [e], picks + [x];
    PickedOfPrefix(p, log, picks, e, x, |log|);
    forall m | 0 <= m < |log'| ensures PickAt(p.nhost, host, log', picks', m) {
      if m < |log| { assert PickAt(p.nhost, host, log, picks, m); }
    }
    hide PickAt;
  }

  /** Flows between any two hosts: look at the host that is due first, and pop it or replace it. */
  method GenerateAny(nhost: nat, base: nat, end: nat, draws: Draws)
    returns (header: nat, flows: seq<Flow>, ghost log: seq<Entry>, ghost picks: seq<nat>)
    requires Recurring(draws.gap) && Varied(draws.host, nhost)
    ensures Generated(Plan(base, end, 0, nhost, draws.gap), draws.size, header, flows, log)
    ensures SentToPicked(Plan(base, end, 0, nhost, draws.gap), draws.host, log, picks, flows)
    ensures forall k :: 0 <= k < |flows| ==> flows[k].dst < nhost && flows[k].dst != flows[k].src
  {
    hide LoopInv, Slack, Without, Turns, Recurring, DiffersAfter, NextHeap, Written, First, SentToPicked, FlowsOf;
    var p := Plan(base, end, 0, nhost, draws.gap);
    var hostList := InitialHeap(p);
    header, flows, log, picks := 0, [], [], [];
    var drawn, picked: nat := nhost, 0;
    ghost var next := NextPositive(p.gap, drawn);
    NothingPicked(p, draws);
    while |hostList| > 0
      invariant LoopInv(p, hostList, log) && drawn == p.nhost + |log| && header == |flows|
      invariant FlowsOf(Written(p, log, |log|), draws.size, flows)
      invariant SentToPicked(p, draws.host, log, picks, flows)
      invariant picked == if picks == [] then 0 else picks[|picks| - 1] + 1
      invariant forall k :: 0 <= k < |flows| ==> flows[k].dst < nhost && flows[k].dst != flows[k].src
      invariant drawn <= next && p.gap(next) > 0
      decreases |hostList|, Slack(end, hostList), next - drawn
    {
      ghost var heap0, log0, flows0 := hostList, log, flows;
      var i := SmallestAt(hostList);
      var e := hostList[i];
      HeapInPlan(p, log, hostList, i);
      SlackTurn(p, log, hostList, i);
      TurnKeepsInv(p, log, hostList, i);
      var interT := p.gap(drawn);
      drawn := drawn + 1;
      var dst;
      dst, picked := PickOther(nhost, e.src, draws.host, picked);
      log := log + [e];
      if e.t + interT > end {
        hostList := Without(hostList, i);
        PickKeeps(p, draws.host, log0, picks, flows, e, picked - 1, []);
        assert flows + [] == flows;
        assert Written(p, log, |log|) == Written(p, log0, |log0|);
      } else {
        var bytes := draws.size(header);
        if bytes <= 0 {
          bytes := 1;
        }
        header := header + 1;
        var f := Flow(e.src, dst, 3, 100, bytes, e.t);
        PickKeeps(p, draws.host, log0, picks, flows, e, picked - 1, [f]);
        OneMoreFlow(Written(p, log0, |log0|), draws.size, flows, e, f);
        flows := flows + [f];
        hostList := Without(hostList, i) + [Entry(e.t + interT, e.src)];
      }
      picks := picks + [picked - 1];
      assert hostList == NextHeap(p, log0, heap0, i);
      if next < drawn { next := NextPositive(p.gap, drawn); }
    }
    AtEnd(p, log);
  }

  lemma NothingPicked(p: Plan, draws: Draws)
    ensures SentToPicked(p, draws.host, [], [], []) && FlowsOf(Written(p, [], 0), draws.size, [])
  {}

  lemma OneMoreFlow(written: seq<Entry>, size: nat -> int, flows: seq<Flow>, e: Entry, f: Flow)
    requires FlowsOf(written, size, flows) && f.start == e.t && f.src == e.src && f.pg == 3 && f.dport == 100
    requires f.size == if size(|flows|) <= 0 then 1 else size(|flows|)
    ensures FlowsOf(written + [e], size, flows + [f])
  {}

  // ---- The file and the simulation together ----

  /** A simulation of a generated file installs all of it, every flow within the tolerance before its
      start time, in no more calls than there are flows; at rest it has finished and stopped. */
  lemma GeneratedFileRuns(p: Plan, size: nat -> int, header: nat, flows: seq<Flow>, log: seq<Entry>, hosts: set<nat>,
                          s: State)
    requires Generated(p, size, header, flows, log) && Reachable(hosts, header, flows, s)
    ensures s.flowNum == header && s.activations <= |s.qps| <= header
    ensures forall k :: 0 <= k < |s.qps| ==>
              s.qps[k].flow == flows[k] && s.qps[k].at <= flows[k].start <= s.qps[k].at + 1
    ensures (forall a :: !Enabled(s, a)) ==>
              |s.qps| == |s.finished| == header && s.stops == if header > 0 then 1 else 0
  {
    FileSorted(p, size, log, flows);
    FlowsAccounted(hosts, header, flows, s);
    ReachableInv(hosts, header, flows, s);
    forall k | 0 <= k < |s.qps| ensures s.qps[k].at <= flows[k].start <= s.qps[k].at + 1 {
      SortedInstalledOnTime(hosts, header, flows, s, k);
    }
    if forall a :: !Enabled(s, a) {
      RestMeansAllDone(hosts, header, flows, s);
    }
  }
}
