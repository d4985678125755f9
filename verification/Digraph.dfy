/** Loops in a finite relation, and when there are none. */
module Digraph {
  import opened Basics

  type Item = int

  type Edges = set<(Item, Item)>

  /** c[0] before c[1] before ... before c[0] again. */
  ghost predicate IsLoop(r: Edges, c: seq<Item>) {
    IsWalk(r, c) && (c[|c| - 1], c[0]) in r
  }

  ghost predicate IsWalk(r: Edges, w: seq<Item>) {
    |w| > 0 && forall i :: 0 <= i < |w| - 1 ==> (w[i], w[i + 1]) in r
  }

  ghost predicate Cyclic(r: Edges) {
    exists c :: IsLoop(r, c)
  }

  ghost predicate HasBefore(r: Edges, K: set<Item>, x: Item) {
    exists y :: y in K && (y, x) in r
  }

  lemma WalkBack(r: Edges, w: seq<Item>, y: Item)
    requires IsWalk(r, w) && (y, w[0]) in r
    ensures IsWalk(r, [y] + w) && Items([y] + w) == Items(w) + {y}
  {
    var longer := [y] + w;
    forall i | 0 <= i < |longer| - 1 ensures (longer[i], longer[i + 1]) in r {
      if i > 0 { assert (w[i - 1], w[i - 1 + 1]) in r; }
    }
  }

  /** Where everything has something before it, going back comes round. */
  lemma {:induction false} GoingBack(r: Edges, K: set<Item>, w: seq<Item>) returns (c: seq<Item>)
    requires (forall x :: x in K ==> HasBefore(r, K, x)) && IsWalk(r, w) && Items(w) <= K
    ensures IsLoop(r, c)
    decreases K - Items(w)
  {
    assert w[0] in Items(w);
    assert HasBefore(r, K, w[0]);
    var y :| y in K && (y, w[0]) in r;
    if y in w {
      var j :| 0 <= j < |w| && w[j] == y;
      c := w[..j + 1];
    } else {
      WalkBack(r, w, y);
      c := GoingBack(r, K, [y] + w);
    }
  }

  lemma LoopIn(r: Edges, K: set<Item>)
    requires K != {} && forall x :: x in K ==> HasBefore(r, K, x)
    ensures Cyclic(r)
  {
    var x := SomeMember(K);
    assert IsWalk(r, [x]);
    var c := GoingBack(r, K, [x]);
  }

  ghost predicate HasAfter(r: Edges, K: set<Item>, x: Item) {
    exists y :: y in K && (x, y) in r
  }

  ghost function Swap(r: Edges): Edges {
    set e | e in r :: (e.1, e.0)
  }

  /** The same the other way round. */
  lemma LoopAhead(r: Edges, K: set<Item>)
    requires K != {} && forall x :: x in K ==> HasAfter(r, K, x)
    ensures Cyclic(r)
  {
    forall x | x in K ensures HasBefore(Swap(r), K, x) {
      assert HasAfter(r, K, x);
      var y :| y in K && (x, y) in r;
      assert (y, x) in Swap(r);
    }
    LoopIn(Swap(r), K);
    var c :| IsLoop(Swap(r), c);
    var back := seq(|c|, i requires 0 <= i < |c| => c[|c| - 1 - i]);
    forall i | 0 <= i < |back| - 1 ensures (back[i], back[i + 1]) in r {
      var j := |c| - 2 - i;
      assert (c[j], c[j + 1]) in Swap(r);
    }
    assert IsLoop(r, back);
  }

  // ---- Lists ----

  lemma DistinctBoth(a: seq<Item>, b: seq<Item>)
    requires Distinct(a) && Distinct(b) && forall x :: x in b ==> x !in a
    ensures Distinct(a + b)
  {
    var s := a + b;
    forall i, j | 0 <= i < j < |s| ensures s[i] != s[j] {
      if i < |a| <= j {
        var x: Item := s[j];
        assert x in b;
      }
    }
  }

  /** What is before comes first. */
  ghost predicate InOrder(r: Edges, order: seq<Item>) {
    forall i, j :: 0 <= i < |order| && 0 <= j < |order| && (order[i], order[j]) in r ==> i < j
  }

  /** No loop fits into an order. */
  lemma {:induction false} AlongOrder(r: Edges, order: seq<Item>, w: seq<Item>, i: nat) returns (j: nat)
    requires InOrder(r, order) && IsWalk(r, w) && (forall k :: 0 <= k < |w| ==> w[k] in order)
    requires i < |order| && order[i] == w[0]
    ensures i <= j < |order| && order[j] == w[|w| - 1]
  {
    if |w| == 1 {
      j := i;
    } else {
      var front := w[..|w| - 1];
      var k := AlongOrder(r, order, front, i);
      assert w[|w| - 1] in order;
      j :| 0 <= j < |order| && order[j] == w[|w| - 1];
      assert (w[|w| - 2], w[|w| - 2 + 1]) in r;
    }
  }

  lemma OrderedIsNoLoop(r: Edges, order: seq<Item>, c: seq<Item>)
    requires Distinct(order) && InOrder(r, order) && forall k :: 0 <= k < |c| ==> c[k] in order
    ensures !IsLoop(r, c)
  {
    if IsLoop(r, c) {
      assert c[0] in order;
      var i: nat :| i < |order| && order[i] == c[0];
      var j := AlongOrder(r, order, c, i);
    }
  }
}
