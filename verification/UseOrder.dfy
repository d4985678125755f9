/**
 `use_rec` and the ordering part of `process_use`: which task generators a target uses, directly or
 not, and in which order their libraries are linked.
 */
module UseOrder {
  import opened Basics
  import opened Digraph
  import opened MethodOrder

  /** The `use` list of every task generator; other names are external libraries. */
  type Uses = map<Item, seq<Item>>

  ghost function UseEdges(uses: Uses): Edges {
    set m, k | m in uses && 0 <= k < |uses[m]| :: (m, uses[m][k])
  }

  ghost predicate Leads(uses: Uses, from: Item, x: Item, w: seq<Item>) {
    IsWalk(UseEdges(uses), w) && w[0] == from && w[|w| - 1] == x
  }

  ghost predicate Reaches(uses: Uses, from: Item, x: Item) {
    exists w :: Leads(uses, from, x, w)
  }

  datatype Table = Table(seen: seq<Item>, prec: Prec, notFound: set<Item>)

  ghost predicate Met(t: Table, x: Item) {
    x in t.seen || x in t.notFound
  }

  ghost predicate Sane(uses: Uses, t: Table) {
    && Distinct(t.seen) && (forall x :: x in t.seen ==> x in uses) && (forall x :: x in t.notFound ==> x !in uses)
    && (forall x :: x in t.prec ==> t.prec[x] != [])
    && (forall m, x :: m !in t.seen ==> !Known(t.prec, x, m))
    && ((forall m :: m in uses ==> Distinct(uses[m])) ==> ListsDistinct(t.prec))
  }

  /** m has entered itself with the first n names it uses, and these were met. */
  ghost predicate Entered(uses: Uses, t: Table, m: Item, n: nat)
    requires m in uses && n <= |uses[m]|
  {
    forall x :: (Known(t.prec, x, m) <==> x in uses[m][..n]) && (x in uses[m][..n] ==> Met(t, x))
  }

  ghost predicate AllEntered(uses: Uses, t: Table, m: Item) {
    m in uses && Entered(uses, t, m, |uses[m]|)
  }

  /** From t to t' some task generators were met and have entered all that they use; the others have
      entered nothing more. */
  ghost predicate Grown(uses: Uses, t: Table, t': Table) {
    && Sane(uses, t') && t.seen <= t'.seen && t.notFound <= t'.notFound
    && (forall m :: m in t'.seen && m !in t.seen ==> AllEntered(uses, t', m))
    && (forall m, x :: m in t.seen || m !in t'.seen ==> (Known(t'.prec, x, m) <==> Known(t.prec, x, m)))
  }

  ghost predicate NewFrom(uses: Uses, t: Table, t': Table, from: Item) {
    forall x :: Met(t', x) && !Met(t, x) ==> Reaches(uses, from, x)
  }

  lemma PrefixIn(a: seq<Item>, b: seq<Item>, x: Item)
    requires a <= b && x in a
    ensures x in b
  {
    var i :| 0 <= i < |a| && a[i] == x;
    assert b[i] == x;
  }

  lemma ReachesItself(uses: Uses, x: Item)
    ensures Reaches(uses, x, x)
  {
    assert Leads(uses, x, x, [x]);
  }

  lemma ReachesOn(uses: Uses, m: Item, j: nat, x: Item)
    requires m in uses && j < |uses[m]| && Reaches(uses, uses[m][j], x)
    ensures Reaches(uses, m, x)
  {
    var w :| Leads(uses, uses[m][j], x, w);
    assert (m, uses[m][j]) in UseEdges(uses);
    WalkBack(UseEdges(uses), w, m);
    assert Leads(uses, m, x, [m] + w);
  }

  // ---- The recursion ----

  /** m was met after t and is at its j-th used name. */
  ghost predicate Partial(uses: Uses, t: Table, t': Table, m: Item, j: nat)
  {
    && m in uses && j <= |uses[m]| && m !in t.seen && Sane(uses, t')
    && t.seen + [m] <= t'.seen && t.notFound <= t'.notFound
    && Entered(uses, t', m, j)
    && (forall i :: i in t'.seen && i !in t.seen && i != m ==> AllEntered(uses, t', i))
    && (forall i, x :: i in t.seen || i !in t'.seen ==> (Known(t'.prec, x, i) <==> Known(t.prec, x, i)))
  }

  lemma PartialStart(uses: Uses, t: Table, m: Item)
    requires Sane(uses, t) && m in uses && m !in t.seen
    ensures Partial(uses, t, t.(seen := t.seen + [m]), m, 0)
  {
    DistinctBoth(t.seen, [m]);
    assert uses[m][..0] == [];
  }

  /** The table after m has entered itself at its j-th used name. */
  function Enter(t: Table, x: Item, m: Item): Table {
    t.(prec := Append(t.prec, x, m))
  }

  lemma PartialEnter(uses: Uses, t: Table, t': Table, m: Item, j: nat, t'': Table)
    requires Partial(uses, t, t', m, j) && j < |uses[m]|
    requires Grown(uses, Enter(t', uses[m][j], m), t'') && Met(t'', uses[m][j])
    ensures Partial(uses, t, t'', m, j + 1)
  {
    var y: Item := uses[m][j];
    var e := Enter(t', y, m);
    assert (t.seen + [m])[|t.seen|] == m;
    assert t'.seen[|t.seen|] == m;
    assert m in t'.seen;
    assert uses[m][..j + 1] == uses[m][..j] + [y];
    forall i, x ensures Known(e.prec, x, i) <==> Known(t'.prec, x, i) || (x == y && i == m) {}
    assert t'.seen <= t''.seen && t'.notFound <= t''.notFound;
    hide Sane, Enter;
    forall x ensures (Known(t''.prec, x, m) <==> x in uses[m][..j + 1]) && (x in uses[m][..j + 1] ==> Met(t'', x)) {
      assert Known(t''.prec, x, m) <==> Known(e.prec, x, m);
    }
    forall i, x | i in t.seen || i !in t''.seen ensures Known(t''.prec, x, i) <==> Known(t.prec, x, i) {
      if i in t.seen { PrefixIn(t.seen + [m], t'.seen, i); }
      if i in t'.seen { PrefixIn(t'.seen, t''.seen, i); }
      assert Known(t''.prec, x, i) <==> Known(e.prec, x, i);
    }
    assert t''.seen[|t.seen|] == m;
    assert t.seen + [m] <= t''.seen;
    forall i | i in t''.seen && i !in t.seen && i != m ensures AllEntered(uses, t'', i) {
      if i in t'.seen {
        assert AllEntered(uses, t', i);
        forall x ensures (Known(t''.prec, x, i) <==> x in uses[i][..|uses[i]|]) &&
            (x in uses[i][..|uses[i]|] ==> Met(t'', x)) {
          assert Known(t''.prec, x, i) <==> Known(e.prec, x, i);
        }
      }
    }
  }

  lemma EnterSane(uses: Uses, t: Table, t': Table, m: Item, j: nat)
    requires Partial(uses, t, t', m, j) && j < |uses[m]|
    ensures Sane(uses, Enter(t', uses[m][j], m))
  {
    var y: Item := uses[m][j];
    var e := Enter(t', y, m);
    assert (t.seen + [m])[|t.seen|] == m;
    PrefixIn(t.seen + [m], t'.seen, m);
    forall i, x ensures Known(e.prec, x, i) <==> Known(t'.prec, x, i) || (x == y && i == m) {}
    if forall i :: i in uses ==> Distinct(uses[i]) {
      assert uses[m][..j + 1] == uses[m][..j] + [y];
      PrefixDistinct(uses[m], j + 1);
      DistinctLast(uses[m][..j], y);
      assert !Known(t'.prec, y, m);
      AppendOne(t'.prec, y, m);
    }
  }

  lemma PrefixDistinct(s: seq<Item>, n: nat)
    requires Distinct(s) && n <= |s|
    ensures Distinct(s[..n])
  {}

  lemma PartialEnd(uses: Uses, t: Table, t': Table, m: Item)
    requires m in uses && Partial(uses, t, t', m, |uses[m]|)
    ensures Grown(uses, t, t') && Met(t', m)
  {
    assert (t.seen + [m])[|t.seen|] == m;
  }

  class TaskGen {
    const uses: Uses
    var tmpUseNot: set<Item>
    var tmpUseSeen: seq<Item>
    var tmpUsePrec: Prec

    constructor (uses: Uses)
      ensures this.uses == uses
    {
      this.uses := uses;
    }

    ghost function Abs(): Table
      reads this
    {
      Table(tmpUseSeen, tmpUsePrec, tmpUseNot)
    }

    /** Meet one name and, if it is a task generator, everything it uses. */
    method UseRec(name: Item)
      requires Sane(uses, Abs())
      modifies this
      ensures Grown(uses, old(Abs()), Abs()) && Met(Abs(), name)
      ensures NewFrom(uses, old(Abs()), Abs(), name)
      decreases uses.Keys - Items(tmpUseSeen)
    {
      ghost var t := Abs();
      if name in tmpUseNot || name in tmpUseSeen {
        return;
      }
      ReachesItself(uses, name);
      if name !in uses {
        tmpUseNot := tmpUseNot + {name};
        return;
      }
      PartialStart(uses, t, name);
      tmpUseSeen := tmpUseSeen + [name];
      for j := 0 to |uses[name]|
        invariant Partial(uses, t, Abs(), name, j) && NewFrom(uses, t, Abs(), name)
      {
        ghost var t' := Abs();
        MoreItems(t.seen, name, tmpUseSeen);
        EnterSane(uses, t, t', name, j);
        tmpUsePrec := Append(tmpUsePrec, uses[name][j], name);
        UseRec(uses[name][j]);
        PartialEnter(uses, t, t', name, j, Abs());
        StillFrom(uses, t, t', Abs(), name, j);
      }
      PartialEnd(uses, t, Abs(), name);
    }
  }

  lemma MoreItems(a: seq<Item>, m: Item, b: seq<Item>)
    requires a + [m] <= b
    ensures Items(a) + {m} <= Items(b)
  {
    forall x | x in Items(a) + {m} ensures x in Items(b) {
      assert x in a + [m];
      PrefixIn(a + [m], b, x);
    }
  }

  lemma StillFrom(uses: Uses, t: Table, t': Table, t'': Table, m: Item, j: nat)
    requires m in uses && j < |uses[m]| && NewFrom(uses, t, t', m) &&
             NewFrom(uses, Enter(t', uses[m][j], m), t'', uses[m][j])
    ensures NewFrom(uses, t, t'', m)
  {
    forall x | Met(t'', x) && !Met(t, x) ensures Reaches(uses, m, x) {
      if !Met(t', x) {
        ReachesOn(uses, m, j, x);
      }
    }
  }

  // ---- process_use ----

  ghost predicate UsedBy(uses: Uses, names: seq<Item>, x: Item) {
    exists n :: n in names && Reaches(uses, n, x)
  }

  /** m uses x, and both are reached. */
  ghost function ReachedEdges(uses: Uses, seen: seq<Item>): Edges {
    set e | e in UseEdges(uses) && e.0 in seen && e.1 in seen
  }

  lemma UseEdgeIff(uses: Uses, m: Item, x: Item)
    ensures (m, x) in UseEdges(uses) <==> m in uses && x in uses[m]
  {
    if m in uses && x in uses[m] {
      var k :| 0 <= k < |uses[m]| && uses[m][k] == x;
      assert (m, uses[m][k]) in UseEdges(uses);
    }
  }

  ghost predicate Complete(uses: Uses, t: Table) {
    Sane(uses, t) && forall m :: m in t.seen ==> AllEntered(uses, t, m)
  }

  /** What was met is closed under use. */
  lemma {:induction false} MetAlong(uses: Uses, t: Table, w: seq<Item>)
    requires Complete(uses, t) && IsWalk(UseEdges(uses), w) && Met(t, w[0])
    ensures Met(t, w[|w| - 1])
  {
    if |w| > 1 {
      var front := w[..|w| - 1];
      MetAlong(uses, t, front);
      var m: Item, x: Item := w[|w| - 2], w[|w| - 1];
      assert (w[|w| - 2], w[|w| - 2 + 1]) in UseEdges(uses);
      UseEdgeIff(uses, m, x);
      assert AllEntered(uses, t, m);
      assert uses[m][..|uses[m]|] == uses[m];
    }
  }

  lemma SeenIff(uses: Uses, t: Table, names: seq<Item>, x: Item)
    requires Complete(uses, t) && (forall n :: n in names ==> Met(t, n))
    requires forall y :: Met(t, y) ==> UsedBy(uses, names, y)
    ensures x in t.seen <==> x in uses && UsedBy(uses, names, x)
  {
    if x in uses && UsedBy(uses, names, x) {
      var n :| n in names && Reaches(uses, n, x);
      var w :| Leads(uses, n, x, w);
      MetAlong(uses, t, w);
    }
    assert x in t.seen ==> Met(t, x);
  }

  /** The entries of names that are no task generators are deleted. */
  function OnlyFound(t: Table): Prec {
    t.prec - t.notFound
  }

  lemma PrecIsUse(uses: Uses, t: Table)
    requires Complete(uses, t)
    ensures OnlyFound(t).Keys <= Items(t.seen)
    ensures KeyEdges(t.seen, OnlyFound(t)) == ReachedEdges(uses, t.seen)
    ensures (forall m :: m in uses ==> Distinct(uses[m])) ==> ListsDistinct(OnlyFound(t))
  {
    forall x | x in OnlyFound(t) ensures x in Items(t.seen) {
      var m: Item := t.prec[x][0];
      assert Known(t.prec, x, m);
      assert m in t.seen;
      assert AllEntered(uses, t, m);
      assert x in uses[m][..|uses[m]|];
      assert Met(t, x);
    }
    forall e ensures e in KeyEdges(t.seen, OnlyFound(t)) <==> e in ReachedEdges(uses, t.seen) {
      EdgeIsUse(uses, t, e.0, e.1);
    }
  }

  lemma EdgeIsUse(uses: Uses, t: Table, m: Item, x: Item)
    requires Complete(uses, t)
    ensures (m, x) in KeyEdges(t.seen, OnlyFound(t)) <==> (m, x) in ReachedEdges(uses, t.seen)
  {
    EdgeIff(t.seen, OnlyFound(t), m, x);
    UseEdgeIff(uses, m, x);
    if m in t.seen {
      assert AllEntered(uses, t, m);
      assert uses[m][..|uses[m]|] == uses[m];
      assert Known(t.prec, x, m) <==> x in uses[m];
      if x in uses[m] { assert Met(t, x); }
    }
  }

  /** All task generators that the names lead to, each before those it uses, unless they use each other
      in a circle. */
  method ProcessUse(uses: Uses, names: seq<Item>) returns (r: Outcome, seen: seq<Item>)
    ensures Distinct(seen) && forall x :: x in seen <==> x in uses && UsedBy(uses, names, x)
    ensures r.CycleDetected? <==> Cyclic(ReachedEdges(uses, seen))
    ensures r.Order? ==> Items(r.out) == Items(seen) && InOrder(ReachedEdges(uses, seen), Lasts(r.out))
    ensures r.Order? && Distinct(r.out) ==> InOrder(ReachedEdges(uses, seen), r.out)
    ensures r.Order? && (forall m :: m in uses ==> Distinct(uses[m])) ==>
            Distinct(r.out) && InOrder(ReachedEdges(uses, seen), r.out)
  {
    var g := new TaskGen(uses);
    g.tmpUseNot, g.tmpUseSeen, g.tmpUsePrec := {}, [], map[];
    Nothing(uses);
    for i := 0 to |names|
      invariant Complete(uses, g.Abs())
      invariant forall n :: n in names[..i] ==> Met(g.Abs(), n)
      invariant forall y :: Met(g.Abs(), y) ==> UsedBy(uses, names, y)
    {
      ghost var t := g.Abs();
      assert names[..i + 1] == names[..i] + [names[i]];
      g.UseRec(names[i]);
      NextName(uses, t, g.Abs(), names, i);
    }
    assert names[..|names|] == names;
    ghost var t := g.Abs();
    seen := g.tmpUseSeen;
    forall x ensures x in seen <==> x in uses && UsedBy(uses, names, x) {
      SeenIff(uses, t, names, x);
    }
    PrecIsUse(uses, t);
    r := Backward(seen, g.tmpUsePrec - g.tmpUseNot);
  }

  lemma Nothing(uses: Uses)
    ensures Complete(uses, Table([], map[], {}))
  {}

  lemma NextName(uses: Uses, t: Table, t': Table, names: seq<Item>, i: nat)
    requires Complete(uses, t) && Grown(uses, t, t') && i < |names| && NewFrom(uses, t, t', names[i])
    requires forall y :: Met(t, y) ==> UsedBy(uses, names, y)
    ensures Complete(uses, t') && (forall y :: Met(t, y) ==> Met(t', y))
    ensures forall y :: Met(t', y) ==> UsedBy(uses, names, y)
  {
    forall y | Met(t, y) ensures Met(t', y) {
      if y in t.seen { PrefixIn(t.seen, t'.seen, y); }
    }
    forall m | m in t'.seen ensures AllEntered(uses, t', m) {
      if m in t.seen { KeepsEntered(uses, t, t', m); }
    }
    forall y | Met(t', y) ensures UsedBy(uses, names, y) {
      var n: Item := names[i];
      assert n in names;
    }
  }

  lemma KeepsEntered(uses: Uses, t: Table, t': Table, m: Item)
    requires AllEntered(uses, t, m) && Grown(uses, t, t') && m in t.seen
    ensures AllEntered(uses, t', m)
  {
    forall x ensures (Known(t'.prec, x, m) <==> x in uses[m][..|uses[m]|]) &&
        (x in uses[m][..|uses[m]|] ==> Met(t', x)) {
      assert Known(t'.prec, x, m) <==> Known(t.prec, x, m);
      if x in t.seen { PrefixIn(t.seen, t'.seen, x); }
    }
  }
}
