/**
 `topsort` and `topsort_levels`: ordering the elements of a list of (parent, child) pairs by counting
 the parents that are still to come.
 */
module Topsort {
  import opened Basics
  import opened Digraph

  type PairList = seq<(Item, Item)>

  function Elements(pairs: PairList): set<Item> {
    (set i | 0 <= i < |pairs| :: pairs[i].0) + (set i | 0 <= i < |pairs| :: pairs[i].1)
  }

  ghost function Before(pairs: PairList): Edges {
    set e | e in pairs
  }

  /** How often x is a child of a parent that is not in `done`. */
  function ParentsLeft(pairs: PairList, done: set<Item>, x: Item): nat {
    if pairs == [] then 0
    else ParentsLeft(pairs[..|pairs| - 1], done, x)
         + if pairs[|pairs| - 1].1 == x && pairs[|pairs| - 1].0 !in done then 1 else 0
  }

  function ChildrenOf(pairs: PairList, x: Item): seq<Item> {
    if pairs == [] then []
    else ChildrenOf(pairs[..|pairs| - 1], x) + if pairs[|pairs| - 1].0 == x then [pairs[|pairs| - 1].1] else []
  }

  lemma {:induction false} NoParentsLeft(pairs: PairList, done: set<Item>, x: Item)
    ensures ParentsLeft(pairs, done, x) == 0 <==> forall p :: (p, x) in pairs ==> p in done
  {
    if pairs != [] {
      var front, last := pairs[..|pairs| - 1], pairs[|pairs| - 1];
      NoParentsLeft(front, done, x);
      assert pairs == front + [last];
      if forall p :: (p, x) in pairs ==> p in done {
        assert last.1 == x ==> (last.0, x) in pairs;
      } else {
        var p :| (p, x) in pairs && p !in done;
        assert (p, x) in front || last == (p, x);
      }
    }
  }

  /** Doing one more parent takes away its pairs. */
  lemma {:induction false} OneMoreDone(pairs: PairList, done: set<Item>, p: Item, x: Item)
    requires p !in done
    ensures ParentsLeft(pairs, done, x) == ParentsLeft(pairs, done + {p}, x) + multiset(ChildrenOf(pairs, p))[x]
  {
    if pairs != [] {
      var front, last := pairs[..|pairs| - 1], pairs[|pairs| - 1];
      OneMoreDone(front, done, p, x);
      assert ChildrenOf(pairs, p) == ChildrenOf(front, p) + if last.0 == p then [last.1] else [];
    }
  }

  lemma {:induction false} ChildrenArePairs(pairs: PairList, p: Item, x: Item)
    ensures x in ChildrenOf(pairs, p) <==> (p, x) in pairs
  {
    if pairs != [] {
      var front, last := pairs[..|pairs| - 1], pairs[|pairs| - 1];
      ChildrenArePairs(front, p, x);
      assert pairs == front + [last];
    }
  }

  // ---- Counting ----

  /** For every element that is not done, how many parents are left, and how many of those are about
      to be taken away. */
  ghost predicate Counts(pairs: PairList, done: set<Item>, pending: seq<Item>, numParents: map<Item, nat>) {
    && numParents.Keys == Elements(pairs) - done
    && forall x :: x in numParents ==> numParents[x] == ParentsLeft(pairs, done, x) + multiset(pending)[x]
  }

  ghost predicate Families(pairs: PairList, done: set<Item>, children: map<Item, seq<Item>>) {
    forall x :: x !in done ==> ChildrenOf(pairs, x) == if x in children then children[x] else []
  }

  lemma CountOne(pairs: PairList, parent: Item, child: Item)
    ensures Elements(pairs + [(parent, child)]) == Elements(pairs) + {parent, child}
    ensures forall x ::
      ParentsLeft(pairs + [(parent, child)], {}, x) == ParentsLeft(pairs, {}, x) + if x == child then 1 else 0
    ensures forall x ::
      ChildrenOf(pairs + [(parent, child)], x) == ChildrenOf(pairs, x) + if x == parent then [child] else []
  {
    var longer := pairs + [(parent, child)];
    assert longer[..|longer| - 1] == pairs;
    assert forall i :: 0 <= i < |pairs| ==> longer[i] == pairs[i];
    assert longer[|pairs|] == (parent, child);
  }

  lemma {:induction false} Stranger(pairs: PairList, x: Item)
    requires x !in Elements(pairs)
    ensures ParentsLeft(pairs, {}, x) == 0 && ChildrenOf(pairs, x) == []
  {
    if pairs != [] {
      var front, last := pairs[..|pairs| - 1], pairs[|pairs| - 1];
      assert pairs == front + [last];
      CountOne(front, last.0, last.1);
      Stranger(front, x);
    }
  }

  function Zero(numParents: map<Item, nat>, x: Item): map<Item, nat> {
    if x in numParents then numParents else numParents[x := 0]
  }

  function Count(numParents: map<Item, nat>, parent: Item, child: Item): (r: map<Item, nat>)
    ensures r.Keys == numParents.Keys + {parent, child}
    ensures forall x :: x in r ==> r[x] == (if x in numParents then numParents[x] else 0) + if x == child then 1 else 0
  {
    var counts := Zero(Zero(numParents, parent), child);
    counts[child := counts[child] + 1]
  }

  lemma CountStep(pairs: PairList, numParents: map<Item, nat>, parent: Item, child: Item)
    requires Counts(pairs, {}, [], numParents)
    ensures Counts(pairs + [(parent, child)], {}, [], Count(numParents, parent, child))
  {
    var counts := Count(numParents, parent, child);
    CountOne(pairs, parent, child);
    hide Count;
    forall x | x in counts ensures counts[x] == ParentsLeft(pairs + [(parent, child)], {}, x) {
      if x !in numParents { Stranger(pairs, x); }
      hide ParentsLeft;
    }
    hide Elements, ParentsLeft;
  }

  lemma FamilyStep(pairs: PairList, children: map<Item, seq<Item>>, parent: Item, child: Item)
    requires Families(pairs, {}, children)
    ensures Families(pairs + [(parent, child)], {}, Child(children, parent, child))
  {
    CountOne(pairs, parent, child);
    hide ChildrenOf, Elements, ParentsLeft;
  }

  function Child(children: map<Item, seq<Item>>, parent: Item, child: Item): map<Item, seq<Item>> {
    children[parent := (if parent in children then children[parent] else []) + [child]]
  }

  method CountPair(numParents: map<Item, nat>, parent: Item, child: Item) returns (r: map<Item, nat>)
    ensures r == Count(numParents, parent, child)
  {
    r := numParents;
    if parent !in r {
      r := r[parent := 0];
    }
    if child !in r {
      r := r[child := 0];
    }
    r := r[child := r[child] + 1];
  }

  lemma NothingCounted()
    ensures Counts([], {}, [], map[]) && Families([], {}, map[])
  {}

  method CountParents(pairs: PairList) returns (numParents: map<Item, nat>, children: map<Item, seq<Item>>)
    ensures Counts(pairs, {}, [], numParents) && Families(pairs, {}, children)
  {
    numParents, children := map[], map[];
    NothingCounted();
    hide Counts, Families, Count, Child;
    assert pairs[..0] == [];
    for i := 0 to |pairs|
      invariant Counts(pairs[..i], {}, [], numParents) && Families(pairs[..i], {}, children)
    {
      var (parent, child) := pairs[i];
      CountStep(pairs[..i], numParents, parent, child);
      FamilyStep(pairs[..i], children, parent, child);
      assert pairs[..i + 1] == pairs[..i] + [(parent, child)];
      numParents := CountPair(numParents, parent, child);
      children := Child(children, parent, child);
    }
    assert pairs[..|pairs|] == pairs;
  }

  // ---- topsort ----

  /** The answer so far: every element without a parent left, once, after its parents. */
  ghost predicate Free(pairs: PairList, done: set<Item>, pending: seq<Item>, answer: seq<Item>) {
    && Distinct(answer)
    && forall x :: x in answer <==> x in Elements(pairs) && ParentsLeft(pairs, done, x) + multiset(pending)[x] == 0
  }

  ghost predicate ParentsFirst(pairs: PairList, answer: seq<Item>) {
    forall k, p :: 0 <= k < |answer| && (p, answer[k]) in pairs ==> p in answer[..k]
  }

  method ParentLess(numParents: map<Item, nat>) returns (answer: seq<Item>)
    ensures Distinct(answer) && forall x :: x in answer <==> x in numParents && numParents[x] == 0
  {
    answer := [];
    var todo := numParents.Keys;
    while todo != {}
      invariant todo <= numParents.Keys && Distinct(answer)
      invariant forall x :: x in answer <==> x in numParents && x !in todo && numParents[x] == 0
      decreases |todo|
    {
      ghost var y := SomeMember(todo);
      var x :| x in todo;
      if numParents[x] == 0 {
        answer := answer + [x];
      }
      todo := todo - {x};
    }
  }

  /** One child loses a parent, and joins the answer if that was the last. */
  lemma KnockDown(pairs: PairList, done: set<Item>, pending: seq<Item>, numParents: map<Item, nat>, answer: seq<Item>,
                  child: Item)
    requires Counts(pairs, done, [child] + pending, numParents) && Free(pairs, done, [child] + pending, answer)
    requires ParentsFirst(pairs, answer) && child in numParents && forall x :: x in done ==> x in answer
    ensures numParents[child] > 0
    ensures var counts := numParents[child := numParents[child] - 1];
            var answer' := if counts[child] == 0 then answer + [child] else answer;
            Counts(pairs, done, pending, counts) && Free(pairs, done, pending, answer') && ParentsFirst(pairs, answer')
  {
    assert multiset([child] + pending) == multiset{child} + multiset(pending);
    var counts := numParents[child := numParents[child] - 1];
    assert child !in answer;
    if counts[child] == 0 {
      var answer' := answer + [child];
      NoParentsLeft(pairs, done, child);
      forall k, p | 0 <= k < |answer'| && (p, answer'[k]) in pairs ensures p in answer'[..k] {
        assert answer'[..|answer|] == answer;
        if k < |answer| { assert answer'[..k] == answer[..k] && answer'[k] == answer[k]; }
      }
    }
  }

  /** The next element of the answer is done: its children are pending. */
  lemma TakeNext(pairs: PairList, answer: seq<Item>, i: nat, numParents: map<Item, nat>)
    requires i < |answer| && Counts(pairs, Items(answer[..i]), [], numParents)
    requires Free(pairs, Items(answer[..i]), [], answer) && ParentsFirst(pairs, answer)
    ensures var done, kids := Items(answer[..i + 1]), ChildrenOf(pairs, answer[i]);
            && answer[i] in numParents
            && Counts(pairs, done, kids, numParents - {answer[i]}) && Free(pairs, done, kids, answer)
            && (forall c :: c in kids ==> c in numParents - {answer[i]})
            && Distinct(answer) && forall x :: x in done ==> x in answer
  {
    var p := answer[i];
    var done, done', kids := Items(answer[..i]), Items(answer[..i + 1]), ChildrenOf(pairs, p);
    assert answer[..i + 1] == answer[..i] + [p];
    assert done' == done + {p};
    assert p !in done;
    assert p in answer;
    forall x ensures ParentsLeft(pairs, done, x) == ParentsLeft(pairs, done', x) + multiset(kids)[x] {
      OneMoreDone(pairs, done, p, x);
    }
    forall k | 0 <= k <= i ensures (p, answer[k]) !in pairs {
      var front := answer[..k];
      assert p !in front;
      assert (p, answer[k]) in pairs ==> p in front;
    }
    forall c | c in kids ensures c in Elements(pairs) && c !in done' {
      ChildrenArePairs(pairs, p, c);
      var k :| 0 <= k < |pairs| && pairs[k] == (p, c);
    }
  }

  /** All children of one element lose a parent. */
  method KnockDownAll(ghost pairs: PairList, ghost done: set<Item>, kids: seq<Item>, numParents: map<Item, nat>,
                      answer: seq<Item>)
    returns (answer': seq<Item>, numParents': map<Item, nat>)
    requires Counts(pairs, done, kids, numParents) && Free(pairs, done, kids, answer) && ParentsFirst(pairs, answer)
    requires (forall x :: x in done ==> x in answer) && forall c :: c in kids ==> c in numParents
    ensures Counts(pairs, done, [], numParents') && Free(pairs, done, [], answer') && ParentsFirst(pairs, answer')
    ensures answer <= answer' && numParents'.Keys == numParents.Keys
  {
    numParents', answer' := numParents, answer;
    hide Counts, Free, ParentsFirst;
    assert kids[0..] == kids;
    for j := 0 to |kids|
      invariant Counts(pairs, done, kids[j..], numParents') && Free(pairs, done, kids[j..], answer')
      invariant ParentsFirst(pairs, answer') && answer <= answer' && numParents'.Keys == numParents.Keys
    {
      var child := kids[j];
      assert kids[j..] == [child] + kids[j + 1..];
      assert forall x :: x in answer ==> x in answer';
      KnockDown(pairs, done, kids[j + 1..], numParents', answer', child);
      numParents' := numParents'[child := numParents'[child] - 1];
      if numParents'[child] == 0 {
        answer' := answer' + [child];
      }
    }
    assert kids[|kids|..] == [];
  }

  lemma FirstAnswer(pairs: PairList, numParents: map<Item, nat>, answer: seq<Item>)
    requires Counts(pairs, {}, [], numParents) && Distinct(answer)
    requires forall x :: x in answer <==> x in numParents && numParents[x] == 0
    ensures Free(pairs, {}, [], answer) && ParentsFirst(pairs, answer)
  {
    forall k | 0 <= k < |answer| ensures forall p :: (p, answer[k]) !in pairs {
      NoParentsLeft(pairs, {}, answer[k]);
    }
  }

  datatype Outcome = Order(answer: seq<Item>)
                   | CycleError(answer: seq<Item>, numParents: map<Item, nat>, children: map<Item, seq<Item>>)

  lemma LeftOverIsCyclic(pairs: PairList, done: set<Item>, numParents: map<Item, nat>)
    requires Counts(pairs, done, [], numParents) && numParents != map[]
    requires forall x :: x in numParents ==> numParents[x] != 0
    ensures Cyclic(Before(pairs))
  {
    forall x | x in numParents.Keys ensures HasBefore(Before(pairs), numParents.Keys, x) {
      NoParentsLeft(pairs, done, x);
      var p :| (p, x) in pairs && p !in done;
      var k :| 0 <= k < |pairs| && pairs[k] == (p, x);
      assert p in Elements(pairs);
    }
    LoopIn(Before(pairs), numParents.Keys);
  }

  lemma CompleteIsOrder(pairs: PairList, answer: seq<Item>)
    requires Distinct(answer) && ParentsFirst(pairs, answer) && Items(answer) == Elements(pairs)
    ensures InOrder(Before(pairs), answer) && !Cyclic(Before(pairs))
  {
    forall i, j | 0 <= i < |answer| && 0 <= j < |answer| && (answer[i], answer[j]) in Before(pairs) ensures i < j {
      var k :| 0 <= k < j && answer[k] == answer[i];
    }
    forall c ensures !IsLoop(Before(pairs), c) {
      if IsLoop(Before(pairs), c) {
        forall k | 0 <= k < |c| ensures c[k] in answer {
          var e := if k + 1 < |c| then (c[k], c[k + 1]) else (c[k], c[0]);
          assert e in pairs;
          var m :| 0 <= m < |pairs| && pairs[m] == e;
          assert c[k] in Items(answer);
        }
        OrderedIsNoLoop(Before(pairs), answer, c);
      }
    }
  }

  lemma NothingFree(pairs: PairList, done: set<Item>, numParents: map<Item, nat>, answer: seq<Item>)
    requires Counts(pairs, done, [], numParents) && Free(pairs, done, [], answer) && Items(answer) == done
    ensures forall x :: x in numParents ==> numParents[x] != 0
    ensures numParents == map[] ==> Items(answer) == Elements(pairs)
  {
    forall x | x in numParents ensures numParents[x] != 0 {
      assert x !in Items(answer);
    }
    forall x | x in Items(answer) ensures x in Elements(pairs) {
      assert x in answer;
    }
    if numParents == map[] {
      forall x | x in Elements(pairs) ensures x in Items(answer) {
        assert x !in numParents.Keys;
      }
    }
  }

  /** The first i elements of the answer have been looked at. */
  ghost predicate LoopInv(pairs: PairList, answer: seq<Item>, i: nat, numParents: map<Item, nat>,
                          children: map<Item, seq<Item>>)
  {
    && i <= |answer| && Counts(pairs, Items(answer[..i]), [], numParents) &&
        Families(pairs, Items(answer[..i]), children)
    && Free(pairs, Items(answer[..i]), [], answer) && ParentsFirst(pairs, answer)
  }

  method TakeOne(ghost pairs: PairList, answer: seq<Item>, i: nat, numParents: map<Item, nat>,
                 children: map<Item, seq<Item>>)
    returns (answer': seq<Item>, numParents': map<Item, nat>, children': map<Item, seq<Item>>)
    requires LoopInv(pairs, answer, i, numParents, children) && i < |answer|
    ensures children' == children - {answer[i]}
    ensures LoopInv(pairs, answer', i + 1, numParents', children') && numParents'.Keys < numParents.Keys
  {
    var parent := answer[i];
    TakeNext(pairs, answer, i, numParents);
    FamilyOf(pairs, answer, i, children);
    hide Counts, Free, ParentsFirst, Families, ChildrenOf;
    answer', numParents', children' := answer, numParents - {parent}, children;
    if parent in children {
      answer', numParents' := KnockDownAll(pairs, Items(answer[..i + 1]), children[parent], numParents', answer);
      children' := children - {parent};
    }
    assert answer'[..i + 1] == answer[..i + 1];
  }

  lemma InvAtFirst(pairs: PairList, answer: seq<Item>, numParents: map<Item, nat>, children: map<Item, seq<Item>>)
    requires Counts(pairs, {}, [], numParents) && Families(pairs, {}, children) && Free(pairs, {}, [], answer)
    requires ParentsFirst(pairs, answer)
    ensures LoopInv(pairs, answer, 0, numParents, children)
  {
    assert Items(answer[..0]) == {};
  }

  lemma InvAtEnd(pairs: PairList, answer: seq<Item>, numParents: map<Item, nat>, children: map<Item, seq<Item>>)
    requires LoopInv(pairs, answer, |answer|, numParents, children)
    ensures if numParents != map[] then Cyclic(Before(pairs)) else
              && !Cyclic(Before(pairs)) && Distinct(answer) && Items(answer) == Elements(pairs)
              && InOrder(Before(pairs), answer)
  {
    assert answer[..|answer|] == answer;
    NothingFree(pairs, Items(answer), numParents, answer);
    assert Distinct(answer);
    hide Counts, Free, ParentsFirst, Families;
    if numParents != map[] {
      LeftOverIsCyclic(pairs, Items(answer), numParents);
    } else {
      CompleteIsOrder(pairs, answer);
    }
  }

  /** All elements, each once and after its parents, unless there is a cycle. */
  method Topsort(pairs: PairList) returns (r: Outcome)
    ensures r.CycleError? <==> Cyclic(Before(pairs))
    ensures r.Order? ==> Distinct(r.answer) && Items(r.answer) == Elements(pairs) && InOrder(Before(pairs), r.answer)
  {
    var numParents, children := CountParents(pairs);
    var answer := ParentLess(numParents);
    FirstAnswer(pairs, numParents, answer);
    InvAtFirst(pairs, answer, numParents, children);
    hide LoopInv, Distinct, Elements, InOrder, Cyclic, Before;
    var i := 0;
    while i < |answer|
      invariant i <= |answer| && LoopInv(pairs, answer, i, numParents, children)
      decreases numParents.Keys
    {
      answer, numParents, children := TakeOne(pairs, answer, i, numParents, children);
      i := i + 1;
      InRange(pairs, answer, i, numParents, children);
    }
    InvAtEnd(pairs, answer, numParents, children);
    return if numParents != map[] then CycleError(answer, numParents, children) else Order(answer);
  }

  lemma InRange(pairs: PairList, answer: seq<Item>, i: nat, numParents: map<Item, nat>, children: map<Item, seq<Item>>)
    requires LoopInv(pairs, answer, i, numParents, children)
    ensures i <= |answer|
  {}

  /** The children of the element that is taken, and what is left for the others. */
  lemma FamilyOf(pairs: PairList, answer: seq<Item>, i: nat, children: map<Item, seq<Item>>)
    requires i < |answer| && Distinct(answer) && Families(pairs, Items(answer[..i]), children)
    ensures ChildrenOf(pairs, answer[i]) == if answer[i] in children then children[answer[i]] else []
    ensures Families(pairs, Items(answer[..i + 1]), children - {answer[i]})
    ensures Families(pairs, Items(answer[..i + 1]), children)
  {
    assert answer[..i + 1] == answer[..i] + [answer[i]];
    assert answer[i] !in Items(answer[..i]);
  }

  // ---- topsort_levels ----

  /** A walk of k steps leads to x. */
  ghost predicate WalkTo(pairs: PairList, k: nat, x: Item)
    decreases k
  {
    if k == 0 then x in Elements(pairs) else exists p :: (p, x) in pairs && WalkTo(pairs, k - 1, p)
  }

  lemma ParentIsElement(pairs: PairList, p: Item, x: Item)
    requires (p, x) in pairs
    ensures p in Elements(pairs) && x in Elements(pairs)
  {
    var k :| 0 <= k < |pairs| && pairs[k] == (p, x);
  }

  lemma {:induction false} ShorterWalk(pairs: PairList, k: nat, x: Item)
    requires WalkTo(pairs, k + 1, x)
    ensures WalkTo(pairs, k, x)
  {
    var p :| (p, x) in pairs && WalkTo(pairs, k, p);
    if k == 0 {
      ParentIsElement(pairs, p, x);
    } else {
      ShorterWalk(pairs, k - 1, p);
    }
  }

  /** Only walks of fewer than k steps lead to x. */
  ghost function Shallow(pairs: PairList, k: nat): set<Item> {
    set x | x in Elements(pairs) && !WalkTo(pairs, k, x)
  }

  lemma NextLevel(pairs: PairList, k: nat, x: Item)
    requires x in Elements(pairs)
    ensures ParentsLeft(pairs, Shallow(pairs, k), x) == 0 <==> !WalkTo(pairs, k + 1, x)
  {
    NoParentsLeft(pairs, Shallow(pairs, k), x);
    forall p | (p, x) in pairs ensures p in Shallow(pairs, k) <==> !WalkTo(pairs, k, p) {
      ParentIsElement(pairs, p, x);
    }
  }

  /** x is reached in k steps and not in more. */
  ghost predicate AtDepth(pairs: PairList, k: nat, x: Item) {
    WalkTo(pairs, k, x) && !WalkTo(pairs, k + 1, x)
  }

  /** The parents of what is done are done. */
  ghost predicate ParentClosed(pairs: PairList, done: set<Item>) {
    forall p, x :: (p, x) in pairs && x in done ==> p in done
  }

  lemma LevelParent(pairs: PairList, done: set<Item>, parent: Item, numParents: map<Item, nat>)
    requires Counts(pairs, done, [], numParents) && ParentClosed(pairs, done) && parent in numParents &&
             numParents[parent] == 0
    ensures ParentClosed(pairs, done + {parent})
    ensures Counts(pairs, done + {parent}, ChildrenOf(pairs, parent), numParents - {parent})
    ensures forall c :: c in ChildrenOf(pairs, parent) ==> c in numParents - {parent}
  {
    var kids := ChildrenOf(pairs, parent);
    NoParentsLeft(pairs, done, parent);
    forall x ensures ParentsLeft(pairs, done, x) == ParentsLeft(pairs, done + {parent}, x) + multiset(kids)[x] {
      OneMoreDone(pairs, done, parent, x);
    }
    forall c | c in kids ensures c in numParents - {parent} {
      ChildrenArePairs(pairs, parent, c);
      ParentIsElement(pairs, parent, c);
    }
  }

  lemma StillZero(pairs: PairList, done: set<Item>, parent: Item, x: Item)
    requires parent !in done && ParentsLeft(pairs, done, x) == 0
    ensures ParentsLeft(pairs, done + {parent}, x) == 0
  {
    OneMoreDone(pairs, done, parent, x);
  }

  lemma FamilyDone(pairs: PairList, done: set<Item>, parent: Item, children: map<Item, seq<Item>>)
    requires parent !in done && Families(pairs, done, children)
    ensures ChildrenOf(pairs, parent) == if parent in children then children[parent] else []
    ensures Families(pairs, done + {parent}, children - {parent}) && Families(pairs, done + {parent}, children)
  {}

  /** The children of one element lose a parent. */
  method TakeAway(ghost pairs: PairList, ghost done: set<Item>, kids: seq<Item>, numParents: map<Item, nat>)
    returns (numParents': map<Item, nat>)
    requires Counts(pairs, done, kids, numParents) && forall c :: c in kids ==> c in numParents
    ensures Counts(pairs, done, [], numParents')
  {
    numParents' := numParents;
    assert kids[0..] == kids;
    hide ParentsLeft, Elements;
    for j := 0 to |kids|
      invariant numParents'.Keys == numParents.Keys && Counts(pairs, done, kids[j..], numParents')
    {
      var child := kids[j];
      assert kids[j..] == [child] + kids[j + 1..];
      assert multiset(kids[j..]) == multiset{child} + multiset(kids[j + 1..]);
      numParents' := numParents'[child := numParents'[child] - 1];
    }
    assert kids[|kids|..] == [];
  }

  /** One element of a level is done. */
  method RemoveOne(ghost pairs: PairList, ghost done: set<Item>, parent: Item, numParents: map<Item, nat>,
                   children: map<Item, seq<Item>>)
    returns (numParents': map<Item, nat>, children': map<Item, seq<Item>>)
    requires Counts(pairs, done, [], numParents) && Families(pairs, done, children) && ParentClosed(pairs, done)
    requires parent in numParents && numParents[parent] == 0
    ensures children' == children - {parent}
    ensures Counts(pairs, done + {parent}, [], numParents') && Families(pairs, done + {parent}, children')
    ensures ParentClosed(pairs, done + {parent})
    ensures forall x :: x in numParents && numParents[x] == 0 && x != parent ==> x in numParents' && numParents'[x] == 0
  {
    LevelParent(pairs, done, parent, numParents);
    FamilyDone(pairs, done, parent, children);
    forall x | x in numParents && numParents[x] == 0 ensures ParentsLeft(pairs, done + {parent}, x) == 0 {
      StillZero(pairs, done, parent, x);
    }
    hide ParentsLeft, Elements, Families, ParentClosed, ChildrenOf;
    numParents', children' := numParents - {parent}, children;
    if parent in children {
      numParents' := TakeAway(pairs, done + {parent}, children[parent], numParents');
      children' := children - {parent};
    }
  }

  /** A whole level is done. */
  method RemoveLevel(ghost pairs: PairList, ghost done: set<Item>, level: seq<Item>, numParents: map<Item, nat>,
                     children: map<Item, seq<Item>>)
    returns (numParents': map<Item, nat>, children': map<Item, seq<Item>>)
    requires Counts(pairs, done, [], numParents) && Families(pairs, done, children) && ParentClosed(pairs, done)
    requires Distinct(level) && forall x :: x in level ==> x in numParents && numParents[x] == 0
    ensures Counts(pairs, done + Items(level), [], numParents') && Families(pairs, done + Items(level), children')
  {
    numParents', children' := numParents, children;
    ghost var gone := done;
    hide Counts, Families, ParentClosed;
    forall k | 0 <= k < |level| ensures level[k] in numParents && numParents[level[k]] == 0 {
      var x: Item := level[k];
      assert x in level;
    }
    for i := 0 to |level|
      invariant gone == done + Items(level[..i]) && ParentClosed(pairs, gone)
      invariant Counts(pairs, gone, [], numParents') && Families(pairs, gone, children')
      invariant forall k :: i <= k < |level| ==> level[k] in numParents' && numParents'[level[k]] == 0
    {
      assert level[..i + 1] == level[..i] + [level[i]];
      forall k | i < k < |level| ensures level[k] != level[i] {
        assert Distinct(level);
      }
      numParents', children' := RemoveOne(pairs, gone, level[i], numParents', children');
      gone := gone + {level[i]};
    }
    assert level[..|level|] == level;
  }

  /** The elements that are k steps deep, each once. */
  ghost predicate IsLevel(pairs: PairList, k: nat, level: seq<Item>) {
    Distinct(level) && level != [] && forall x :: x in level <==> AtDepth(pairs, k, x)
  }

  lemma ShallowClosed(pairs: PairList, k: nat)
    ensures ParentClosed(pairs, Shallow(pairs, k))
  {
    forall p, x | (p, x) in pairs && x in Shallow(pairs, k) ensures p in Shallow(pairs, k) {
      ParentIsElement(pairs, p, x);
      if WalkTo(pairs, k, p) {
        assert WalkTo(pairs, k + 1, x);
        ShorterWalk(pairs, k, x);
      }
    }
  }

  /** Without parents left are exactly the elements of the next depth. */
  lemma LevelIsDepth(pairs: PairList, k: nat, numParents: map<Item, nat>, level: seq<Item>)
    requires Counts(pairs, Shallow(pairs, k), [], numParents)
    requires forall x :: x in level <==> x in numParents && numParents[x] == 0
    ensures forall x :: x in level <==> AtDepth(pairs, k, x)
    ensures Shallow(pairs, k) + Items(level) == Shallow(pairs, k + 1)
  {
    forall x ensures x in level <==> AtDepth(pairs, k, x) {
      if x in Elements(pairs) { NextLevel(pairs, k, x); }
      if AtDepth(pairs, k, x) { WalkEndsInElement(pairs, k, x); }
    }
    forall x | x in Elements(pairs) && !WalkTo(pairs, k, x) ensures !WalkTo(pairs, k + 1, x) {
      if WalkTo(pairs, k + 1, x) { ShorterWalk(pairs, k, x); }
    }
    forall x ensures x in Shallow(pairs, k) + Items(level) <==> x in Shallow(pairs, k + 1) {
      assert x in Items(level) <==> x in level;
      if x in level { WalkEndsInElement(pairs, k, x); }
    }
  }

  lemma WalkEndsInElement(pairs: PairList, k: nat, x: Item)
    requires WalkTo(pairs, k, x)
    ensures x in Elements(pairs)
  {
    if k > 0 {
      var p :| (p, x) in pairs && WalkTo(pairs, k - 1, p);
      ParentIsElement(pairs, p, x);
    }
  }

  lemma FewerLeft(pairs: PairList, done: set<Item>, level: seq<Item>, before: map<Item, nat>, after: map<Item, nat>)
    requires Counts(pairs, done, [], before) && Counts(pairs, done + Items(level), [], after)
    requires level != [] && forall x :: x in level ==> x in before
    ensures after.Keys < before.Keys
  {
    var x: Item := level[0];
    assert x in level;
    assert x in Items(level) && x in before.Keys;
  }

  lemma {:induction false} NoDeeper(pairs: PairList, k: nat, d: nat, x: Item)
    requires (forall y :: WalkTo(pairs, k, y) ==> WalkTo(pairs, k + 1, y)) && WalkTo(pairs, k + d, x)
    ensures WalkTo(pairs, k + d + 1, x)
    decreases d
  {
    if d > 0 {
      var p :| (p, x) in pairs && WalkTo(pairs, k + d - 1, p);
      NoDeeper(pairs, k, d - 1, p);
    }
  }

  lemma {:induction false} RoundAndRound(pairs: PairList, c: seq<Item>, k: nat, i: nat)
    requires IsLoop(Before(pairs), c) && i < |c|
    ensures WalkTo(pairs, k, c[i])
    decreases k
  {
    var j := if i == 0 then |c| - 1 else i - 1;
    assert (c[j], c[i]) in pairs by {
      if i > 0 { assert (c[i - 1], c[i - 1 + 1]) in Before(pairs); }
    }
    if k == 0 {
      ParentIsElement(pairs, c[j], c[i]);
    } else {
      RoundAndRound(pairs, c, k - 1, j);
    }
  }

  lemma LoopIsLeft(pairs: PairList, k: nat, numParents: map<Item, nat>, c: seq<Item>)
    requires Counts(pairs, Shallow(pairs, k), [], numParents) && IsLoop(Before(pairs), c)
    ensures c[0] in numParents
  {
    RoundAndRound(pairs, c, k, 0);
    WalkEndsInElement(pairs, k, c[0]);
    var x: Item := c[0];
    assert x in Elements(pairs) - Shallow(pairs, k);
  }

  lemma NoMoreLevels(pairs: PairList, k: nat, numParents: map<Item, nat>)
    requires Counts(pairs, Shallow(pairs, k), [], numParents) && forall x :: x in numParents ==> numParents[x] != 0
    ensures numParents != map[] <==> Cyclic(Before(pairs))
    ensures forall j, x :: k <= j ==> !AtDepth(pairs, j, x)
  {
    forall y | WalkTo(pairs, k, y) ensures WalkTo(pairs, k + 1, y) {
      WalkEndsInElement(pairs, k, y);
      NextLevel(pairs, k, y);
    }
    forall j, x | k <= j ensures !AtDepth(pairs, j, x) {
      if WalkTo(pairs, j, x) { NoDeeper(pairs, k, j - k, x); }
    }
    if numParents != map[] {
      LeftOverIsCyclic(pairs, Shallow(pairs, k), numParents);
    } else if c :| IsLoop(Before(pairs), c) {
      LoopIsLeft(pairs, k, numParents, c);
    }
  }

  ghost predicate LevelsInv(pairs: PairList, levels: seq<seq<Item>>, numParents: map<Item, nat>,
                            children: map<Item, seq<Item>>)
  {
    && Counts(pairs, Shallow(pairs, |levels|), [], numParents) && Families(pairs, Shallow(pairs, |levels|), children)
    && forall k :: 0 <= k < |levels| ==> IsLevel(pairs, k, levels[k])
  }

  /** One turn of the loop. */
  method TakeLevel(ghost pairs: PairList, levels: seq<seq<Item>>, level: seq<Item>, numParents: map<Item, nat>,
                   children: map<Item, seq<Item>>)
    returns (numParents': map<Item, nat>, children': map<Item, seq<Item>>)
    requires LevelsInv(pairs, levels, numParents, children) && Distinct(level) && level != []
    requires forall x :: x in level <==> x in numParents && numParents[x] == 0
    ensures LevelsInv(pairs, levels + [level], numParents', children') && numParents'.Keys < numParents.Keys
  {
    ghost var k := |levels|;
    LevelIsDepth(pairs, k, numParents, level);
    ShallowClosed(pairs, k);
    assert IsLevel(pairs, k, level);
    assert Counts(pairs, Shallow(pairs, k), [], numParents) && Families(pairs, Shallow(pairs, k), children);
    hide IsLevel, Counts, Families, Shallow, AtDepth, ParentClosed, Distinct, LevelsInv;
    numParents', children' := RemoveLevel(pairs, Shallow(pairs, k), level, numParents, children);
    FewerLeft(pairs, Shallow(pairs, k), level, numParents, numParents');
    AddLevel(pairs, levels, numParents, children, level, numParents', children');
  }

  lemma AddLevel(pairs: PairList, levels: seq<seq<Item>>, numParents: map<Item, nat>, children: map<Item, seq<Item>>,
                 level: seq<Item>, numParents': map<Item, nat>, children': map<Item, seq<Item>>)
    requires LevelsInv(pairs, levels, numParents, children) && IsLevel(pairs, |levels|, level)
    requires Counts(pairs, Shallow(pairs, |levels| + 1), [], numParents') &&
             Families(pairs, Shallow(pairs, |levels| + 1), children')
    ensures LevelsInv(pairs, levels + [level], numParents', children')
  {
    hide IsLevel, Counts, Families;
  }

  /** Level k holds the elements whose longest incoming walk has k steps; something is left over exactly
      if there is a cycle. */
  method TopsortLevels(pairs: PairList) returns (levels: seq<seq<Item>>, cycleError: bool)
    ensures cycleError <==> Cyclic(Before(pairs))
    ensures forall k :: 0 <= k < |levels| ==> IsLevel(pairs, k, levels[k])
    ensures forall k, x :: |levels| <= k ==> !AtDepth(pairs, k, x)
  {
    var numParents, children := CountParents(pairs);
    levels := [];
    assert Shallow(pairs, 0) == {};
    assert LevelsInv(pairs, levels, numParents, children);
    hide LevelsInv, AtDepth, Cyclic, Before, Distinct, IsLevel;
    var levelParents := ParentLess(numParents);
    while levelParents != []
      invariant LevelsInv(pairs, levels, numParents, children) && Distinct(levelParents)
      invariant forall x :: x in levelParents <==> x in numParents && numParents[x] == 0
      decreases numParents.Keys
    {
      numParents, children := TakeLevel(pairs, levels, levelParents, numParents, children);
      levels := levels + [levelParents];
      levelParents := ParentLess(numParents);
    }
    AllLevels(pairs, levels, numParents, children);
    cycleError := numParents != map[];
  }

  lemma AllLevels(pairs: PairList, levels: seq<seq<Item>>, numParents: map<Item, nat>, children: map<Item, seq<Item>>)
    requires LevelsInv(pairs, levels, numParents, children) && forall x :: x in numParents ==> numParents[x] != 0
    ensures numParents != map[] <==> Cyclic(Before(pairs))
    ensures forall k :: 0 <= k < |levels| ==> IsLevel(pairs, k, levels[k])
    ensures forall k, x :: |levels| <= k ==> !AtDepth(pairs, k, x)
  {
    NoMoreLevels(pairs, |levels|, numParents);
  }
}
