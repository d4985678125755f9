/**
 The order in which a task generator runs its methods, and in which a target uses its libraries: one
 worklist, run backwards from what nothing else waits for.
 */
module MethodOrder {
  import opened Basics
  import opened Digraph

  /** What is to come before each key. */
  type Prec = map<Item, seq<Item>>

  predicate Blocked(prec: Prec, x: Item) {
    exists y :: y in prec && x in prec[y]
  }

  ghost function Listed(prec: Prec): set<Item> {
    set y, k | y in prec && 0 <= k < |prec[y]| :: prec[y][k]
  }

  /** y before x, for the keys. */
  ghost function KeyEdges(keys: seq<Item>, prec: Prec): Edges {
    set x, k | x in prec && 0 <= k < |prec[x]| && prec[x][k] in keys :: (prec[x][k], x)
  }

  ghost predicate ListsDistinct(prec: Prec) {
    forall x :: x in prec ==> Distinct(prec[x])
  }

  lemma EdgeIff(keys: seq<Item>, prec: Prec, y: Item, x: Item)
    ensures (y, x) in KeyEdges(keys, prec) <==> x in prec && y in prec[x] && y in keys
  {
    if x in prec && y in prec[x] && y in keys {
      var k :| 0 <= k < |prec[x]| && prec[x][k] == y;
      assert (prec[x][k], x) in KeyEdges(keys, prec);
    }
  }

  lemma ListedIff(prec: Prec, x: Item)
    ensures x in Listed(prec) <==> Blocked(prec, x)
  {
    if Blocked(prec, x) {
      var y :| y in prec && x in prec[y];
      var k :| 0 <= k < |prec[y]| && prec[y][k] == x;
      assert prec[y][k] in Listed(prec);
    }
  }

  /** The entry of k names x. */
  predicate Known(table: Prec, k: Item, x: Item) {
    k in table && x in table[k]
  }

  // ---- The invariant ----

  function Kept(popped: seq<Item>, keys: seq<Item>): seq<Item> {
    if popped == [] then []
    else Kept(popped[..|popped| - 1], keys) + if popped[|popped| - 1] in keys then [popped[|popped| - 1]] else []
  }

  /** What is not blocked any more was pushed; what was popped is out of the table. */
  ghost predicate Reached(keys: seq<Item>, prec0: Prec, prec: Prec, popped: seq<Item>, tmp: seq<Item>) {
    && prec.Keys == prec0.Keys - Items(popped) && (forall x :: x in prec ==> prec[x] == prec0[x])
    && forall x :: x in popped || x in tmp <==> (x in keys || x in Listed(prec0)) && !Blocked(prec, x)
  }

  function Times(s: seq<Item>, y: Item): nat {
    multiset(s)[y]
  }

  lemma TimesBoth(s: seq<Item>, t: seq<Item>, y: Item)
    ensures Times(s + t, y) == Times(s, y) + Times(t, y)
    ensures y in s + t <==> y in s || y in t
  {}

  /** s[p] is the last of those that name y to come, and its list names y n times. */
  ghost predicate FreedBy(prec0: Prec, s: seq<Item>, p: nat, y: Item, n: nat) {
    && p < |s| && s[p] !in s[..p] && Known(prec0, s[p], y) && n == Times(prec0[s[p]], y)
    && forall z :: Known(prec0, z, y) ==> z in s[..p + 1]
  }

  /** y was there at first, once, or came as often as the list that freed it names it. */
  ghost predicate CountOk(keys: seq<Item>, prec0: Prec, popped: seq<Item>, y: Item, n: nat) {
    if Blocked(prec0, y) then exists p :: FreedBy(prec0, popped, p, y, n) else y in keys && n == 1
  }

  ghost predicate Counts(keys: seq<Item>, prec0: Prec, popped: seq<Item>, tmp: seq<Item>) {
    forall y :: y in popped || y in tmp ==> CountOk(keys, prec0, popped, y, Times(popped, y) + Times(tmp, y))
  }

  /** What waits for y was popped before y. */
  ghost predicate Backwards(prec0: Prec, popped: seq<Item>) {
    forall k, x :: 0 <= k < |popped| && x in prec0 && popped[k] in prec0[x] ==> x in popped[..k]
  }

  lemma PopKeepsOrder(keys: seq<Item>, prec0: Prec, prec: Prec, popped: seq<Item>, tmp: seq<Item>)
    requires Reached(keys, prec0, prec, popped, tmp) && Backwards(prec0, popped) && tmp != []
    ensures Backwards(prec0, popped + [tmp[|tmp| - 1]])
  {
    var e: Item := tmp[|tmp| - 1];
    var popped' := popped + [e];
    assert e in tmp;
    forall k, x | 0 <= k < |popped'| && x in prec0 && popped'[k] in prec0[x] ensures x in popped'[..k] {
      if k < |popped| {
        assert popped'[..k] == popped[..k];
      } else {
        assert popped'[..k] == popped;
        assert !Blocked(prec, e);
        assert x !in prec;
      }
    }
  }

  /** What the entry of e was the last to block, in its order. */
  function Freed(prec: Prec, list: seq<Item>): seq<Item> {
    if list == [] then []
    else Freed(prec, list[..|list| - 1]) + if Blocked(prec, list[|list| - 1]) then [] else [list[|list| - 1]]
  }

  lemma {:induction false} FreedMember(prec: Prec, list: seq<Item>, x: Item)
    ensures x in Freed(prec, list) <==> x in list && !Blocked(prec, x)
  {
    if list != [] {
      var front, last := list[..|list| - 1], list[|list| - 1];
      FreedMember(prec, front, x);
      assert list == front + [last];
    }
  }

  lemma {:induction false} FreedCount(prec: Prec, list: seq<Item>, x: Item)
    requires !Blocked(prec, x)
    ensures Times(Freed(prec, list), x) == Times(list, x)
  {
    if list != [] {
      var front, last := list[..|list| - 1], list[|list| - 1];
      FreedCount(prec, front, x);
      assert list == front + [last];
    }
  }

  /** The entry of e is deleted, and what it alone blocked is pushed. */
  lemma DeleteKeepsReached(keys: seq<Item>, prec0: Prec, prec: Prec, popped: seq<Item>, rest: seq<Item>, e: Item)
    requires Reached(keys, prec0, prec, popped, rest + [e]) && Counts(keys, prec0, popped, rest + [e])
    ensures e in prec ==>
              var tmp := rest + Freed(prec - {e}, prec[e]);
              Reached(keys, prec0, prec - {e}, popped + [e], tmp) && Counts(keys, prec0, popped + [e], tmp)
    ensures e !in prec ==> Reached(keys, prec0, prec, popped + [e], rest) && Counts(keys, prec0, popped + [e], rest)
  {
    hide *;
    DeleteCounts(keys, prec0, prec, popped, rest, e);
    if e in prec {
      ReachedDelete(keys, prec0, prec, popped, rest, e);
    } else {
      ReachedPop(keys, prec0, prec, popped, rest, e);
    }
  }

  lemma ReachedPop(keys: seq<Item>, prec0: Prec, prec: Prec, popped: seq<Item>, rest: seq<Item>, e: Item)
    requires Reached(keys, prec0, prec, popped, rest + [e]) && e !in prec
    ensures Reached(keys, prec0, prec, popped + [e], rest)
  {
    hide Blocked, Listed;
    assert Items(popped + [e]) == Items(popped) + {e};
    assert forall x :: x in rest + [e] <==> x in rest || x == e;
  }

  lemma ReachedDelete(keys: seq<Item>, prec0: Prec, prec: Prec, popped: seq<Item>, rest: seq<Item>, e: Item)
    requires Reached(keys, prec0, prec, popped, rest + [e]) && e in prec
    ensures Reached(keys, prec0, prec - {e}, popped + [e], rest + Freed(prec - {e}, prec[e]))
  {
    assert Items(popped + [e]) == Items(popped) + {e};
    assert (prec - {e}).Keys == prec0.Keys - Items(popped + [e]);
    hide Blocked, Listed, Freed, Items;
    forall x ensures x in popped + [e] || x in rest + Freed(prec - {e}, prec[e]) <==>
                     (x in keys || x in Listed(prec0)) && !Blocked(prec - {e}, x)
    {
      ReachedAfter(keys, prec0, prec, popped, rest, e, x);
    }
  }

  lemma ReachedAfter(keys: seq<Item>, prec0: Prec, prec: Prec, popped: seq<Item>, rest: seq<Item>, e: Item, x: Item)
    requires Reached(keys, prec0, prec, popped, rest + [e]) && e in prec
    ensures x in popped + [e] || x in rest + Freed(prec - {e}, prec[e]) <==>
            (x in keys || x in Listed(prec0)) && !Blocked(prec - {e}, x)
  {
    assert prec[e] == prec0[e];
    FreedMember(prec - {e}, prec[e], x);
    DeleteUnblocks(prec, e, x);
    ListedIff(prec0, x);
    if x in prec[e] { assert Blocked(prec0, x); }
    hide Freed, Blocked, Listed;
    assert x in rest + [e] <==> x in rest || x == e;
  }

  lemma DeleteCounts(keys: seq<Item>, prec0: Prec, prec: Prec, popped: seq<Item>, rest: seq<Item>, e: Item)
    requires Reached(keys, prec0, prec, popped, rest + [e]) && Counts(keys, prec0, popped, rest + [e])
    ensures e in prec ==> Counts(keys, prec0, popped + [e], rest + Freed(prec - {e}, prec[e]))
    ensures e !in prec ==> Counts(keys, prec0, popped + [e], rest)
  {
    hide Reached, Blocked, Times, CountOk, Freed;
    var freed := if e in prec then Freed(prec - {e}, prec[e]) else [];
    assert rest + freed == if e in prec then rest + Freed(prec - {e}, prec[e]) else rest;
    forall y | y in popped + [e] || y in rest + freed
      ensures CountOk(keys, prec0, popped + [e], y, Times(popped + [e], y) + Times(rest + freed, y))
    {
      if y in freed {
        FreedIsNew(keys, prec0, prec, popped, rest, e, y);
      } else {
        TimesBoth(rest, freed, y);
        TimesOfNone(freed, y);
        CountStays(keys, prec0, popped, rest, e, y);
      }
    }
  }

  lemma TimesOfNone(s: seq<Item>, y: Item)
    requires y !in s
    ensures Times(s, y) == 0
  {}

  lemma FreedStays(prec0: Prec, s: seq<Item>, e: Item, p: nat, y: Item, n: nat)
    requires FreedBy(prec0, s, p, y, n)
    ensures FreedBy(prec0, s + [e], p, y, n)
  {
    assert (s + [e])[..p] == s[..p] && (s + [e])[..p + 1] == s[..p + 1];
  }

  lemma CountStays(keys: seq<Item>, prec0: Prec, popped: seq<Item>, rest: seq<Item>, e: Item, y: Item)
    requires Counts(keys, prec0, popped, rest + [e]) && (y in popped + [e] || y in rest)
    ensures CountOk(keys, prec0, popped + [e], y, Times(popped + [e], y) + Times(rest, y))
  {
    var n := Times(popped + [e], y) + Times(rest, y);
    hide Times, Blocked;
    TimesBoth(popped, [e], y);
    TimesBoth(rest, [e], y);
    assert CountOk(keys, prec0, popped, y, n);
    hide Counts;
    if Blocked(prec0, y) {
      var p :| FreedBy(prec0, popped, p, y, n);
      FreedStays(prec0, popped, e, p, y, n);
    }
  }

  lemma DeleteUnblocks(prec: Prec, e: Item, x: Item)
    requires e in prec
    ensures Blocked(prec, x) <==> Blocked(prec - {e}, x) || x in prec[e]
  {
    if Blocked(prec, x) && x !in prec[e] {
      var y :| y in prec && x in prec[y];
      assert y in prec - {e};
    }
  }

  lemma FreedHere(prec0: Prec, prec: Prec, popped: seq<Item>, e: Item, y: Item)
    requires prec.Keys == prec0.Keys - Items(popped) && (forall z :: z in prec ==> prec[z] == prec0[z])
    requires e in prec && y in prec0[e] && !Blocked(prec - {e}, y)
    ensures FreedBy(prec0, popped + [e], |popped|, y, Times(prec0[e], y))
  {
    var s := popped + [e];
    assert s[..|popped|] == popped && s[..|popped| + 1] == s;
    forall z | Known(prec0, z, y) ensures z in s {
      NotBlockedBy(prec - {e}, z, y);
      assert z in prec ==> prec[z] == prec0[z];
      hide Blocked;
      assert z == e || z in Items(popped);
    }
  }

  lemma NotBlockedBy(prec: Prec, z: Item, y: Item)
    requires !Blocked(prec, y)
    ensures z in prec ==> y !in prec[z]
  {}

  lemma FreedIsNew(keys: seq<Item>, prec0: Prec, prec: Prec, popped: seq<Item>, rest: seq<Item>, e: Item, y: Item)
    requires Reached(keys, prec0, prec, popped, rest + [e]) && e in prec && y in Freed(prec - {e}, prec[e])
    ensures var freed := Freed(prec - {e}, prec[e]);
            CountOk(keys, prec0, popped + [e], y, Times(popped + [e], y) + Times(rest + freed, y))
  {
    hide Times, Freed, Blocked, Reached;
    var freed := Freed(prec - {e}, prec[e]);
    NewlyFree(keys, prec0, prec, popped, rest, e, y);
    FreedCount(prec - {e}, prec[e], y);
    TimesOfNone(popped + [e], y);
    TimesOfNone(rest, y);
    TimesBoth(rest, freed, y);
    FreedHere(prec0, prec, popped, e, y);
  }

  /** What is freed was nowhere before, and nothing blocks it any more. */
  lemma NewlyFree(keys: seq<Item>, prec0: Prec, prec: Prec, popped: seq<Item>, rest: seq<Item>, e: Item, y: Item)
    requires Reached(keys, prec0, prec, popped, rest + [e]) && e in prec && y in Freed(prec - {e}, prec[e])
    ensures prec.Keys == prec0.Keys - Items(popped) && forall z :: z in prec ==> prec[z] == prec0[z]
    ensures e in prec0 && prec0[e] == prec[e] && y in prec[e] && Blocked(prec0, y) && !Blocked(prec - {e}, y)
    ensures y !in popped + [e] && y !in rest
  {
    hide Freed, Listed;
    FreedMember(prec - {e}, prec[e], y);
    assert Blocked(prec, y) && Blocked(prec0, y);
    hide Blocked;
    assert y in rest + [e] <==> y in rest || y == e;
  }

  // ---- The worklist ----

  method Initial(keys: seq<Item>, prec: Prec) returns (tmp: seq<Item>)
    requires Distinct(keys)
    ensures Distinct(tmp) && forall x :: x in tmp <==> x in keys && !Blocked(prec, x)
  {
    tmp := [];
    for i := 0 to |keys|
      invariant Distinct(tmp) && forall x :: x in tmp <==> x in keys[..i] && !Blocked(prec, x)
    {
      assert keys[..i + 1] == keys[..i] + [keys[i]];
      hide Blocked;
      DistinctLast(keys[..i], keys[i]);
      if !Blocked(prec, keys[i]) {
        DistinctBoth(tmp, [keys[i]]);
        tmp := tmp + [keys[i]];
      }
    }
    assert keys[..|keys|] == keys;
  }

  method PushFreed(prec: Prec, list: seq<Item>, tmp: seq<Item>) returns (tmp': seq<Item>)
    ensures tmp' == tmp + Freed(prec, list)
  {
    tmp' := tmp;
    assert list[..0] == [];
    for i := 0 to |list|
      invariant tmp' == tmp + Freed(prec, list[..i])
    {
      assert list[..i + 1][..i] == list[..i];
      if !Blocked(prec, list[i]) {
        tmp' := tmp' + [list[i]];
      }
    }
    assert list[..|list|] == list;
  }

  /** A key comes out once, or, if it had to wait, as often as the list that freed it names it. */
  ghost predicate Repeated(keys: seq<Item>, prec0: Prec, out: seq<Item>) {
    forall y :: y in keys ==> ComesOut(prec0, Lasts(out), y, Times(out, y))
  }

  /** Of the keys that name y, the one that stands first in the order frees it. */
  ghost predicate Frees(prec0: Prec, order: seq<Item>, i: nat, y: Item) {
    i < |order| && Known(prec0, order[i], y) && forall j :: 0 <= j < i ==> !Known(prec0, order[j], y)
  }

  ghost predicate ComesOut(prec0: Prec, order: seq<Item>, y: Item, n: nat) {
    if Blocked(prec0, y) then exists i: nat :: Frees(prec0, order, i, y) && n == Times(prec0[order[i]], y) else n == 1
  }

  /** No list that frees a key names it twice. */
  ghost predicate FreedOnce(keys: seq<Item>, prec0: Prec, order: seq<Item>) {
    forall y, i: nat :: y in keys && Frees(prec0, order, i, y) ==> Times(prec0[order[i]], y) == 1
  }

  /** Every item where it stands last. */
  function Lasts(s: seq<Item>): seq<Item> {
    Reversed(Firsts(Reversed(s)))
  }

  /** Nothing comes out twice if and only if no list that frees a key names it twice. */
  lemma OnceIfFreedOnce(keys: seq<Item>, prec0: Prec, out: seq<Item>)
    requires Repeated(keys, prec0, out) && forall y :: y in out <==> y in keys
    ensures Distinct(out) <==> FreedOnce(keys, prec0, Lasts(out))
  {
    hide Times, Lasts;
    var order := Lasts(out);
    if Distinct(out) {
      forall y, i: nat | y in keys && Frees(prec0, order, i, y) ensures Times(prec0[order[i]], y) == 1 {
        DistinctCounts(out, y);
        TimesOfSome(out, y);
        assert ComesOut(prec0, order, y, Times(out, y));
        assert Blocked(prec0, y);
      }
    }
    if FreedOnce(keys, prec0, order) {
      forall y | y in out ensures Times(out, y) <= 1 {
        assert ComesOut(prec0, order, y, Times(out, y));
      }
      CountsDistinct(out);
    }
  }

  lemma TimesOfSome(s: seq<Item>, y: Item)
    requires y in s
    ensures Times(s, y) > 0
  {}

  /** When all the lists that name a key name it twice, it comes out twice. */
  lemma ListedTwice(keys: seq<Item>, prec0: Prec, out: seq<Item>, y: Item)
    requires Repeated(keys, prec0, out) && y in keys && Blocked(prec0, y)
    requires forall x :: x in prec0 && y in prec0[x] ==> Times(prec0[x], y) > 1
    ensures !Distinct(out)
  {
    assert ComesOut(prec0, Lasts(out), y, Times(out, y));
    if Distinct(out) { DistinctCounts(out, y); }
  }

  /** Such a list: 2 before 1, said twice. */
  lemma TwoAgain(out: seq<Item>)
    requires Repeated([1, 2], map[1 := [2, 2]], out)
    ensures Times(out, 2) == 2 && !Distinct(out)
  {
    var prec0: Prec := map[1 := [2, 2]];
    assert 2 in prec0[1];
    assert Blocked(prec0, 2);
    assert ComesOut(prec0, Lasts(out), 2, Times(out, 2));
    ListedTwice([1, 2], prec0, out, 2);
  }

  lemma {:induction false} DistinctCounts(s: seq<Item>, y: Item)
    requires Distinct(s)
    ensures Times(s, y) <= 1
  {
    if s != [] {
      var front, last := s[..|s| - 1], s[|s| - 1];
      assert s == front + [last];
      DistinctLast(front, last);
      DistinctCounts(front, y);
    }
  }

  lemma CountsDistinct(s: seq<Item>)
    requires forall y :: y in s ==> Times(s, y) <= 1
    ensures Distinct(s)
  {
    forall i, j | 0 <= i < j < |s| ensures s[i] != s[j] {
      var y: Item := s[j];
      TimesBoth(s[..j], s[j..], y);
      assert s == s[..j] + s[j..];
      assert y in s[j..] && Times(s[j..], y) >= 1;
      assert y !in s[..j];
      assert s[..j][i] == s[i];
    }
  }

  datatype Outcome = Order(out: seq<Item>) | CycleDetected(prec: Prec)

  ghost predicate LoopInv(keys: seq<Item>, prec0: Prec, prec: Prec, popped: seq<Item>, tmp: seq<Item>) {
    Reached(keys, prec0, prec, popped, tmp) && Counts(keys, prec0, popped, tmp) && Backwards(prec0, popped)
  }

  /** The loop of `post` and of `process_use`: take the last of what nothing waits for, and see what
      nothing else waits for then. */
  method Backward(keys: seq<Item>, prec0: Prec) returns (r: Outcome)
    requires Distinct(keys) && prec0.Keys <= Items(keys)
    ensures r.CycleDetected? <==> Cyclic(KeyEdges(keys, prec0))
    ensures r.Order? ==> Items(r.out) == Items(keys) && Repeated(keys, prec0, r.out)
    ensures r.Order? ==> InOrder(KeyEdges(keys, prec0), Lasts(r.out))
    ensures r.Order? ==> (Distinct(r.out) <==> FreedOnce(keys, prec0, Lasts(r.out)))
    ensures r.Order? && Distinct(r.out) ==> InOrder(KeyEdges(keys, prec0), r.out)
    ensures r.Order? && ListsDistinct(prec0) ==> Distinct(r.out) && InOrder(KeyEdges(keys, prec0), r.out)
  {
    var prec := prec0;
    var tmp := Initial(keys, prec);
    var out: seq<Item> := [];
    ghost var popped: seq<Item> := [];
    InvAtFirst(keys, prec0, tmp);
    hide LoopInv, Distinct, Cyclic, InOrder, KeyEdges, Blocked, Freed, ListsDistinct, Reversed;
    while tmp != []
      invariant LoopInv(keys, prec0, prec, popped, tmp) && out == Kept(popped, keys)
      decreases prec.Keys, |tmp|
    {
      var e, rest := tmp[|tmp| - 1], tmp[..|tmp| - 1];
      assert tmp == rest + [e];
      InvAfterPop(keys, prec0, prec, popped, rest, e);
      if e in keys {
        out := out + [e];
      }
      assert (popped + [e])[..|popped|] == popped;
      popped := popped + [e];
      tmp := rest;
      if e in prec {
        var nlst := prec[e];
        prec := prec - {e};
        tmp := PushFreed(prec, nlst, tmp);
      }
    }
    if prec != map[] {
      LeftOverIsCyclic(keys, prec0, prec, popped);
      return CycleDetected(prec);
    }
    AllDone(keys, prec0, popped);
    return Order(Reversed(out));
  }

  lemma InvAtFirst(keys: seq<Item>, prec0: Prec, tmp: seq<Item>)
    requires Distinct(tmp) && forall x :: x in tmp <==> x in keys && !Blocked(prec0, x)
    ensures LoopInv(keys, prec0, prec0, [], tmp)
  {
    forall y | y in tmp ensures CountOk(keys, prec0, [], y, Times([], y) + Times(tmp, y)) {
      DistinctCounts(tmp, y);
    }
    forall x | x in Listed(prec0) ensures Blocked(prec0, x) { ListedIff(prec0, x); }
    assert prec0.Keys == prec0.Keys - Items([]);
  }

  lemma InvAfterPop(keys: seq<Item>, prec0: Prec, prec: Prec, popped: seq<Item>, rest: seq<Item>, e: Item)
    requires LoopInv(keys, prec0, prec, popped, rest + [e])
    ensures if e in prec then LoopInv(keys, prec0, prec - {e}, popped + [e], rest + Freed(prec - {e}, prec[e]))
            else LoopInv(keys, prec0, prec, popped + [e], rest)
  {
    PopKeepsOrder(keys, prec0, prec, popped, rest + [e]);
    DeleteKeepsReached(keys, prec0, prec, popped, rest, e);
    hide Reached, Counts, Backwards;
  }

  lemma LeftOverIsCyclic(keys: seq<Item>, prec0: Prec, prec: Prec, popped: seq<Item>)
    requires LoopInv(keys, prec0, prec, popped, []) && prec != map[] && prec0.Keys <= Items(keys)
    ensures Cyclic(KeyEdges(keys, prec0))
  {
    forall y | y in prec.Keys ensures HasAfter(KeyEdges(keys, prec0), prec.Keys, y) {
      assert y !in Items(popped);
      assert y in Items(keys);
      assert Blocked(prec, y);
      var x :| x in prec && y in prec[x];
      EdgeIff(keys, prec0, y, x);
    }
    LoopAhead(KeyEdges(keys, prec0), prec.Keys);
  }

  // ---- The list, backwards ----

  lemma {:induction false} KeptMember(popped: seq<Item>, keys: seq<Item>, x: Item)
    ensures x in Kept(popped, keys) <==> x in popped && x in keys
  {
    if popped != [] {
      var front, last := popped[..|popped| - 1], popped[|popped| - 1];
      KeptMember(front, keys, x);
      assert popped == front + [last];
    }
  }

  lemma BackwardsFront(prec0: Prec, front: seq<Item>, last: Item)
    requires Backwards(prec0, front + [last])
    ensures Backwards(prec0, front) && forall x :: x in prec0 && last in prec0[x] ==> x in front
  {
    var s := front + [last];
    forall k, x | 0 <= k < |front| && x in prec0 && front[k] in prec0[x] ensures x in front[..k] {
      assert s[..k] == front[..k] && s[k] == front[k];
    }
    forall x | x in prec0 && last in prec0[x] ensures x in front {
      assert s[|front|] == last && s[..|front|] == front;
      assert x in s[..|front|];
    }
  }

  lemma BackwardsLast(prec0: Prec, front: seq<Item>, last: Item)
    requires Backwards(prec0, front) && forall x :: x in prec0 && last in prec0[x] ==> x in front
    ensures Backwards(prec0, front + [last])
  {
    var s := front + [last];
    forall k, x | 0 <= k < |s| && x in prec0 && s[k] in prec0[x] ensures x in s[..k] {
      assert s[..k] == front[..k];
    }
  }

  lemma {:induction false} KeptBackwards(prec0: Prec, popped: seq<Item>, keys: seq<Item>)
    requires Backwards(prec0, popped) && prec0.Keys <= Items(keys)
    ensures Backwards(prec0, Kept(popped, keys))
  {
    if popped != [] {
      var front: seq<Item>, last: Item := popped[..|popped| - 1], popped[|popped| - 1];
      assert popped == front + [last];
      BackwardsFront(prec0, front, last);
      KeptBackwards(prec0, front, keys);
      forall x | x in prec0 && last in prec0[x] ensures x in Kept(front, keys) {
        assert x in Items(keys);
        KeptMember(front, keys, x);
      }
      BackwardsLast(prec0, Kept(front, keys), last);
      hide Backwards;
      assert Kept(popped, keys) == if last in keys then Kept(front, keys) + [last] else Kept(front, keys);
    }
  }

  lemma ReversedPair(prec0: Prec, kept: seq<Item>, i: nat, j: nat)
    requires Distinct(kept) && Backwards(prec0, kept) && i < |kept| && j < |kept|
    requires Reversed(kept)[j] in prec0 && Reversed(kept)[i] in prec0[Reversed(kept)[j]]
    ensures i < j
  {
    var n := |kept|;
    var x: Item := kept[n - 1 - j];
    assert kept[n - 1 - i] in prec0[x];
    assert x in kept[..n - 1 - i];
    var m :| 0 <= m < n - 1 - i && kept[m] == x;
  }

  lemma ReverseInOrder(keys: seq<Item>, prec0: Prec, kept: seq<Item>)
    requires Distinct(kept) && Backwards(prec0, kept)
    ensures Distinct(Reversed(kept)) && InOrder(KeyEdges(keys, prec0), Reversed(kept))
  {
    var out := Reversed(kept);
    assert Distinct(out);
    hide Distinct, Backwards, KeyEdges, Reversed;
    forall i, j | 0 <= i < |out| && 0 <= j < |out| && (out[i], out[j]) in KeyEdges(keys, prec0) ensures i < j {
      EdgeIff(keys, prec0, out[i], out[j]);
      ReversedPair(prec0, kept, i, j);
    }
  }

  lemma ReverseItems(s: seq<Item>)
    ensures Items(Reversed(s)) == Items(s)
  {
    forall x ensures x in Reversed(s) <==> x in s {
      if x in s {
        var k :| 0 <= k < |s| && s[k] == x;
        assert Reversed(s)[|s| - 1 - k] == x;
      }
    }
  }

  function Firsts(s: seq<Item>): seq<Item> {
    if s == [] then []
    else Firsts(s[..|s| - 1]) + if s[|s| - 1] in s[..|s| - 1] then [] else [s[|s| - 1]]
  }

  lemma {:induction false} FirstsOnce(s: seq<Item>)
    ensures Distinct(Firsts(s)) && forall x :: x in Firsts(s) <==> x in s
  {
    if s != [] {
      var front, last := s[..|s| - 1], s[|s| - 1];
      FirstsOnce(front);
      assert s == front + [last];
      if last !in front { DistinctBoth(Firsts(front), [last]); }
    }
  }

  lemma {:induction false} FirstsBackwards(prec0: Prec, popped: seq<Item>)
    requires Backwards(prec0, popped)
    ensures Backwards(prec0, Firsts(popped))
  {
    if popped != [] {
      var front: seq<Item>, last: Item := popped[..|popped| - 1], popped[|popped| - 1];
      assert popped == front + [last];
      BackwardsFront(prec0, front, last);
      FirstsBackwards(prec0, front);
      FirstsOnce(front);
      BackwardsLast(prec0, Firsts(front), last);
      hide Backwards;
      assert Firsts(popped) == if last in front then Firsts(front) else Firsts(front) + [last];
    }
  }

  lemma OrderedIsAcyclic(keys: seq<Item>, prec0: Prec, popped: seq<Item>)
    requires Backwards(prec0, popped) && prec0.Keys <= Items(keys) && forall x :: x in keys ==> x in popped
    ensures !Cyclic(KeyEdges(keys, prec0))
  {
    var firsts := Firsts(popped);
    FirstsOnce(popped);
    FirstsBackwards(prec0, popped);
    ReverseInOrder(keys, prec0, firsts);
    ReverseItems(firsts);
    var order := Reversed(firsts);
    forall c ensures !IsLoop(KeyEdges(keys, prec0), c) {
      if IsLoop(KeyEdges(keys, prec0), c) {
        forall k | 0 <= k < |c| ensures c[k] in order {
          var y: Item := c[k];
          var x: Item := if k + 1 < |c| then c[k + 1] else c[0];
          EdgeIff(keys, prec0, y, x);
          assert y in Items(firsts);
        }
        OrderedIsNoLoop(KeyEdges(keys, prec0), order, c);
      }
    }
  }

  lemma AllDone(keys: seq<Item>, prec0: Prec, popped: seq<Item>)
    requires LoopInv(keys, prec0, map[], popped, []) && prec0.Keys <= Items(keys)
    ensures !Cyclic(KeyEdges(keys, prec0))
    ensures var out := Reversed(Kept(popped, keys));
            && Items(out) == Items(keys) && Repeated(keys, prec0, out) && InOrder(KeyEdges(keys, prec0), Lasts(out))
            && (Distinct(out) <==> FreedOnce(keys, prec0, Lasts(out)))
            && (Distinct(out) ==> InOrder(KeyEdges(keys, prec0), out))
            && (ListsDistinct(prec0) ==> Distinct(out))
  {
    var kept := Kept(popped, keys);
    forall x | x in keys ensures x in popped { assert !Blocked(map[], x); }
    OrderedIsAcyclic(keys, prec0, popped);
    ReverseItems(kept);
    forall x ensures x in kept <==> x in keys { KeptMember(popped, keys, x); }
    KeptBackwards(prec0, popped, keys);
    KeptRepeated(keys, prec0, popped);
    hide LoopInv, Cyclic, KeyEdges, Repeated, Distinct, Backwards, InOrder, FreedOnce, ListsDistinct, Reversed, Lasts;
    LastsInOrder(keys, prec0, kept);
    OnceIfFreedOnce(keys, prec0, Reversed(kept));
    if ListsDistinct(prec0) { ListedOnce(keys, prec0, Lasts(Reversed(kept))); }
    if Distinct(Reversed(kept)) { DistinctInOrder(keys, prec0, kept); }
  }

  lemma DistinctInOrder(keys: seq<Item>, prec0: Prec, kept: seq<Item>)
    requires Backwards(prec0, kept) && Distinct(Reversed(kept))
    ensures InOrder(KeyEdges(keys, prec0), Reversed(kept))
  {
    ReversedDistinct(kept);
    ReverseInOrder(keys, prec0, kept);
  }

  lemma ReversedDistinct(s: seq<Item>)
    requires Distinct(Reversed(s))
    ensures Distinct(s)
  {
    forall i, j | 0 <= i < j < |s| ensures s[i] != s[j] {
      assert Reversed(s)[|s| - 1 - i] == s[i] && Reversed(s)[|s| - 1 - j] == s[j];
    }
  }

  lemma ListedOnce(keys: seq<Item>, prec0: Prec, order: seq<Item>)
    requires ListsDistinct(prec0)
    ensures FreedOnce(keys, prec0, order)
  {
    forall y, i: nat | y in keys && Frees(prec0, order, i, y) ensures Times(prec0[order[i]], y) == 1 {
      DistinctCounts(prec0[order[i]], y);
      TimesOfSome(prec0[order[i]], y);
    }
  }

  lemma LastsInOrder(keys: seq<Item>, prec0: Prec, kept: seq<Item>)
    requires Backwards(prec0, kept)
    ensures InOrder(KeyEdges(keys, prec0), Lasts(Reversed(kept)))
  {
    assert Reversed(Reversed(kept)) == kept;
    FirstsOnce(kept);
    FirstsBackwards(prec0, kept);
    ReverseInOrder(keys, prec0, Firsts(kept));
  }

  lemma {:induction false} KeptCount(popped: seq<Item>, keys: seq<Item>, y: Item)
    requires y in keys
    ensures Times(Kept(popped, keys), y) == Times(popped, y)
  {
    if popped != [] {
      var front, last := popped[..|popped| - 1], popped[|popped| - 1];
      KeptCount(front, keys, y);
      assert popped == front + [last];
    }
  }

  lemma {:induction false} ReverseCount(s: seq<Item>, y: Item)
    ensures Times(Reversed(s), y) == Times(s, y)
  {
    if s != [] {
      var front, last := s[..|s| - 1], s[|s| - 1];
      ReverseCount(front, y);
      assert s == front + [last];
      assert Reversed(s) == [last] + Reversed(front);
    }
  }

  lemma KeptRepeated(keys: seq<Item>, prec0: Prec, popped: seq<Item>)
    requires Counts(keys, prec0, popped, []) && (forall x :: x in keys ==> x in popped) && prec0.Keys <= Items(keys)
    ensures Repeated(keys, prec0, Reversed(Kept(popped, keys)))
  {
    hide Times, Kept, Reversed, Blocked, Lasts;
    forall y | y in keys
      ensures ComesOut(prec0, Lasts(Reversed(Kept(popped, keys))), y, Times(Reversed(Kept(popped, keys)), y))
    {
      ReverseCount(Kept(popped, keys), y);
      KeptCount(popped, keys, y);
      TimesOfNone([], y);
      CountComesOut(keys, prec0, popped, y, Times(popped, y));
    }
  }

  lemma CountComesOut(keys: seq<Item>, prec0: Prec, popped: seq<Item>, y: Item, n: nat)
    requires CountOk(keys, prec0, popped, y, n) && prec0.Keys <= Items(keys)
    ensures ComesOut(prec0, Lasts(Reversed(Kept(popped, keys))), y, n)
  {
    if Blocked(prec0, y) {
      var p :| FreedBy(prec0, popped, p, y, n);
      var kept := Kept(popped, keys);
      var q := FreedKept(prec0, keys, popped, p, y, n);
      var r := FreedFirst(prec0, kept, q, y, n);
      FirstsOnce(kept);
      assert Reversed(Reversed(kept)) == kept;
      hide Blocked, Times;
      FreedReversed(prec0, Firsts(kept), r, y, n);
    }
  }

  lemma {:induction false} KeptPrefix(popped: seq<Item>, keys: seq<Item>, n: nat)
    requires n <= |popped|
    ensures Kept(popped[..n], keys) <= Kept(popped, keys)
  {
    if n == |popped| {
      assert popped[..n] == popped;
    } else {
      var front := popped[..|popped| - 1];
      assert front[..n] == popped[..n];
      KeptPrefix(front, keys, n);
    }
  }

  lemma FreedKept(prec0: Prec, keys: seq<Item>, popped: seq<Item>, p: nat, y: Item, n: nat) returns (q: nat)
    requires FreedBy(prec0, popped, p, y, n) && prec0.Keys <= Items(keys)
    ensures FreedBy(prec0, Kept(popped, keys), q, y, n)
  {
    var before, upTo := popped[..p], popped[..p + 1];
    q := |Kept(before, keys)|;
    assert popped[p] in Items(keys);
    assert upTo[..p] == before;
    assert Kept(upTo, keys) == Kept(before, keys) + [popped[p]];
    KeptPrefix(popped, keys, p);
    KeptPrefix(popped, keys, p + 1);
    KeptMember(before, keys, popped[p]);
    assert Kept(popped, keys)[..q] == Kept(before, keys) && Kept(popped, keys)[..q + 1] == Kept(upTo, keys);
    forall z | Known(prec0, z, y) ensures z in Kept(upTo, keys) {
      assert z in Items(keys);
      KeptMember(upTo, keys, z);
    }
  }

  lemma {:induction false} FirstsPrefix(s: seq<Item>, n: nat)
    requires n <= |s|
    ensures Firsts(s[..n]) <= Firsts(s)
  {
    if n == |s| {
      assert s[..n] == s;
    } else {
      var front := s[..|s| - 1];
      assert front[..n] == s[..n];
      FirstsPrefix(front, n);
    }
  }

  lemma FreedFirst(prec0: Prec, s: seq<Item>, p: nat, y: Item, n: nat) returns (q: nat)
    requires FreedBy(prec0, s, p, y, n)
    ensures FreedBy(prec0, Firsts(s), q, y, n)
  {
    var before, upTo := s[..p], s[..p + 1];
    q := |Firsts(before)|;
    assert upTo[..p] == before;
    assert Firsts(upTo) == Firsts(before) + [s[p]];
    FirstsPrefix(s, p);
    FirstsPrefix(s, p + 1);
    FirstsOnce(before);
    FirstsOnce(upTo);
    assert Firsts(s)[..q] == Firsts(before) && Firsts(s)[..q + 1] == Firsts(upTo);
  }

  lemma FreedReversed(prec0: Prec, s: seq<Item>, p: nat, y: Item, n: nat)
    requires FreedBy(prec0, s, p, y, n) && Distinct(s)
    ensures Frees(prec0, Reversed(s), |s| - 1 - p, y) && n == Times(prec0[Reversed(s)[|s| - 1 - p]], y)
  {
    var order, i := Reversed(s), |s| - 1 - p;
    forall j | 0 <= j < i ensures !Known(prec0, order[j], y) {
      LaterNotIn(s, |s| - 1 - j, p + 1);
    }
  }

  lemma LaterNotIn(s: seq<Item>, m: nat, k: nat)
    requires Distinct(s) && k <= m < |s|
    ensures s[m] !in s[..k]
  {}

  // ---- post ----

  function Append(table: Prec, k: Item, x: Item): Prec {
    table[k := (if k in table then table[k] else []) + [x]]
  }

  /** `before_method`: the decorated method is to run before each of those named. */
  method BeforeMethod(table: Prec, func: Item, names: seq<Item>) returns (table': Prec)
    requires ListsDistinct(table)
    ensures ListsDistinct(table')
    ensures forall k, x :: Known(table', k, x) <==> Known(table, k, x) || (x == func && k in names)
  {
    table' := table;
    for i := 0 to |names|
      invariant ListsDistinct(table')
      invariant forall k, x :: Known(table', k, x) <==> Known(table, k, x) || (x == func && k in names[..i])
    {
      assert names[..i + 1] == names[..i] + [names[i]];
      var before := table';
      if !Known(table', names[i], func) {
        table' := Append(table', names[i], func);
        AppendOne(before, names[i], func);
      }
    }
    assert names[..|names|] == names;
  }

  lemma AppendOne(table: Prec, k: Item, x: Item)
    requires ListsDistinct(table) && !Known(table, k, x)
    ensures ListsDistinct(Append(table, k, x))
    ensures forall j, y :: Known(Append(table, k, x), j, y) <==> Known(table, j, y) || (j == k && y == x)
  {
    var list := if k in table then table[k] else [];
    DistinctBoth(list, [x]);
  }

  /** `after_method`: the decorated method is to run after each of those named. */
  method AfterMethod(table: Prec, func: Item, names: seq<Item>) returns (table': Prec)
    requires ListsDistinct(table)
    ensures ListsDistinct(table')
    ensures forall k, x :: Known(table', k, x) <==> Known(table, k, x) || (k == func && x in names)
  {
    table' := table;
    for i := 0 to |names|
      invariant ListsDistinct(table')
      invariant forall k, x :: Known(table', k, x) <==> Known(table, k, x) || (k == func && x in names[..i])
    {
      assert names[..i + 1] == names[..i] + [names[i]];
      var before := table';
      if !Known(table', func, names[i]) {
        table' := Append(table', func, names[i]);
        AppendOne(before, func, names[i]);
      }
    }
    assert names[..|names|] == names;
  }

  /** The entries of the methods that run. */
  function Selected(keys: seq<Item>, table: Prec): Prec {
    map x | x in table && x in keys :: table[x]
  }

  /** The methods of a task generator that run, in an order that keeps every precedence between them. */
  method PostOrder(keys: seq<Item>, table: Prec) returns (r: Outcome)
    requires Distinct(keys)
    ensures r.CycleDetected? <==> Cyclic(Restricted(keys, table))
    ensures r.Order? ==> Items(r.out) == Items(keys) && Repeated(keys, Selected(keys, table), r.out)
    ensures r.Order? ==> InOrder(Restricted(keys, table), Lasts(r.out))
    ensures r.Order? ==> (Distinct(r.out) <==> FreedOnce(keys, Selected(keys, table), Lasts(r.out)))
    ensures r.Order? && Distinct(r.out) ==> InOrder(Restricted(keys, table), r.out)
    ensures r.Order? && ListsDistinct(table) ==> Distinct(r.out) && InOrder(Restricted(keys, table), r.out)
  {
    var prec := Selected(keys, table);
    r := Backward(keys, prec);
    forall e ensures e in KeyEdges(keys, prec) <==> e in Restricted(keys, table) {
      var (y, x) := e;
      EdgeIff(keys, prec, y, x);
      RestrictedIff(keys, table, y, x);
    }
    assert KeyEdges(keys, prec) == Restricted(keys, table);
  }

  /** y before x, where both run. */
  ghost function Restricted(keys: seq<Item>, table: Prec): Edges {
    set x, y | x in keys && y in keys && Known(table, x, y) :: (y, x)
  }

  lemma RestrictedIff(keys: seq<Item>, table: Prec, y: Item, x: Item)
    ensures (y, x) in Restricted(keys, table) <==> x in keys && y in keys && Known(table, x, y)
  {}
}
