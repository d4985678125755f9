/**
 Where the prerequisites of the tasks come from: shared files and the order of task classes, within
 one group of tasks after the other; and what that means for the scheduler.
 */
module BuildOrder {
  import opened Basics
  import opened Digraph
  import opened Scheduler
  import opened SchedulerTheorems

  datatype TaskClass = TaskClass(name: string, before: seq<string>, after: seq<string>, extIn: seq<string>,
                                 extOut: seq<string>, hcode: int)

  /** Files are ids. */
  datatype TaskInfo = TaskInfo(inputs: seq<int>, depNodes: seq<int>, outputs: seq<int>, cls: TaskClass)

  type Info = Task -> TaskInfo

  type RunAfterTable = map<Task, set<Task>>

  function After(r: RunAfterTable, x: Task): set<Task> {
    if x in r then r[x] else {}
  }

  /** x runs after y. */
  predicate Needs(r: RunAfterTable, x: Task, y: Task) {
    y in After(r, x)
  }

  // ---- Files ----

  function Consumed(info: Info, x: Task): seq<int> {
    info(x).inputs + info(x).depNodes
  }

  /** y writes a file that x reads. */
  ghost predicate Feeds(info: Info, y: Task, x: Task) {
    exists a :: (a in info(x).inputs || a in info(x).depNodes) && a in info(y).outputs
  }

  function Get(m: map<int, set<Task>>, a: int): set<Task> {
    if a in m then m[a] else {}
  }

  predicate Has(m: map<int, set<Task>>, a: int, x: Task) {
    x in Get(m, a)
  }

  method CollectOne(m: map<int, set<Task>>, x: Task, files: seq<int>) returns (m': map<int, set<Task>>)
    ensures forall a, y :: Has(m', a, y) <==> Has(m, a, y) || (a in files && y == x)
  {
    m' := m;
    for i := 0 to |files|
      invariant forall a, y :: Has(m', a, y) <==> Has(m, a, y) || (a in files[..i] && y == x)
    {
      assert files[..i + 1] == files[..i] + [files[i]];
      m' := m'[files[i] := Get(m', files[i]) + {x}];
    }
    assert files[..|files|] == files;
  }

  /** For every file the tasks that have it in their list. */
  method Collect(tasks: seq<Task>, lists: Task -> seq<int>) returns (m: map<int, set<Task>>)
    ensures forall a, x :: Has(m, a, x) <==> x in tasks && a in lists(x)
  {
    m := map[];
    for i := 0 to |tasks|
      invariant forall a, x :: Has(m, a, x) <==> x in tasks[..i] && a in lists(x)
    {
      assert tasks[..i + 1] == tasks[..i] + [tasks[i]];
      m := CollectOne(m, tasks[i], lists(tasks[i]));
    }
    assert tasks[..|tasks|] == tasks;
  }

  /** Each of these is to run after all of those. */
  method AddAll(r: RunAfterTable, these: set<Task>, those: set<Task>) returns (r': RunAfterTable)
    ensures forall x, y :: Needs(r', x, y) <==> Needs(r, x, y) || (x in these && y in those)
  {
    r' := r;
    var todo := these;
    while todo != {}
      invariant todo <= these
      invariant forall x, y :: Needs(r', x, y) <==> Needs(r, x, y) || (x in these && x !in todo && y in those)
      decreases |todo|
    {
      ghost var y := SomeMember(todo);
      var x :| x in todo;
      r' := AddOne(r', x, those);
      todo := todo - {x};
    }
  }

  function AddOne(r: RunAfterTable, x: Task, those: set<Task>): (r': RunAfterTable)
    ensures forall z, y :: Needs(r', z, y) <==> Needs(r, z, y) || (z == x && y in those)
  {
    r[x := After(r, x) + those]
  }

  /** One of these files joins x to y. */
  ghost predicate Through(files: set<int>, ins: map<int, set<Task>>, outs: map<int, set<Task>>, y: Task, x: Task) {
    exists a :: a in files && Has(ins, a, x) && Has(outs, a, y)
  }

  lemma OneMoreFile(files: set<int>, k: int, ins: map<int, set<Task>>, outs: map<int, set<Task>>)
    requires k in ins && k in outs
    ensures forall x, y :: Through(files + {k}, ins, outs, y, x) <==>
                           Through(files, ins, outs, y, x) || (x in ins[k] && y in outs[k])
  {
    forall x, y | x in ins[k] && y in outs[k] ensures Through(files + {k}, ins, outs, y, x) {
      assert Has(ins, k, x) && Has(outs, k, y) && k in files + {k};
    }
    forall x, y | Through(files, ins, outs, y, x) ensures Through(files + {k}, ins, outs, y, x) {
      var a :| a in files && Has(ins, a, x) && Has(outs, a, y);
      assert a in files + {k};
    }
  }

  lemma AllFiles(tasks: seq<Task>, info: Info, ins: map<int, set<Task>>, outs: map<int, set<Task>>)
    requires forall a, x :: Has(ins, a, x) <==> x in tasks && a in Consumed(info, x)
    requires forall a, x :: Has(outs, a, x) <==> x in tasks && a in info(x).outputs
    ensures forall x, y :: Through(ins.Keys * outs.Keys, ins, outs, y, x) <==>
            x in tasks && y in tasks && Feeds(info, y, x)
  {
    forall x, y | x in tasks && y in tasks && Feeds(info, y, x) ensures Through(ins.Keys * outs.Keys, ins, outs, y, x) {
      var a :| a in Consumed(info, x) && a in info(y).outputs;
      assert Has(ins, a, x) && Has(outs, a, y);
    }
  }

  /** Who reads a file of the group runs after whoever writes it. */
  method SetFileConstraints(tasks: seq<Task>, info: Info, r: RunAfterTable) returns (r': RunAfterTable)
    ensures forall x, y :: Needs(r', x, y) <==>
              Needs(r, x, y) || (x in tasks && y in tasks && Feeds(info, y, x))
  {
    var ins := Collect(tasks, x => Consumed(info, x));
    var outs := Collect(tasks, x => info(x).outputs);
    AllFiles(tasks, info, ins, outs);
    hide Feeds, Through, After, Needs;
    r' := r;
    var links := ins.Keys * outs.Keys;
    var todo := links;
    assert links - todo == {};
    NoFiles(ins, outs);
    while todo != {}
      invariant todo <= links
      invariant forall x, y :: Needs(r', x, y) <==> Needs(r, x, y) || Through(links - todo, ins, outs, y, x)
      decreases |todo|
    {
      ghost var b := SomeMember(todo);
      var k :| k in todo;
      OneMoreFile(links - todo, k, ins, outs);
      assert links - (todo - {k}) == links - todo + {k};
      r' := AddAll(r', ins[k], outs[k]);
      todo := todo - {k};
    }
    assert links - todo == links;
  }

  lemma NoFiles(ins: map<int, set<Task>>, outs: map<int, set<Task>>)
    ensures forall x, y :: !Through({}, ins, outs, y, x)
  {}

  // ---- Classes ----

  /** c1 makes files with an extension that c2 takes, or c2 names c1 as to come before it, or c1 names c2 as to
      come after it. */
  ghost predicate Claims(c1: TaskClass, c2: TaskClass) {
    || (exists ext :: ext in c1.extOut && ext in c2.extIn)
    || c1.name in c2.after
    || c2.name in c1.before
  }

  /** `is_before` */
  method IsBefore(c1: TaskClass, c2: TaskClass) returns (r: bool)
    ensures r <==> Claims(c1, c2)
  {
    for i := 0 to |c2.extIn|
      invariant forall k :: 0 <= k < i ==> c2.extIn[k] !in c1.extOut
    {
      if c2.extIn[i] in c1.extOut {
        return true;
      }
    }
    if c1.name in c2.after {
      return true;
    }
    if c2.name in c1.before {
      return true;
    }
    return false;
  }

  /** What holds between two classes, given the order in which they are looked at. */
  ghost predicate ClassBefore(keys: seq<TaskClass>, a: TaskClass, b: TaskClass) {
    exists i, j :: 0 <= i < |keys| && 0 <= j < |keys| && i != j && keys[i] == a && keys[j] == b &&
        PairBefore(keys, i, j)
  }

  ghost predicate PairBefore(keys: seq<TaskClass>, i: int, j: int)
    requires 0 <= i < |keys| && 0 <= j < |keys|
  {
    Claims(keys[i], keys[j]) && (i < j || !Claims(keys[j], keys[i]))
  }

  function Members(tasks: seq<Task>, info: Info, c: TaskClass): (r: set<Task>)
    ensures forall x :: x in r <==> x in tasks && info(x).cls == c
  {
    set x | x in tasks && info(x).cls == c
  }

  /** The classes of the tasks, each once, in some order: the keys of the dictionary. */
  ghost predicate OrderOf(keys: seq<TaskClass>, tasks: seq<Task>, info: Info) {
    IsOrder(keys, ClassesOf(tasks, info))
  }

  ghost predicate IsOrder(keys: seq<TaskClass>, all: set<TaskClass>) {
    Distinct(keys) && forall c :: c in keys <==> c in all
  }

  function ClassesOf(tasks: seq<Task>, info: Info): (r: set<TaskClass>)
    ensures forall x :: x in tasks ==> info(x).cls in r
  {
    set x | x in tasks :: info(x).cls
  }

  /** The dictionary gives its keys in any order. */
  method Classes(tasks: seq<Task>, info: Info) returns (keys: seq<TaskClass>)
    ensures OrderOf(keys, tasks, info)
  {
    var all := ClassesOf(tasks, info);
    var rest := all;
    keys := [];
    while rest != {}
      invariant rest <= all && Distinct(keys) && forall c :: c in keys <==> c in all && c !in rest
      decreases |rest|
    {
      ghost var some := SomeMember(rest);
      var c :| c in rest;
      keys, rest := keys + [c], rest - {c};
    }
  }

  /** The pairs with the lower number before i, and those with i itself and a number before j. */
  predicate Compared(i: int, j: int, k: int, l: int) {
    var lo, hi := if k < l then k else l, if k < l then l else k;
    lo < hi && (lo < i || (lo == i && hi < j))
  }

  ghost predicate PairOf(keys: seq<TaskClass>, k: int, l: int, a: TaskClass, b: TaskClass) {
    0 <= k < |keys| && 0 <= l < |keys| && keys[k] == a && keys[l] == b && PairBefore(keys, k, l)
  }

  ghost predicate SoFar(keys: seq<TaskClass>, i: int, j: int, a: TaskClass, b: TaskClass) {
    exists k, l :: PairOf(keys, k, l, a, b) && Compared(i, j, k, l)
  }

  lemma OneMorePair(keys: seq<TaskClass>, i: int, j: int, a: TaskClass, b: TaskClass)
    requires 0 <= i < j < |keys|
    ensures SoFar(keys, i, j + 1, a, b) <==>
            SoFar(keys, i, j, a, b) || PairOf(keys, i, j, a, b) || PairOf(keys, j, i, a, b)
  {
    if SoFar(keys, i, j + 1, a, b) {
      var k, l :| PairOf(keys, k, l, a, b) && Compared(i, j + 1, k, l);
      if !Compared(i, j, k, l) { assert (k == i && l == j) || (k == j && l == i); }
    }
    if SoFar(keys, i, j, a, b) {
      var k, l :| PairOf(keys, k, l, a, b) && Compared(i, j, k, l);
      assert Compared(i, j + 1, k, l);
    }
    if PairOf(keys, i, j, a, b) { assert Compared(i, j + 1, i, j); }
    if PairOf(keys, j, i, a, b) { assert Compared(i, j + 1, j, i); }
  }

  lemma NextRow(keys: seq<TaskClass>, i: int, a: TaskClass, b: TaskClass)
    requires 0 <= i < |keys|
    ensures SoFar(keys, i, |keys|, a, b) <==> SoFar(keys, i + 1, i + 2, a, b)
  {
    if SoFar(keys, i, |keys|, a, b) {
      var k, l :| PairOf(keys, k, l, a, b) && Compared(i, |keys|, k, l);
      assert Compared(i + 1, i + 2, k, l);
    }
    if SoFar(keys, i + 1, i + 2, a, b) {
      var k, l :| PairOf(keys, k, l, a, b) && Compared(i + 1, i + 2, k, l);
      assert Compared(i, |keys|, k, l);
    }
  }

  lemma AllPairs(keys: seq<TaskClass>, a: TaskClass, b: TaskClass)
    ensures !SoFar(keys, 0, 1, a, b)
    ensures SoFar(keys, |keys|, |keys| + 1, a, b) <==> ClassBefore(keys, a, b)
  {
    if ClassBefore(keys, a, b) {
      var k, l :| 0 <= k < |keys| && 0 <= l < |keys| && k != l && keys[k] == a && keys[l] == b &&
          PairBefore(keys, k, l);
      assert PairOf(keys, k, l, a, b) && Compared(|keys|, |keys| + 1, k, l);
    }
  }

  /** What was needed before, and what the compared classes add. */
  ghost predicate Added(r: RunAfterTable, r': RunAfterTable, tasks: seq<Task>, info: Info, keys: seq<TaskClass>,
                        i: int, j: int) {
    forall x, y :: Needs(r', x, y) <==>
      Needs(r, x, y) || (x in tasks && y in tasks && SoFar(keys, i, j, info(y).cls, info(x).cls))
  }

  method ComparePair(tasks: seq<Task>, info: Info, keys: seq<TaskClass>, i: nat, j: nat, ghost r0: RunAfterTable,
                     r: RunAfterTable)
    returns (r': RunAfterTable)
    requires i < j < |keys| && (forall k, l :: 0 <= k < l < |keys| ==> keys[k] != keys[l])
    requires Added(r0, r, tasks, info, keys, i, j)
    ensures Added(r0, r', tasks, info, keys, i, j + 1)
  {
    r' := r;
    hide SoFar, Needs, Claims;
    var first := IsBefore(keys[i], keys[j]);
    var second := IsBefore(keys[j], keys[i]);
    if first {
      r' := AddAll(r, Members(tasks, info, keys[j]), Members(tasks, info, keys[i]));
    } else if second {
      r' := AddAll(r, Members(tasks, info, keys[i]), Members(tasks, info, keys[j]));
    }
    forall x, y ensures Needs(r', x, y) <==>
                        Needs(r0, x, y) || (x in tasks && y in tasks && SoFar(keys, i, j + 1, info(y).cls, info(x).cls))
    {
      OneMorePair(keys, i, j, info(y).cls, info(x).cls);
    }
  }

  /** x runs after y when the classes were looked at in this order. */
  ghost predicate NeedsAfter(tasks: seq<Task>, info: Info, r: RunAfterTable, keys: seq<TaskClass>, x: Task, y: Task) {
    Needs(r, x, y) || (x in tasks && y in tasks && ClassBefore(keys, info(y).cls, info(x).cls))
  }

  /** s is what the constraints make of r. */
  ghost predicate Constrained(tasks: seq<Task>, info: Info, r: RunAfterTable, keys: seq<TaskClass>, s: RunAfterTable) {
    forall x, y :: Needs(s, x, y) <==> NeedsAfter(tasks, info, r, keys, x, y)
  }

  /** Between different classes of which one does not claim to come before the other, what the other claims
      decides. */
  ghost predicate ByClaims(tasks: seq<Task>, info: Info, r: RunAfterTable, s: RunAfterTable) {
    forall x, y :: x in tasks && y in tasks && info(x).cls != info(y).cls && !Claims(info(x).cls, info(y).cls) ==>
      (Needs(s, x, y) <==> Needs(r, x, y) || Claims(info(y).cls, info(x).cls))
  }

  lemma UnclashedByClaims(tasks: seq<Task>, info: Info, r: RunAfterTable, keys: seq<TaskClass>, s: RunAfterTable)
    requires OrderOf(keys, tasks, info) && Constrained(tasks, info, r, keys, s)
    ensures ByClaims(tasks, info, r, s)
  {
    hide Claims, ClassBefore, Needs;
    forall x, y | x in tasks && y in tasks && info(x).cls != info(y).cls && !Claims(info(x).cls, info(y).cls)
      ensures Needs(s, x, y) <==> Needs(r, x, y) || Claims(info(y).cls, info(x).cls)
    {
      assert Needs(s, x, y) <==> NeedsAfter(tasks, info, r, keys, x, y);
      ClassBeforeIff(keys, info(y).cls, info(x).cls);
    }
  }

  /** The tasks of one class run after all those of another that comes before it. */
  method SetPrecedenceConstraints(tasks: seq<Task>, info: Info, r: RunAfterTable)
    returns (r': RunAfterTable, keys: seq<TaskClass>)
    ensures OrderOf(keys, tasks, info) && Constrained(tasks, info, r, keys, r')
    ensures ByClaims(tasks, info, r, r')
  {
    keys := Classes(tasks, info);
    r' := r;
    forall a, b
      ensures !SoFar(keys, 0, 1, a, b) && (SoFar(keys, |keys|, |keys| + 1, a, b) <==> ClassBefore(keys, a, b))
    {
      AllPairs(keys, a, b);
    }
    hide SoFar, ClassBefore, Needs;
    for i := 0 to |keys|
      invariant Added(r, r', tasks, info, keys, i, i + 1)
    {
      for j := i + 1 to |keys|
        invariant Added(r, r', tasks, info, keys, i, j)
      {
        r' := ComparePair(tasks, info, keys, i, j, r, r');
      }
      forall a, b ensures SoFar(keys, i, |keys|, a, b) <==> SoFar(keys, i + 1, i + 2, a, b) {
        NextRow(keys, i, a, b);
      }
    }
    UnclashedByClaims(tasks, info, r, keys, r');
  }

  // ---- When the order of the dictionary matters ----

  /** Two different classes claim to come before each other. */
  ghost predicate Clash(a: TaskClass, b: TaskClass) {
    a != b && Claims(a, b) && Claims(b, a)
  }

  lemma {:induction false} SomeOrder(all: set<TaskClass>) returns (keys: seq<TaskClass>)
    ensures IsOrder(keys, all)
  {
    if all == {} {
      keys := [];
    } else {
      var c := SomeMember(all);
      keys := SomeOrder(all - {c});
      keys := keys + [c];
    }
  }

  /** Without a clash the order plays no part. */
  lemma ClassBeforeIff(keys: seq<TaskClass>, a: TaskClass, b: TaskClass)
    requires Distinct(keys) && !Clash(a, b)
    ensures ClassBefore(keys, a, b) <==> a in keys && b in keys && a != b && Claims(a, b)
  {
    if a in keys && b in keys && a != b && Claims(a, b) {
      var i :| 0 <= i < |keys| && keys[i] == a;
      var j :| 0 <= j < |keys| && keys[j] == b;
      assert PairBefore(keys, i, j);
    }
  }

  /** With one, only what stands first comes before the other. */
  lemma FirstWins(a: TaskClass, b: TaskClass, rest: seq<TaskClass>)
    requires Clash(a, b) && Distinct([a, b] + rest)
    ensures ClassBefore([a, b] + rest, a, b) && !ClassBefore([a, b] + rest, b, a)
  {
    var keys := [a, b] + rest;
    assert keys[0] == a && keys[1] == b && PairBefore(keys, 0, 1);
  }

  lemma BothOrders(all: set<TaskClass>, a: TaskClass, b: TaskClass) returns (k: seq<TaskClass>, l: seq<TaskClass>)
    requires a in all && b in all && Clash(a, b)
    ensures IsOrder(k, all) && ClassBefore(k, a, b) && !ClassBefore(k, b, a)
    ensures IsOrder(l, all) && ClassBefore(l, b, a) && !ClassBefore(l, a, b)
  {
    var rest := SomeOrder(all - {a, b});
    k, l := [a, b] + rest, [b, a] + rest;
    FirstWins(a, b, rest);
    FirstWins(b, a, rest);
  }

  /** Every order of the classes gives the same `ClassBefore`. */
  ghost predicate SameInAllOrders(all: set<TaskClass>) {
    forall k, l, a, b :: IsOrder(k, all) && IsOrder(l, all) ==> (ClassBefore(k, a, b) <==> ClassBefore(l, a, b))
  }

  /** The order of the classes does not matter if and only if no two of them clash. */
  lemma OrderMattersOnClash(all: set<TaskClass>)
    ensures SameInAllOrders(all) <==> forall a, b :: a in all && b in all ==> !Clash(a, b)
  {
    if a, b :| a in all && b in all && Clash(a, b) {
      var k, l := BothOrders(all, a, b);
    } else {
      forall k, l, a, b | IsOrder(k, all) && IsOrder(l, all) ensures ClassBefore(k, a, b) <==> ClassBefore(l, a, b) {
        ClassBeforeOf(k, l, all, a, b);
      }
    }
  }

  lemma ClassBeforeOf(k: seq<TaskClass>, l: seq<TaskClass>, all: set<TaskClass>, a: TaskClass, b: TaskClass)
    requires IsOrder(k, all) && IsOrder(l, all) && (a in all && b in all ==> !Clash(a, b))
    ensures ClassBefore(k, a, b) <==> ClassBefore(l, a, b)
  {
    if a in all && b in all {
      ClassBeforeIff(k, a, b);
      ClassBeforeIff(l, a, b);
    }
  }

  /** Tasks of clashing classes, of which x does not run after y anyway. */
  ghost predicate Disputed(tasks: seq<Task>, info: Info, r: RunAfterTable, x: Task, y: Task) {
    x in tasks && y in tasks && Clash(info(x).cls, info(y).cls) && !Needs(r, x, y)
  }

  ghost predicate SameTables(tasks: seq<Task>, info: Info, r: RunAfterTable) {
    forall s, t :: MayYield(tasks, info, r, s) && MayYield(tasks, info, r, t) ==> SameNeeds(s, t)
  }

  /** Some order of the dictionary makes s of r. */
  ghost predicate MayYield(tasks: seq<Task>, info: Info, r: RunAfterTable, s: RunAfterTable) {
    exists keys :: OrderOf(keys, tasks, info) && Constrained(tasks, info, r, keys, s)
  }

  ghost predicate SameNeeds(s: RunAfterTable, t: RunAfterTable) {
    forall x, y :: Needs(s, x, y) <==> Needs(t, x, y)
  }

  lemma SomeTable(tasks: seq<Task>, info: Info, r: RunAfterTable, keys: seq<TaskClass>) returns (s: RunAfterTable)
    ensures Constrained(tasks, info, r, keys, s)
  {
    s := map x | x in r.Keys + Items(tasks) ::
      After(r, x) + set y | y in tasks && x in tasks && ClassBefore(keys, info(y).cls, info(x).cls);
    hide ClassBefore;
    forall x, y ensures Needs(s, x, y) <==> NeedsAfter(tasks, info, r, keys, x, y) {}
  }

  /** The table of prerequisites does not depend on the order of the dictionary if and only if all tasks of
      clashing classes run after each other already. */
  lemma TableMattersOnClash(tasks: seq<Task>, info: Info, r: RunAfterTable)
    ensures SameTables(tasks, info, r) <==> forall x, y :: !Disputed(tasks, info, r, x, y)
  {
    if x, y :| Disputed(tasks, info, r, x, y) {
      var k, l := BothOrders(ClassesOf(tasks, info), info(x).cls, info(y).cls);
      var s := SomeTable(tasks, info, r, k);
      var t := SomeTable(tasks, info, r, l);
      assert NeedsAfter(tasks, info, r, l, x, y) && !NeedsAfter(tasks, info, r, k, x, y);
      assert Needs(t, x, y) && !Needs(s, x, y);
      assert MayYield(tasks, info, r, s) && MayYield(tasks, info, r, t);
    } else {
      forall s, t | MayYield(tasks, info, r, s) && MayYield(tasks, info, r, t) ensures SameNeeds(s, t) {
        var k :| OrderOf(k, tasks, info) && Constrained(tasks, info, r, k, s);
        var l :| OrderOf(l, tasks, info) && Constrained(tasks, info, r, l, t);
        forall x, y ensures Needs(s, x, y) <==> Needs(t, x, y) {
          assert !Disputed(tasks, info, r, x, y);
          UndisputedSame(tasks, info, r, k, l, x, y);
          assert Needs(s, x, y) <==> NeedsAfter(tasks, info, r, k, x, y);
        }
      }
    }
  }

  lemma UndisputedSame(tasks: seq<Task>, info: Info, r: RunAfterTable, k: seq<TaskClass>, l: seq<TaskClass>,
                       x: Task, y: Task)
    requires OrderOf(k, tasks, info) && OrderOf(l, tasks, info) && !Disputed(tasks, info, r, x, y)
    ensures NeedsAfter(tasks, info, r, k, x, y) <==> NeedsAfter(tasks, info, r, l, x, y)
  {
    if x in tasks && y in tasks && !Needs(r, x, y) {
      ClassBeforeOf(k, l, ClassesOf(tasks, info), info(y).cls, info(x).cls);
    }
  }

  const BISON: TaskClass := TaskClass("bison", [], [], [".y"], [".c"], 3)
  const C: TaskClass := TaskClass("c", [], [], [".c"], [".o"], 4)
  const LINK: TaskClass := TaskClass("cprogram", [], [], [".o"], [], 5)
  const INSTALL: TaskClass := TaskClass("inst", [], ["cprogram"], [], [], 6)
  const CONFIG: TaskClass := TaskClass("config_h", ["c"], [], [], [], 7)

  /** The parser generator runs before the compiler, which takes what it makes; an installation that names
      the linker in `after` runs after it; and what names the compiler in `before` runs before it. */
  lemma Directions(info: Info, s: RunAfterTable)
    requires info(1).cls == BISON && info(2).cls == C && info(3).cls == LINK && info(4).cls == INSTALL
    requires info(5).cls == CONFIG && MayYield([1, 2, 3, 4, 5], info, map[], s)
    ensures Needs(s, 2, 1) && !Needs(s, 1, 2)
    ensures Needs(s, 4, 3) && !Needs(s, 3, 4)
    ensures Needs(s, 2, 5) && !Needs(s, 5, 2)
  {
    var tasks := [1, 2, 3, 4, 5];
    assert forall x: Task :: 1 <= x <= 5 ==> x in tasks;
    assert ".c" in BISON.extOut && ".c" in C.extIn;
    assert !Claims(C, BISON) && Claims(BISON, C) && !Claims(C, CONFIG) && Claims(CONFIG, C);
    assert !Claims(INSTALL, LINK) && Claims(LINK, INSTALL);
    var keys :| OrderOf(keys, tasks, info) && Constrained(tasks, info, map[], keys, s);
    UnclashedByClaims(tasks, info, map[], keys, s);
    DirectionOf(tasks, info, s, 2, 1);
    DirectionOf(tasks, info, s, 4, 3);
    DirectionOf(tasks, info, s, 2, 5);
  }

  lemma DirectionOf(tasks: seq<Task>, info: Info, s: RunAfterTable, x: Task, y: Task)
    requires ByClaims(tasks, info, map[], s) && x in tasks && y in tasks && info(x).cls != info(y).cls
    requires Claims(info(y).cls, info(x).cls) && !Claims(info(x).cls, info(y).cls)
    requires exists keys :: OrderOf(keys, tasks, info) && Constrained(tasks, info, map[], keys, s)
    ensures Needs(s, x, y) && !Needs(s, y, x)
  {
    var keys :| OrderOf(keys, tasks, info) && Constrained(tasks, info, map[], keys, s);
    hide Claims;
    ClassBeforeIff(keys, info(x).cls, info(y).cls);
    assert Needs(s, y, x) <==> NeedsAfter(tasks, info, map[], keys, y, x);
  }

  const EGG: TaskClass := TaskClass("egg", ["hen"], [], [], [], 1)
  const HEN: TaskClass := TaskClass("hen", ["egg"], [], [], [], 2)

  /** Two tasks of such classes: what runs after what is the other way round in the other order. */
  lemma EitherWay(info: Info)
    requires info(1).cls == EGG && info(2).cls == HEN
    ensures OrderOf([EGG, HEN], [1, 2], info) && OrderOf([HEN, EGG], [1, 2], info)
    ensures NeedsAfter([1, 2], info, map[], [EGG, HEN], 2, 1) && !NeedsAfter([1, 2], info, map[], [EGG, HEN], 1, 2)
    ensures NeedsAfter([1, 2], info, map[], [HEN, EGG], 1, 2) && !NeedsAfter([1, 2], info, map[], [HEN, EGG], 2, 1)
  {
    assert "hen" in EGG.before && "egg" in HEN.before;
    assert 1 in [1, 2] && 2 in [1, 2];
    assert [EGG, HEN] + [] == [EGG, HEN] && [HEN, EGG] + [] == [HEN, EGG];
    FirstWins(EGG, HEN, []);
    FirstWins(HEN, EGG, []);
  }

  // ---- The groups ----

  function NonEmpty(groups: seq<seq<Task>>): seq<seq<Task>> {
    if groups == [] then []
    else NonEmpty(groups[..|groups| - 1]) + if groups[|groups| - 1] == [] then [] else [groups[|groups| - 1]]
  }

  /** y comes before x: they are in one group, and y writes what x reads or is of a class before x's. */
  ghost predicate Before(groups: seq<seq<Task>>, info: Info, orders: seq<seq<TaskClass>>, y: Task, x: Task)
    requires |orders| == |groups|
  {
    exists i :: 0 <= i < |groups| && InGroupBefore(groups[i], info, orders[i], y, x)
  }

  ghost predicate InGroupBefore(tasks: seq<Task>, info: Info, keys: seq<TaskClass>, y: Task, x: Task) {
    x in tasks && y in tasks && (Feeds(info, y, x) || ClassBefore(keys, info(y).cls, info(x).cls))
  }

  /** For every group an order of its classes. */
  ghost predicate Orders(groups: seq<seq<Task>>, info: Info, orders: seq<seq<TaskClass>>) {
    |orders| == |groups| && forall i :: 0 <= i < |groups| ==> OrderOf(orders[i], groups[i], info)
  }

  lemma OneMoreGroup(groups: seq<seq<Task>>, info: Info, orders: seq<seq<TaskClass>>, tasks: seq<Task>,
                     keys: seq<TaskClass>, y: Task, x: Task)
    requires |orders| == |groups|
    ensures Before(groups + [tasks], info, orders + [keys], y, x) <==>
            Before(groups, info, orders, y, x) || InGroupBefore(tasks, info, keys, y, x)
  {
    var all, allKeys := groups + [tasks], orders + [keys];
    if Before(groups, info, orders, y, x) {
      var i :| 0 <= i < |groups| && InGroupBefore(groups[i], info, orders[i], y, x);
      assert InGroupBefore(all[i], info, allKeys[i], y, x);
    }
    if InGroupBefore(tasks, info, keys, y, x) {
      assert InGroupBefore(all[|groups|], info, allKeys[|groups|], y, x);
    }
  }

  /** `get_build_iterator`: the groups that have tasks, in turn, each with its constraints. */
  method BuildIterator(groups: seq<seq<Task>>, info: Info)
    returns (yielded: seq<seq<Task>>, r: RunAfterTable, orders: seq<seq<TaskClass>>)
    ensures yielded == NonEmpty(groups) && |orders| == |groups|
    ensures Orders(groups, info, orders)
    ensures forall x, y :: Needs(r, x, y) <==> Before(groups, info, orders, y, x)
  {
    yielded, r, orders := [], map[], [];
    assert groups[..0] == [];
    for cur := 0 to |groups|
      invariant yielded == NonEmpty(groups[..cur]) && |orders| == cur
      invariant Orders(groups[..cur], info, orders)
      invariant forall x, y :: Needs(r, x, y) <==> Before(groups[..cur], info, orders, y, x)
    {
      var tasks := groups[cur];
      hide Feeds, ClassBefore, Before, Needs, OrderOf;
      var keys;
      r := SetFileConstraints(tasks, info, r);
      r, keys := SetPrecedenceConstraints(tasks, info, r);
      assert groups[..cur + 1] == groups[..cur] + [tasks];
      forall x, y ensures Needs(r, x, y) <==> Before(groups[..cur + 1], info, orders + [keys], y, x) {
        OneMoreGroup(groups[..cur], info, orders, tasks, keys, y, x);
      }
      orders := orders + [keys];
      assert groups[..cur + 1][..cur] == groups[..cur];
      if tasks != [] {
        yielded := yielded + [tasks];
      }
    }
    assert groups[..|groups|] == groups;
  }

  // ---- When the orders of the dictionaries matter for the build ----

  /** x and y are in one group and of clashing classes, and x reads nothing that y writes. */
  ghost predicate DisputedIn(tasks: seq<Task>, info: Info, x: Task, y: Task) {
    x in tasks && y in tasks && Clash(info(x).cls, info(y).cls) && !Feeds(info, y, x)
  }

  ghost predicate SameBuild(groups: seq<seq<Task>>, info: Info) {
    forall k, l, x, y :: Orders(groups, info, k) && Orders(groups, info, l) ==>
      (Before(groups, info, k, y, x) <==> Before(groups, info, l, y, x))
  }

  lemma SettledOneWay(keys: seq<TaskClass>, a: TaskClass, b: TaskClass)
    requires Clash(a, b) && a in keys && b in keys
    ensures ClassBefore(keys, a, b) || ClassBefore(keys, b, a)
  {
    var i :| 0 <= i < |keys| && keys[i] == a;
    var j :| 0 <= j < |keys| && keys[j] == b;
    assert PairBefore(keys, i, j) || PairBefore(keys, j, i);
  }

  /** Orders in which a never comes before b. */
  lemma {:induction false} OrdersAgainst(groups: seq<seq<Task>>, info: Info, a: TaskClass, b: TaskClass)
    returns (orders: seq<seq<TaskClass>>)
    requires Clash(a, b)
    ensures Orders(groups, info, orders) && forall i :: 0 <= i < |orders| ==> !ClassBefore(orders[i], a, b)
  {
    hide ClassBefore, Clash;
    if groups == [] {
      orders := [];
    } else {
      var front, tasks := groups[..|groups| - 1], groups[|groups| - 1];
      orders := OrdersAgainst(front, info, a, b);
      var keys := OrderAgainst(tasks, info, a, b);
      orders := orders + [keys];
    }
  }

  lemma OrderAgainst(tasks: seq<Task>, info: Info, a: TaskClass, b: TaskClass) returns (keys: seq<TaskClass>)
    requires Clash(a, b)
    ensures OrderOf(keys, tasks, info) && !ClassBefore(keys, a, b)
  {
    var all := ClassesOf(tasks, info);
    if a in all && b in all {
      var l;
      l, keys := BothOrders(all, a, b);
    } else {
      keys := SomeOrder(all);
    }
  }

  /** The prerequisites of a build do not depend on the orders of the dictionaries if and only if, in every
      group, tasks of clashing classes write what the others read. */
  lemma BuildMattersOnClash(groups: seq<seq<Task>>, info: Info)
    ensures SameBuild(groups, info) <==>
            forall i, x, y :: 0 <= i < |groups| ==> !DisputedIn(groups[i], info, x, y)
  {
    if i, x, y :| 0 <= i < |groups| && DisputedIn(groups[i], info, x, y) {
      ClashedBuild(groups, info, i, x, y);
    } else {
      forall k, l, x, y | Orders(groups, info, k) && Orders(groups, info, l)
        ensures Before(groups, info, k, y, x) <==> Before(groups, info, l, y, x)
      {
        forall i | 0 <= i < |groups|
          ensures InGroupBefore(groups[i], info, k[i], y, x) <==> InGroupBefore(groups[i], info, l[i], y, x)
        {
          assert !DisputedIn(groups[i], info, x, y);
          SettledGroup(groups[i], info, k[i], l[i], x, y);
        }
      }
    }
  }

  lemma SettledGroup(tasks: seq<Task>, info: Info, k: seq<TaskClass>, l: seq<TaskClass>, x: Task, y: Task)
    requires OrderOf(k, tasks, info) && OrderOf(l, tasks, info) && !DisputedIn(tasks, info, x, y)
    ensures InGroupBefore(tasks, info, k, y, x) <==> InGroupBefore(tasks, info, l, y, x)
  {
    if x in tasks && y in tasks && !Feeds(info, y, x) {
      ClassBeforeOf(k, l, ClassesOf(tasks, info), info(y).cls, info(x).cls);
    }
  }

  lemma ClashedBuild(groups: seq<seq<Task>>, info: Info, i: nat, x: Task, y: Task)
    requires i < |groups| && DisputedIn(groups[i], info, x, y)
    ensures !SameBuild(groups, info)
  {
    var a, b := info(y).cls, info(x).cls;
    var k := OrdersAgainst(groups, info, a, b);
    var l := OrdersAgainst(groups, info, b, a);
    assert OrderOf(l[i], groups[i], info);
    SettledOneWay(l[i], a, b);
    hide ClassBefore, Feeds;
    assert InGroupBefore(groups[i], info, l[i], y, x);
    assert Before(groups, info, l, y, x);
    assert !Before(groups, info, k, y, x);
  }

  // ---- What the scheduler makes of it ----

  ghost function DepEdges(c: Config): Edges {
    set x, d | x in c.deps && d in c.deps[x] :: (x, d)
  }

  /** The scheduler's deadlock error has a cause: prerequisites that form a circle. */
  lemma DeadlockHasCircle(c: Config, s: State)
    requires Unique(c) && Closed(c) && Reachable(c, s) && s.pc == Deadlocked
    ensures Cyclic(DepEdges(c))
  {
    DeadlockIsReal(c, s, 0);
    ReachableInv(c, s);
    var K := set x | x in s.frozen;
    assert s.frozen[0] in K;
    forall x | x in K ensures HasAfter(DepEdges(c), K, x) {
      DeadlockIsCircular(c, s, x);
      var d :| d in s.frozen && d in RunAfter(s, x);
      assert d in Deps(c, x);
      assert (x, d) in DepEdges(c);
    }
    LoopAhead(DepEdges(c), K);
  }

  lemma {:induction false} NonEmptyHas(groups: seq<seq<Task>>, tasks: seq<Task>)
    ensures tasks in NonEmpty(groups) <==> tasks in groups && tasks != []
  {
    if groups != [] {
      var front, last := groups[..|groups| - 1], groups[|groups| - 1];
      NonEmptyHas(front, tasks);
      assert groups == front + [last];
    }
  }

  /** With the constraints of the groups alone the scheduler gives up only if they form a circle. */
  lemma BuildDeadlocksOnCircles(c: Config, s: State, groups: seq<seq<Task>>, info: Info, orders: seq<seq<TaskClass>>)
    requires |orders| == |groups| && c.groups == NonEmpty(groups) && c.more == map[]
    requires forall x, y :: Needs(c.deps, x, y) <==> Before(groups, info, orders, y, x)
    requires Unique(c) && Reachable(c, s) && s.pc == Deadlocked
    ensures Cyclic(DepEdges(c))
  {
    forall i, x, d | 0 <= i < |c.groups| && x in c.groups[i] && d in Deps(c, x) ensures InGroups(c, i + 1, d) {
      assert Needs(c.deps, x, d);
      var k :| 0 <= k < |groups| && InGroupBefore(groups[k], info, orders[k], d, x);
      var tasks := groups[k];
      NonEmptyHas(groups, tasks);
      assert tasks in c.groups;
      var j :| 0 <= j < |c.groups| && c.groups[j] == tasks;
      assert i == j;
    }
    DeadlockHasCircle(c, s);
  }
}
