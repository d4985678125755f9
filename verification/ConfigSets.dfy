/**
 Environments that fall back on a parent. A variable holds a string or a list, and lists are objects
 that are changed in place.
 */
module ConfigSets {
  import opened Basics

  /** A list object. */
  class Cell {
    var items: seq<string>

    constructor (items: seq<string>)
      ensures this.items == items
    {
      this.items := items;
    }
  }

  datatype Value = Str(s: string) | List(cell: Cell)

  /** What a value looks like to the reader. */
  datatype Content = Text(s: string) | Items(items: seq<string>)

  /** The variables, and the tables that `stash` has put aside; those are under a key of their own. */
  datatype Table = Table(vars: map<string, Value>, undo: Option<seq<Table>>)

  const EMPTY: Table := Table(map[], None)

  ghost function Cells(t: Table): set<Cell> {
    set k | k in t.vars && t.vars[k].List? :: t.vars[k].cell
  }

  ghost predicate OwnCells(t: Table) {
    forall j, k ::
      j in t.vars && k in t.vars && t.vars[j].List? && t.vars[k].List? && t.vars[j].cell == t.vars[k].cell ==> j == k
  }

  function Show(v: Value): Content
    reads if v.List? then {v.cell} else {}
  {
    match v
    case Str(s) => Text(s)
    case List(cell) => Items(cell.items)
  }

  function AsList(c: Content): (r: seq<string>)
    ensures c.Text? ==> r == [c.s]
    ensures c.Items? ==> r == c.items
  {
    match c
    case Text(s) => [s]
    case Items(items) => items
  }

  function AddMissing(items: seq<string>, more: seq<string>): seq<string>
    decreases |more|
  {
    if more == [] then items
    else AddMissing(if more[0] in items then items else items + [more[0]], more[1..])
  }

  ghost function ChainCells(chain: seq<ConfigSet>): set<Cell>
    reads chain
  {
    if chain == [] then {} else Cells(chain[0].table) + ChainCells(chain[1..])
  }

  /** The first table of the chain that has the variable decides; an unknown one reads as an empty list. */
  ghost function Look(chain: seq<ConfigSet>, k: string): Content
    reads chain, ChainCells(chain)
  {
    if chain == [] then Items([])
    else if k in chain[0].table.vars then
      assert chain[0].table.vars[k].List? ==> chain[0].table.vars[k].cell in Cells(chain[0].table);
      Show(chain[0].table.vars[k])
    else Look(chain[1..], k)
  }

  /** What reading the put-aside tables gives. */
  function LookUndo(chain: seq<ConfigSet>): seq<Table>
    reads chain
  {
    if chain == [] then []
    else if chain[0].table.undo.Some? then chain[0].table.undo.value
    else LookUndo(chain[1..])
  }

  ghost predicate Contains(chain: seq<ConfigSet>, k: string)
    reads chain
  {
    chain != [] && (k in chain[0].table.vars || Contains(chain[1..], k))
  }

  /** The chain of parents is as it was derived, and no list is held twice in it. */
  ghost predicate ValidChain(chain: seq<ConfigSet>)
    reads chain
  {
    chain != [] ==>
      && chain[0] !in chain[1..] && chain[0].chain == chain
      && chain[0].parent == (if |chain| > 1 then chain[1] else null)
      && OwnCells(chain[0].table) && Cells(chain[0].table) !! ChainCells(chain[1..])
      && ValidChain(chain[1..])
  }

  class ConfigSet {
    var table: Table
    var parent: ConfigSet?
    ghost var chain: seq<ConfigSet>

    ghost predicate Valid()
      reads this, chain
    {
      chain != [] && chain[0] == this && ValidChain(chain)
    }

    constructor ()
      ensures Valid() && table == EMPTY && chain == [this]
    {
      table, parent := EMPTY, null;
      chain := [this];
    }

    /** `derive`: a new environment that falls back on this one. */
    method Derive() returns (env: ConfigSet)
      requires Valid()
      ensures fresh(env) && env.Valid() && env.table == EMPTY && env.chain == [env] + chain
      ensures forall k :: Look(env.chain, k) == Look(chain, k)
    {
      env := new ConfigSet();
      env.parent := this;
      env.chain := [env] + chain;
      assert env.chain[1..] == chain;
    }

    /** Reading a variable goes up the chain. */
    method GetItem(k: string) returns (c: Content)
      requires Valid()
      ensures c == Look(chain, k)
    {
      var cur: ConfigSet? := this;
      ghost var rest := chain;
      while cur != null
        invariant ValidChain(rest) && cur == (if rest != [] then rest[0] else null)
        invariant Look(chain, k) == Look(rest, k)
        decreases |rest|
      {
        if k in cur.table.vars {
          return Show(cur.table.vars[k]);
        }
        cur := cur.parent;
        rest := rest[1..];
      }
      return Items([]);
    }

    /** One dictionary with everything that can be read: the tables of the chain, oldest first. */
    method GetMergedDict() returns (merged: map<string, Value>)
      requires Valid()
      ensures forall k :: k in merged <==> Contains(chain, k)
      ensures forall k :: k in merged && merged[k].List? ==> merged[k].cell in ChainCells(chain)
      ensures forall k :: k in merged ==> Show(merged[k]) == Look(chain, k)
    {
      var tableList: seq<map<string, Value>> := [];
      var env: ConfigSet? := this;
      ghost var rest := chain;
      while env != null
        invariant ValidChain(rest) && env == (if rest != [] then rest[0] else null)
        invariant Tables(chain) == Tables(rest) + tableList
        decreases |rest|
      {
        tableList := [env.table.vars] + tableList;
        env := env.parent;
        rest := rest[1..];
      }
      merged := map[];
      for i := 0 to |tableList|
        invariant merged == MergeAll(tableList[..i])
      {
        assert tableList[..i + 1][..i] == tableList[..i];
        merged := merged + tableList[i];
      }
      assert tableList[..|tableList|] == tableList;
      assert Tables(chain) == tableList;
      MergedIsLook(chain);
    }

    twostate predicate Kept(cells: set<Cell>)
      reads cells
    {
      forall c :: c in cells ==> c.items == old(c.items)
    }

    /** A value goes into the own table; a list must not be held elsewhere in the chain. */
    method Store(key: string, v: Value)
      requires Valid()
      requires v.List? ==>
               v.cell !in Inherited() && (v.cell !in Cells(table) || (key in table.vars && table.vars[key] == v))
      modifies this`table
      ensures Valid() && Replaced(old(table), table, key, v) && Inherited() == old(Inherited())
      ensures Look(chain, key) == Show(v) && (v.List? ==> v.cell in Cells(table))
      ensures forall c :: c in Cells(table) ==> c in old(Cells(table)) || (v.List? && c == v.cell)
      ensures forall k :: k != key ==> Look(chain, k) == old(Look(chain, k))
    {
      ghost var before := table;
      table := table.(vars := table.vars[key := v]);
      PutValue(before, table, key, v);
      assert ChainCells(chain[1..]) == old(Inherited()) && ValidChain(chain[1..]);
      forall k | k != key ensures Look(chain, k) == old(Look(chain, k)) {
        if k !in table.vars { assert Look(chain[1..], k) == old(Look(chain[1..], k)); }
      }
    }

    /** The own list, or a copy of what is read now. */
    method FindList(key: string) returns (cell: Cell)
      requires Valid()
      ensures fresh(cell) || (key in table.vars && table.vars[key] == List(cell))
      ensures cell.items == AsList(Look(chain, key)) && cell !in Inherited()
      ensures cell !in Cells(table) || (key in table.vars && table.vars[key] == List(cell))
    {
      OldCells(chain);
      ghost var cells, inherited := Cells(table), Inherited();
      assert cells + inherited <= ChainCells(chain);
      if key in table.vars && table.vars[key].List? {
        cell := table.vars[key].cell;
        assert cell in cells && cell !in inherited;
        return;
      }
      if key in table.vars {
        cell := new Cell([table.vars[key].s]);
      } else if parent != null {
        ParentChain(chain);
        var value := parent.GetItem(key);
        cell := new Cell(AsList(value));
      } else {
        cell := new Cell([]);
      }
      assert cell !in cells && cell !in inherited && Inherited() == inherited;
    }

    /** A list that may be changed in place. */
    method ListForModification(key: string) returns (cell: Cell)
      requires Valid()
      modifies this`table
      ensures Valid() && Replaced(old(table), table, key, List(cell)) && Inherited() == old(Inherited())
      ensures cell in Cells(table) && (cell in old(Cells(table)) || fresh(cell)) && cell !in Inherited()
      ensures forall c :: c in Cells(table) ==> c in old(Cells(table)) || c == cell
      ensures cell.items == AsList(old(Look(chain, key)))
      ensures forall k :: k != key ==> Look(chain, k) == old(Look(chain, k))
    {
      OldCells(chain);
      cell := FindList(key);
      if key in table.vars && table.vars[key] == List(cell) {
        assert table.vars[key].cell in Cells(table);
      }
      Store(key, List(cell));
    }

    // What an edit of one variable does: that variable reads as the new value, no other reads
    // differently, and no table or list of an ancestor has changed.
    twostate predicate Edited(key: string, now: Content, inherited: set<Cell>)
      reads this, chain, ChainCells(chain), inherited
    {
      && chain == old(chain) && chain != [] && table.undo == old(table.undo)
      && Look(chain, key) == now
      && (forall k :: k != key ==> Look(chain, k) == old(Look(chain, k)))
      && (forall a :: a in chain[1..] ==> a.table == old(a.table))
      && Kept(inherited)
      && (forall c :: c in Cells(table) && c !in old(Cells(table)) ==> fresh(c))
    }

    ghost function Inherited(): set<Cell>
      reads this, chain
    {
      if chain == [] then {} else ChainCells(chain[1..])
    }

    /** The list of one variable is changed in place. */
    method ChangeList(key: string, cell: Cell, items: seq<string>)
      requires Valid() && key in table.vars && table.vars[key] == List(cell)
      modifies cell
      ensures Valid() && Look(chain, key) == Items(items)
      ensures forall k :: k != key ==> Look(chain, k) == old(Look(chain, k))
      ensures Inherited() == old(Inherited()) && Kept(old(Inherited()))
    {
      OldCells(chain[1..]);
      assert table.vars[key].cell in Cells(table);
      assert cell !in ChainCells(chain[1..]);
      cell.items := items;
      forall k | k != key ensures Look(chain, k) == old(Look(chain, k)) {
        if k in table.vars {
          if table.vars[k].List? { assert table.vars[k].cell != table.vars[key].cell; }
        } else {
          assert Look(chain[1..], k) == old(Look(chain[1..], k));
        }
      }
    }

    method AppendValue(key: string, val: Content)
      requires Valid()
      modifies this`table, Cells(table)
      ensures Valid() && Edited(key, Items(AsList(old(Look(chain, key))) + AsList(val)), old(Inherited()))
    {
      OldCells(chain[1..]);
      var cell := ListForModification(key);
      ChangeList(key, cell, cell.items + AsList(val));
    }

    method AddAll(key: string, cell: Cell, more: seq<string>)
      requires Valid() && key in table.vars && table.vars[key] == List(cell)
      modifies cell
      ensures Valid() && Look(chain, key) == Items(AddMissing(old(cell.items), more))
      ensures forall k :: k != key ==> Look(chain, k) == old(Look(chain, k))
      ensures Inherited() == old(Inherited()) && Kept(old(Inherited()))
    {
      OldCells(chain[1..]);
      for i := 0 to |more|
        modifies cell
        invariant Valid() && AddMissing(cell.items, more[i..]) == AddMissing(old(cell.items), more)
        invariant forall k :: k != key ==> Look(chain, k) == old(Look(chain, k))
        invariant Inherited() == old(Inherited()) && Kept(old(Inherited()))
      {
        assert more[i..][0] == more[i] && more[i..][1..] == more[i + 1..];
        if more[i] !in cell.items {
          ChangeList(key, cell, cell.items + [more[i]]);
        }
      }
    }

    /** Only the values that are not there yet. */
    method AppendUnique(key: string, val: Content)
      requires Valid()
      modifies this`table, Cells(table)
      ensures Valid() && Edited(key, Items(AddMissing(AsList(old(Look(chain, key))), AsList(val))), old(Inherited()))
    {
      OldCells(chain[1..]);
      var cell := ListForModification(key);
      AddAll(key, cell, AsList(val));
    }

    /** A new list, of the value and then what is read now. */
    method PrependValue(key: string, val: Content)
      requires Valid()
      modifies this`table, Cells(table)
      ensures Valid() && Edited(key, Items(AsList(val) + AsList(old(Look(chain, key)))), old(Inherited()))
    {
      OldCells(chain[1..]);
      var cell := ListForModification(key);
      SetItem(key, Items(AsList(val) + cell.items));
    }

    method SetItem(key: string, val: Content)
      requires Valid()
      modifies this`table
      ensures Valid() && Edited(key, val, old(Inherited()))
    {
      OldCells(chain);
      assert forall c :: c in Cells(table) + Inherited() ==> c in ChainCells(chain);
      ghost var cells := ChainCells(chain);
      var v: Value;
      match val {
        case Text(s) => v := Str(s);
        case Items(items) =>
          var cell := new Cell(items);
          assert cell !in cells && ChainCells(chain) == cells;
          v := List(cell);
      }
      Store(key, v);
    }

    /** Deleting a variable sets it to an empty list. */
    method DelItem(key: string)
      requires Valid()
      modifies this`table
      ensures Valid() && Edited(key, Items([]), old(Inherited()))
    {
      SetItem(key, Items([]));
    }

    method GetUndo() returns (undo: seq<Table>)
      requires Valid()
      ensures undo == LookUndo(chain)
    {
      var cur: ConfigSet? := this;
      ghost var rest := chain;
      while cur != null
        invariant ValidChain(rest) && cur == (if rest != [] then rest[0] else null)
        invariant LookUndo(chain) == LookUndo(rest)
        decreases |rest|
      {
        if cur.table.undo.Some? {
          return cur.table.undo.value;
        }
        cur := cur.parent;
        rest := rest[1..];
      }
      return [];
    }

    /** A copy of everything that can be read. */
    method Gather() returns (tbl: map<string, Value>, undo: seq<Table>)
      requires Valid()
      ensures (forall k :: k in tbl <==> Contains(chain, k)) && undo == LookUndo(chain)
      ensures forall k :: old(Look(chain, k)) == if k in tbl then Show(tbl[k]) else Items([])
      ensures OwnCells(Table(tbl, Some(undo))) && forall c :: c in Cells(Table(tbl, Some(undo))) ==> fresh(c)
    {
      OldCells(chain);
      LookAbsent(chain);
      var merged := GetMergedDict();
      undo := GetUndo();
      tbl := DeepCopy(merged);
    }

    /** `detach`: everything that can be read becomes the own table, and the parent is dropped. */
    method Detach()
      requires Valid()
      modifies this
      ensures Valid() && parent == null && (old(parent) == null ==> table == old(table) && chain == old(chain))
      ensures forall k :: Look(chain, k) == old(Look(chain, k))
      ensures forall k :: Contains(chain, k) == old(Contains(chain, k))
      ensures LookUndo(chain) == old(LookUndo(chain))
      ensures old(parent) != null ==> forall c :: c in Cells(table) ==> fresh(c)
    {
      if parent != null {
        var tbl, undo := Gather();
        table := Table(tbl, Some(undo));
        parent := null;
        chain := [this];
        Alone(this);
        hide Look, Contains, ChainCells, LookUndo, ValidChain;
      } else {
        assert chain == [this];
      }
    }

    /** `stash`: go on with a copy of the table, and put the table aside. */
    method Stash()
      requires Valid()
      modifies this`table
      ensures Valid() && table.undo == Some(old(LookUndo(chain)) + [old(table)])
      ensures forall k :: Look(chain, k) == old(Look(chain, k))
      ensures forall c :: c in Cells(table) ==> fresh(c)
      ensures Inherited() == old(Inherited())
    {
      OldCells(chain);
      ghost var cells, inherited := ChainCells(chain), Inherited();
      assert inherited <= cells;
      var undo := GetUndo();
      var copy := DeepCopy(table.vars);
      table := Table(copy, Some(undo + [table]));
      assert ChainCells(chain[1..]) == inherited && ValidChain(chain[1..]);
      forall k ensures Look(chain, k) == old(Look(chain, k)) {
        if k !in table.vars { assert Look(chain[1..], k) == old(Look(chain[1..], k)); }
      }
    }

    /** `revert`: go back to the table that was put aside last. */
    method Revert()
      requires Valid() && table.undo.Some? && table.undo.value != []
      requires var last := table.undo.value[|table.undo.value| - 1]; OwnCells(last) && Cells(last) !! Inherited()
      modifies this`table
      ensures Valid() && table == old(table.undo.value[|table.undo.value| - 1])
      ensures Inherited() == old(Inherited())
    {
      table := table.undo.value[|table.undo.value| - 1];
      assert ChainCells(chain[1..]) == old(Inherited()) && ValidChain(chain[1..]);
    }

    method Perform(e: Edit)
      requires Valid()
      modifies this`table, Cells(table)
      ensures Valid() && table.undo == old(table.undo)
      ensures Inherited() == old(Inherited()) && Kept(old(Inherited()))
      ensures forall c :: c in Cells(table) ==> c in old(Cells(table)) || fresh(c)
      decreases e
    {
      match e {
        case Append(k, v) => AppendValue(k, v);
        case Prepend(k, v) => PrependValue(k, v);
        case Unique(k, v) => AppendUnique(k, v);
        case Set(k, v) => SetItem(k, v);
        case Del(k) => DelItem(k);
        case Block(edits) => StashEditRevert(edits);
      }
    }

    method PerformAll(edits: Edits)
      requires Valid()
      modifies this`table, Cells(table)
      ensures Valid() && table.undo == old(table.undo)
      ensures Inherited() == old(Inherited()) && Kept(old(Inherited()))
      ensures forall c :: c in Cells(table) ==> c in old(Cells(table)) || fresh(c)
      decreases edits, 0
    {
      OldCells(chain);
      if edits.Then? {
        Perform(edits.first);
        PerformAll(edits.rest);
      }
    }

    /** Whatever is edited between `stash` and `revert`, with stashes and reverts in between that match:
        the table is the one from before, and so are its lists. */
    method StashEditRevert(edits: Edits)
      requires Valid()
      modifies this`table
      ensures Valid() && table == old(table) && Kept(old(Cells(table)))
      ensures Inherited() == old(Inherited()) && Kept(old(Inherited()))
      ensures forall k :: Look(chain, k) == old(Look(chain, k))
      decreases edits, 1
    {
      OldCells(chain);
      assert Inherited() <= ChainCells(chain);
      Stash();
      PerformAll(edits);
      Revert();
    }
  }

  datatype Edit = Append(key: string, val: Content) | Prepend(key: string, val: Content)
                | Unique(key: string, val: Content)
                | Set(key: string, val: Content) | Del(key: string) | Block(edits: Edits)

  datatype Edits = Done | Then(first: Edit, rest: Edits)

  /** Every list is copied. */
  method DeepCopy(vars: map<string, Value>) returns (copy: map<string, Value>)
    ensures copy.Keys == vars.Keys && OwnCells(Table(copy, None))
    ensures forall k :: k in copy ==> Show(copy[k]) == Show(vars[k]) && (copy[k].List? ==> fresh(copy[k].cell))
  {
    copy := map[];
    var todo := vars.Keys;
    while todo != {}
      invariant todo <= vars.Keys && copy.Keys == vars.Keys - todo && OwnCells(Table(copy, None))
      invariant forall k :: k in copy ==> Show(copy[k]) == Show(vars[k]) && (copy[k].List? ==> fresh(copy[k].cell))
      decreases |todo|
    {
      var k :| k in todo;
      match vars[k] {
        case Str(s) => copy := copy[k := Str(s)];
        case List(cell) =>
          var twin := new Cell(cell.items);
          copy := copy[k := List(twin)];
      }
      todo := todo - {k};
    }
  }

  lemma Alone(env: ConfigSet)
    ensures forall k :: Contains([env], k) <==> k in env.table.vars
    ensures forall k :: Look([env], k) == if k in env.table.vars then Show(env.table.vars[k]) else Items([])
    ensures ChainCells([env][1..]) == {} && LookUndo([env]) == if env.table.undo.Some? then env.table.undo.value else []
    ensures OwnCells(env.table) && env.chain == [env] && env.parent == null ==> env.Valid()
  {
    assert [env][1..] == [];
  }

  lemma {:induction false} LookAbsent(chain: seq<ConfigSet>)
    ensures forall k :: !Contains(chain, k) ==> Look(chain, k) == Items([])
  {
    if chain != [] { LookAbsent(chain[1..]); }
  }

  lemma {:induction false} CellSomewhere(chain: seq<ConfigSet>, c: Cell) returns (i: nat, k: string)
    requires c in ChainCells(chain)
    ensures i < |chain| && k in chain[i].table.vars && chain[i].table.vars[k] == List(c)
  {
    if c in Cells(chain[0].table) {
      k :| k in chain[0].table.vars && chain[0].table.vars[k] == List(c);
      i := 0;
    } else {
      i, k := CellSomewhere(chain[1..], c);
      i := i + 1;
    }
  }

  /** A list that is created now is in no table yet. */
  lemma OldCells(chain: seq<ConfigSet>)
    ensures forall c :: c in ChainCells(chain) ==> allocated(c)
  {
    forall c | c in ChainCells(chain) ensures allocated(c) {
      var i, k := CellSomewhere(chain, c);
      assert allocated(chain[i].table);
    }
  }

  lemma ParentChain(chain: seq<ConfigSet>)
    requires ValidChain(chain) && |chain| > 1
    ensures chain[1].chain == chain[1..] && chain[0].parent == chain[1] && chain[1].Valid()
  {}

  ghost predicate Replaced(t: Table, t': Table, key: string, v: Value) {
    t'.undo == t.undo && t'.vars == t.vars[key := v]
  }

  lemma PutValue(t: Table, t': Table, key: string, v: Value)
    requires OwnCells(t) && Replaced(t, t', key, v)
    requires v.List? ==> v.cell !in Cells(t) || (key in t.vars && t.vars[key] == v)
    ensures OwnCells(t') && Cells(t') <= Cells(t) + (if v.List? then {v.cell} else {})
    ensures v.List? ==> v.cell in Cells(t')
  {
    forall k | k in t.vars && t.vars[k].List? ensures t.vars[k].cell in Cells(t) {}
    assert v.List? ==> t'.vars[key].cell in Cells(t');
  }

  // ---- Merging ----

  ghost function Tables(chain: seq<ConfigSet>): seq<map<string, Value>>
    reads chain
  {
    if chain == [] then [] else Tables(chain[1..]) + [chain[0].table.vars]
  }

  ghost function MergeAll(tables: seq<map<string, Value>>): map<string, Value> {
    if tables == [] then map[] else MergeAll(tables[..|tables| - 1]) + tables[|tables| - 1]
  }

  lemma {:induction false} MergedIsLook(chain: seq<ConfigSet>)
    ensures forall k :: k in MergeAll(Tables(chain)) <==> Contains(chain, k)
    ensures forall k :: k in MergeAll(Tables(chain)) && MergeAll(Tables(chain))[k].List? ==>
            MergeAll(Tables(chain))[k].cell in ChainCells(chain)
    ensures forall k :: k in MergeAll(Tables(chain)) ==> Show(MergeAll(Tables(chain))[k]) == Look(chain, k)
  {
    if chain != [] {
      MergedIsLook(chain[1..]);
      var ts := Tables(chain);
      assert ts[..|ts| - 1] == Tables(chain[1..]);
    }
  }
}
