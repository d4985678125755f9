/**
 The conditional directives of the include scanner: a stack of marks, one for each open #if, against
 the recursive meaning of nested groups.
 */
module Conditionals {
  import opened Basics

  datatype Mark = Undefined | Accepted | Ignored | Skipped

  type Defs = map<string, string>

  /** `Other` stands for #include, #import and #pragma. */
  datatype Directive = If(line: string) | Ifdef(line: string) | Ifndef(line: string)
                     | Elif(line: string) | Else | Endif
                     | Define(line: string) | Undef(line: string) | Other(line: string) {
    predicate Opens() {
      If? || Ifdef? || Ifndef?
    }

    predicate Continues() {
      Elif? || Else?
    }

    predicate Acts() {
      Define? || Undef? || Other?
    }
  }

  /** Evaluating an expression can fail; a line may or may not begin with an identifier. */
  datatype Oracle = Oracle(eval: (string, Defs) -> Option<bool>, macro: string -> Option<string>)

  datatype State = State(marks: seq<Mark>, defs: Defs, acted: seq<Directive>)

  predicate Live(marks: seq<Mark>) {
    Skipped !in marks && Ignored !in marks
  }

  // ---- What one directive does to the stack ----

  function Truth(b: bool): Mark {
    if b then Accepted else Ignored
  }

  function IsDefined(o: Oracle, line: string, defs: Defs): bool {
    o.macro(line).Some? && o.macro(line).value in defs
  }

  /** The value of an opening directive, if it has one. */
  function Value(o: Oracle, d: Directive, defs: Defs): Option<bool>
    requires d.Opens()
  {
    match d
    case If(line) => o.eval(line, defs)
    case Ifdef(line) => Some(IsDefined(o, line, defs))
    case Ifndef(line) => Some(!IsDefined(o, line, defs))
  }

  function Act(o: Oracle, d: Directive, defs: Defs): Defs
    requires d.Acts()
  {
    match d
    case Define(line) => if o.macro(line).Some? then defs[o.macro(line).value := line] else defs
    case Undef(line) => if o.macro(line).Some? then defs - {o.macro(line).value} else defs
    case Other(_) => defs
  }

  function SetTop(marks: seq<Mark>, m: Mark): seq<Mark>
    requires marks != []
  {
    marks[..|marks| - 1] + [m]
  }

  function OpenMark(o: Oracle, d: Directive, s: State): Mark
    requires d.Opens()
  {
    if !Live(s.marks) then Undefined
    else match Value(o, d, s.defs)
      case Some(b) => Truth(b)
      case None => Undefined
  }

  function NextMark(o: Oracle, d: Directive, m: Mark, defs: Defs): Mark
    requires d.Continues()
  {
    match m
    case Accepted => Skipped
    case Ignored => if d.Else? || o.eval(d.line, defs) == Some(true) then Accepted else Ignored
    case _ => m
  }

  function Step(o: Oracle, d: Directive, s: State): State {
    if d.Opens() then s.(marks := s.marks + [OpenMark(o, d, s)])
    else if d.Endif? then if s.marks == [] then s else s.(marks := s.marks[..|s.marks| - 1])
    else if d.Continues() then
      if s.marks == [] then s
      else s.(marks := SetTop(s.marks, NextMark(o, d, s.marks[|s.marks| - 1], s.defs)))
    else if Live(s.marks) then s.(defs := Act(o, d, s.defs), acted := s.acted + [d])
    else s
  }

  function Run(o: Oracle, ds: seq<Directive>, s: State): State
    decreases |ds|
  {
    if ds == [] then s else Run(o, ds[1..], Step(o, ds[0], s))
  }

  // ---- What the directives do ----

  /** Where every enclosing branch is taken. */
  ghost predicate Reached(s: State) {
    forall m :: m in s.marks ==> m == Accepted || m == Undefined
  }

  /** A definition gives the name its line, and no other name changes. */
  lemma DefineActs(o: Oracle, line: string, s: State)
    requires Reached(s)
    ensures var t := Run(o, [Define(line)], s);
            && t.marks == s.marks && t.acted == s.acted + [Define(line)]
            && (forall name :: o.macro(line) == Some(name) ==> name in t.defs && t.defs[name] == line)
            && forall name :: o.macro(line) != Some(name) ==>
                 (name in t.defs <==> name in s.defs) && (name in s.defs ==> t.defs[name] == s.defs[name])
  {
    RunOne(o, Define(line), s);
  }

  /** After `#undef` the name is not defined, and no other name changes. */
  lemma UndefActs(o: Oracle, line: string, s: State)
    requires Reached(s)
    ensures var t := Run(o, [Undef(line)], s);
            && t.marks == s.marks && t.acted == s.acted + [Undef(line)]
            && (forall name :: o.macro(line) == Some(name) ==> name !in t.defs)
            && forall name :: o.macro(line) != Some(name) ==>
                 (name in t.defs <==> name in s.defs) && (name in s.defs ==> t.defs[name] == s.defs[name])
  {
    RunOne(o, Undef(line), s);
  }

  lemma OtherActs(o: Oracle, line: string, s: State)
    requires Reached(s)
    ensures Run(o, [Other(line)], s) == s.(acted := s.acted + [Other(line)])
  {
    RunOne(o, Other(line), s);
  }

  /** What is between an opening directive and #endif. */
  lemma OneInGroup(o: Oracle, open: Directive, d: Directive, s: State)
    requires Reached(s) && open.Opens() && d.Acts()
    ensures var m := OpenMark(o, open, s);
            Run(o, [open, d, Endif], s) == if m == Accepted || m == Undefined then Run(o, [d], s) else s
  {
    var m := OpenMark(o, open, s);
    var s1 := s.(marks := s.marks + [m]);
    assert Live(s.marks);
    LiveTop(s.marks, m);
    assert [open, d, Endif] == [open] + [d, Endif] && [d, Endif] == [d] + [Endif];
    RunTwice(o, [open], [d, Endif], s);
    RunTwice(o, [d], [Endif], s1);
    RunOne(o, open, s);
    hide Run, Live, Reached, OpenMark;
    ClosesAfter(o, d, s, m);
  }

  lemma ClosesAfter(o: Oracle, d: Directive, s: State, m: Mark)
    requires d.Acts() && Live(s.marks) && (Live(s.marks + [m]) <==> m == Accepted || m == Undefined)
    ensures Run(o, [Endif], Run(o, [d], s.(marks := s.marks + [m])))
            == if m == Accepted || m == Undefined then Run(o, [d], s) else s
  {
    var s1 := s.(marks := s.marks + [m]);
    RunOne(o, d, s1);
    RunOne(o, d, s);
    RunOne(o, Endif, Step(o, d, s1));
    hide Run, Live;
    assert s1.marks[..|s1.marks| - 1] == s.marks;
  }

  /** #ifdef: the directive acts exactly if the name is defined. */
  lemma IfdefActs(o: Oracle, line: string, d: Directive, s: State)
    requires Reached(s) && d.Acts()
    ensures Run(o, [Ifdef(line), d, Endif], s)
            == if o.macro(line).Some? && o.macro(line).value in s.defs then Run(o, [d], s) else s
    ensures Run(o, [d], s).acted == s.acted + [d]
  {
    OneInGroup(o, Ifdef(line), d, s);
    RunOne(o, d, s);
  }

  /** #ifndef: exactly if it is not. */
  lemma IfndefActs(o: Oracle, line: string, d: Directive, s: State)
    requires Reached(s) && d.Acts()
    ensures Run(o, [Ifndef(line), d, Endif], s)
            == if o.macro(line).Some? && o.macro(line).value in s.defs then s else Run(o, [d], s)
    ensures Run(o, [d], s).acted == s.acted + [d]
  {
    OneInGroup(o, Ifndef(line), d, s);
    RunOne(o, d, s);
  }

  /** #if: unless the expression is false; also when it cannot be evaluated. */
  lemma IfActs(o: Oracle, line: string, d: Directive, s: State)
    requires Reached(s) && d.Acts()
    ensures Run(o, [If(line), d, Endif], s) == if o.eval(line, s.defs) == Some(false) then s else Run(o, [d], s)
    ensures Run(o, [d], s).acted == s.acted + [d]
  {
    OneInGroup(o, If(line), d, s);
    RunOne(o, d, s);
  }

  /** An include guard: the first time the name comes to be defined and the text acts, the second time it does
      not. */
  lemma GuardActsOnce(o: Oracle, line: string, name: string, text: string, s: State)
    requires Reached(s) && o.macro(line) == Some(name) && name !in s.defs
    ensures var guard := [Ifndef(line), Define(line), Endif];
            var t := Run(o, guard, s);
            && name in t.defs && Reached(t) && t.acted == s.acted + [Define(line)]
            && Run(o, [Ifndef(line), Other(text), Endif], s).acted == s.acted + [Other(text)]
            && Run(o, [Ifndef(line), Other(text), Endif], t) == t && Run(o, guard, t) == t
  {
    IfndefActs(o, line, Define(line), s);
    DefineActs(o, line, s);
    var t := Run(o, [Define(line)], s);
    IfndefActs(o, line, Define(line), t);
    IfndefActs(o, line, Other(text), s);
    IfndefActs(o, line, Other(text), t);
  }

  // ---- Nested groups ----

  datatype Parts = End | Then(head: Part, tail: Parts)

  datatype Part = Plain(d: Directive) | Group(open: Directive, body: Parts, rest: Branches)

  datatype Branches = NoMore | Also(at: Directive, body: Parts, more: Branches)

  predicate Nested(p: Parts) {
    match p
    case End => true
    case Then(Plain(d), tail) => d.Acts() && Nested(tail)
    case Then(Group(open, body, rest), tail) => open.Opens() && Nested(body) && NestedRest(rest) && Nested(tail)
  }

  predicate NestedRest(r: Branches) {
    match r
    case NoMore => true
    case Also(at, body, more) => at.Continues() && Nested(body) && NestedRest(more)
  }

  function Flat(p: Parts): seq<Directive> {
    match p
    case End => []
    case Then(Plain(d), tail) => [d] + Flat(tail)
    case Then(Group(open, body, rest), tail) => [open] + Flat(body) + FlatRest(rest) + [Endif] + Flat(tail)
  }

  function FlatRest(r: Branches): seq<Directive> {
    match r
    case NoMore => []
    case Also(at, body, more) => [at] + Flat(body) + FlatRest(more)
  }

  datatype Effect = Effect(defs: Defs, acted: seq<Directive>)

  /** All parts, in a place that is reached. */
  function Meaning(o: Oracle, p: Parts, e: Effect): Effect
    requires Nested(p)
  {
    match p
    case End => e
    case Then(Plain(d), tail) => Meaning(o, tail, Effect(Act(o, d, e.defs), e.acted + [d]))
    case Then(Group(open, body, rest), tail) =>
      Meaning(o, tail,
        match Value(o, open, e.defs)
        case Some(true) => Meaning(o, body, e)
        case Some(false) => FirstTrue(o, rest, e)
        case None => AllOf(o, rest, Meaning(o, body, e)))
  }

  /** The first branch that holds. */
  function FirstTrue(o: Oracle, r: Branches, e: Effect): Effect
    requires NestedRest(r)
  {
    match r
    case NoMore => e
    case Also(at, body, more) =>
      if at.Else? || o.eval(at.line, e.defs) == Some(true) then Meaning(o, body, e) else FirstTrue(o, more, e)
  }

  /** Every branch, when the #if itself could not be evaluated. */
  function AllOf(o: Oracle, r: Branches, e: Effect): Effect
    requires NestedRest(r)
  {
    match r
    case NoMore => e
    case Also(_, body, more) => AllOf(o, more, Meaning(o, body, e))
  }

  // ---- The stack computes the meaning ----

  lemma {:induction false} RunTwice(o: Oracle, a: seq<Directive>, b: seq<Directive>, s: State)
    ensures Run(o, a + b, s) == Run(o, b, Run(o, a, s))
    decreases |a|
  {
    if a == [] {
      assert a + b == b;
    } else {
      assert (a + b)[1..] == a[1..] + b;
      RunTwice(o, a[1..], b, Step(o, a[0], s));
    }
  }

  lemma RunOne(o: Oracle, d: Directive, s: State)
    ensures Run(o, [d], s) == Step(o, d, s)
  {
    assert Run(o, [d][1..], Step(o, d, s)) == Step(o, d, s);
  }

  lemma LiveTop(marks: seq<Mark>, m: Mark)
    ensures Live(marks + [m]) <==> Live(marks) && (m == Accepted || m == Undefined)
  {
    assert forall x :: x in marks + [m] <==> x in marks || x == m;
  }

  lemma GroupRun(o: Oracle, open: Directive, body: Parts, rest: Branches, s: State)
    ensures Run(o, [open] + Flat(body) + FlatRest(rest) + [Endif], s)
            == Run(o, [Endif], Run(o, FlatRest(rest), Run(o, Flat(body), Run(o, [open], s))))
  {
    RunTwice(o, [open] + Flat(body) + FlatRest(rest), [Endif], s);
    RunTwice(o, [open] + Flat(body), FlatRest(rest), s);
    RunTwice(o, [open], Flat(body), s);
  }

  function EffectOf(s: State): Effect {
    Effect(s.defs, s.acted)
  }

  /** The state with one more mark. */
  function Marked(s: State, m: Mark): State {
    s.(marks := s.marks + [m])
  }

  function After(s: State, e: Effect): State {
    s.(defs := e.defs, acted := e.acted)
  }

  /** What the parts come to: their meaning where they are reached, else nothing. */
  function PartsEffect(o: Oracle, p: Parts, s: State): Effect
    requires Nested(p)
  {
    if Live(s.marks) then Meaning(o, p, EffectOf(s)) else EffectOf(s)
  }

  /** What the branches after the first come to, by the mark that the group has then. */
  function RestEffect(o: Oracle, r: Branches, s: State, m: Mark): Effect
    requires NestedRest(r)
  {
    if !Live(s.marks) then EffectOf(s)
    else match m
      case Ignored => FirstTrue(o, r, EffectOf(s))
      case Undefined => AllOf(o, r, EffectOf(s))
      case _ => EffectOf(s)
  }

  /** Any marks may be on the stack below, also of groups that are not reached. */
  lemma {:induction false} PartsRun(o: Oracle, p: Parts, s: State)
    requires Nested(p)
    ensures Run(o, Flat(p), s) == After(s, PartsEffect(o, p, s))
    decreases p
  {
    match p {
      case End =>
      case Then(Plain(d), tail) =>
        RunTwice(o, [d], Flat(tail), s);
        RunOne(o, d, s);
        PartsRun(o, tail, Step(o, d, s));
      case Then(Group(open, body, rest), tail) =>
        var group := [open] + Flat(body) + FlatRest(rest) + [Endif];
        RunTwice(o, group, Flat(tail), s);
        GroupMeaning(o, p.head, s);
        PartsRun(o, tail, Run(o, group, s));
    }
  }

  function GroupEffect(o: Oracle, open: Directive, body: Parts, rest: Branches, e: Effect): Effect
    requires open.Opens() && Nested(body) && NestedRest(rest)
  {
    match Value(o, open, e.defs)
    case Some(true) => Meaning(o, body, e)
    case Some(false) => FirstTrue(o, rest, e)
    case None => AllOf(o, rest, Meaning(o, body, e))
  }

  lemma {:induction false} GroupMeaning(o: Oracle, g: Part, s: State)
    requires g.Group? && g.open.Opens() && Nested(g.body) && NestedRest(g.rest)
    ensures Run(o, [g.open] + Flat(g.body) + FlatRest(g.rest) + [Endif], s)
            == if Live(s.marks) then After(s, GroupEffect(o, g.open, g.body, g.rest, EffectOf(s))) else s
    decreases g
  {
    var Group(open, body, rest) := g;
    var m := OpenMark(o, open, s);
    GroupRun(o, open, body, rest, s);
    RunOne(o, open, s);
    var s1 := Marked(s, m);
    LiveTop(s.marks, m);
    PartsRun(o, body, s1);
    var e := PartsEffect(o, body, s1);
    RestRun(o, rest, After(s, e), m);
    assert Marked(After(s, e), m) == After(s1, e);
    RunOne(o, Endif, Run(o, FlatRest(rest), After(s1, e)));
  }

  lemma AlsoStep(o: Oracle, at: Directive, s: State, m: Mark)
    requires at.Continues()
    ensures Run(o, [at], Marked(s, m)) == Marked(s, NextMark(o, at, m, s.defs))
  {
    RunOne(o, at, Marked(s, m));
    assert SetTop(Marked(s, m).marks, NextMark(o, at, m, s.defs)) == s.marks + [NextMark(o, at, m, s.defs)];
  }

  /** The group is open below marks m; in a place that is not reached m is Undefined. */
  lemma {:induction false} RestRun(o: Oracle, r: Branches, s: State, m: Mark)
    requires NestedRest(r) && (!Live(s.marks) ==> m == Undefined)
    ensures var t := Run(o, FlatRest(r), Marked(s, m));
            && t.marks != [] && t.marks[..|t.marks| - 1] == s.marks
            && EffectOf(t) == RestEffect(o, r, s, m)
    decreases r
  {
    match r {
      case NoMore =>
      case Also(at, body, more) =>
        var m' := NextMark(o, at, m, s.defs);
        RunTwice(o, [at] + Flat(body), FlatRest(more), Marked(s, m));
        RunTwice(o, [at], Flat(body), Marked(s, m));
        AlsoStep(o, at, s, m);
        PartsRun(o, body, Marked(s, m'));
        var e := PartsEffect(o, body, Marked(s, m'));
        assert Marked(After(s, e), m') == After(Marked(s, m'), e);
        LiveTop(s.marks, m');
        hide Run, Flat, Live;
        RestRun(o, more, After(s, e), m');
    }
  }

  /** On a well-nested stream the stack of marks computes the meaning of the nested groups. */
  lemma StackIsMeaning(o: Oracle, p: Parts, s: State)
    requires Nested(p) && s.marks == []
    ensures Run(o, Flat(p), s) == After(s, Meaning(o, p, EffectOf(s)))
  {
    PartsRun(o, p, s);
  }

  // ---- At most one branch ----

  function BranchCount(r: Branches): nat {
    match r
    case NoMore => 0
    case Also(_, _, more) => 1 + BranchCount(more)
  }

  /** Below this mark of its group a branch is visited. */
  predicate Visits(m: Mark) {
    m == Accepted || m == Undefined
  }

  /** Which branches after the first are visited, by the mark that the group has before them. */
  function RestVisits(o: Oracle, r: Branches, m: Mark, e: Effect): seq<bool>
    requires NestedRest(r)
  {
    match r
    case NoMore => []
    case Also(at, body, more) =>
      var m' := NextMark(o, at, m, e.defs);
      [Visits(m')] + RestVisits(o, more, m', if Visits(m') then Meaning(o, body, e) else e)
  }

  /** Which branches of a group in a place that is reached are visited. */
  function GroupVisits(o: Oracle, open: Directive, body: Parts, rest: Branches, e: Effect): seq<bool>
    requires open.Opens() && Nested(body) && NestedRest(rest)
  {
    var m := OpenMark(o, open, State([], e.defs, e.acted));
    [Visits(m)] + RestVisits(o, rest, m, if Visits(m) then Meaning(o, body, e) else e)
  }

  /** The meanings of the visited branches, one after the other. */
  function Chosen(o: Oracle, r: Branches, visits: seq<bool>, e: Effect): Effect
    requires NestedRest(r) && |visits| == BranchCount(r)
  {
    match r
    case NoMore => e
    case Also(_, body, more) => Chosen(o, more, visits[1..], if visits[0] then Meaning(o, body, e) else e)
  }

  function Count(visits: seq<bool>): nat {
    if visits == [] then 0 else (if visits[0] then 1 else 0) + Count(visits[1..])
  }

  /** A taken branch closes the group for the rest; with no value everything is visited. */
  lemma {:induction false} RestVisitsCount(o: Oracle, r: Branches, m: Mark, e: Effect)
    requires NestedRest(r)
    ensures var visits := RestVisits(o, r, m, e);
            && |visits| == BranchCount(r)
            && match m
               case Undefined => Count(visits) == BranchCount(r) && Chosen(o, r, visits, e) == AllOf(o, r, e)
               case Ignored => Count(visits) <= 1 && Chosen(o, r, visits, e) == FirstTrue(o, r, e)
               case _ => Count(visits) == 0 && Chosen(o, r, visits, e) == e
  {
    match r {
      case NoMore =>
      case Also(at, body, more) =>
        var m' := NextMark(o, at, m, e.defs);
        var e' := if Visits(m') then Meaning(o, body, e) else e;
        RestVisitsCount(o, more, m', e');
        assert RestVisits(o, r, m, e)[1..] == RestVisits(o, more, m', e');
    }
  }

  /** A group comes to the meanings of the branches that are visited. At most one is, exactly if the #if
      has a value or there is no other branch; without a value all are. */
  lemma AtMostOneBranch(o: Oracle, open: Directive, body: Parts, rest: Branches, e: Effect)
    requires open.Opens() && Nested(body) && NestedRest(rest)
    ensures var visits := GroupVisits(o, open, body, rest, e);
            && |visits| == 1 + BranchCount(rest)
            && GroupEffect(o, open, body, rest, e) == Chosen(o, Also(Else, body, rest), visits, e)
            && (Count(visits) <= 1 <==> Value(o, open, e.defs).Some? || rest.NoMore?)
            && (Value(o, open, e.defs).None? ==> Count(visits) == 1 + BranchCount(rest))
  {
    var m := OpenMark(o, open, State([], e.defs, e.acted));
    var e' := if Visits(m) then Meaning(o, body, e) else e;
    RestVisitsCount(o, rest, m, e');
    assert GroupVisits(o, open, body, rest, e)[1..] == RestVisits(o, rest, m, e');
  }

  /** An #if that cannot be evaluated, with an #else: the directives of both branches act. */
  lemma BothBranchesAct(o: Oracle, line: string, a: string, b: string, s: State)
    requires o.eval(line, s.defs).None? && s.marks == []
    ensures Run(o, [If(line), Other(a), Else, Other(b), Endif], s).acted == s.acted + [Other(a), Other(b)]
  {
    var x, y := Then(Plain(Other(a)), End), Then(Plain(Other(b)), End);
    var rest := Also(Else, y, NoMore);
    OneDirective(o, Other(a), EffectOf(s));
    var e := Meaning(o, x, EffectOf(s));
    OneDirective(o, Other(b), e);
    assert AllOf(o, rest, e) == AllOf(o, NoMore, Meaning(o, y, e));
    assert FlatRest(rest) == [Else] + Flat(y) + FlatRest(NoMore);
    assert [If(line)] + Flat(x) + FlatRest(rest) + [Endif] == [If(line), Other(a), Else, Other(b), Endif];
    GroupMeaning(o, Group(If(line), x, rest), s);
  }

  lemma OneDirective(o: Oracle, d: Directive, e: Effect)
    requires d.Acts()
    ensures var p := Then(Plain(d), End);
            Nested(p) && Flat(p) == [d] && Meaning(o, p, e) == Effect(Act(o, d, e.defs), e.acted + [d])
  {
    var p := Then(Plain(d), End);
    assert Nested(End) && Flat(End) == [];
    assert Meaning(o, p, e) == Meaning(o, End, Effect(Act(o, d, e.defs), e.acted + [d]));
  }

  // ---- The scanner ----

  class CParser {
    var lines: seq<Directive>
    var defs: Defs
    var state: seq<Mark>
    var acted: seq<Directive>

    constructor (lines: seq<Directive>, defs: Defs)
      ensures this.lines == lines && Abs() == State([], defs, [])
    {
      this.lines, this.defs, this.state, this.acted := lines, defs, [], [];
    }

    function Abs(): State
      reads this
    {
      State(state, defs, acted)
    }

    /** One line; whatever fails leaves everything as it is. */
    method Handle(o: Oracle, token: Directive)
      modifies this`state, this`defs, this`acted
      ensures Abs() == Step(o, token, old(Abs()))
    {
      if token.Opens() {
        state := state + [Undefined];
      } else if token.Endif? {
        if state == [] { return; }
        state := state[..|state| - 1];
      }
      if !token.Endif? && !token.Continues() && (Skipped in state || Ignored in state) {
        assert token.Opens() ==> !Live(old(state)) by { LiveTop(old(state), Undefined); }
        return;
      }
      if token.Opens() {
        LiveTop(old(state), Undefined);
        var value := Value(o, token, defs);
        if value.Some? {
          state := SetTop(state, Truth(value.value));
        }
      } else if token.Continues() {
        if state == [] { return; }
        var top := state[|state| - 1];
        if top == Accepted {
          state := SetTop(state, Skipped);
        } else if top == Ignored {
          if token.Else? || o.eval(token.line, defs) == Some(true) {
            state := SetTop(state, Accepted);
          }
        }
      } else if token.Acts() {
        defs := Act(o, token, defs);
        acted := acted + [token];
      }
    }

    /** Lines are taken from the end. */
    method Start(o: Oracle)
      modifies this
      ensures lines == [] && Abs() == Run(o, Reversed(old(lines)), old(Abs()))
    {
      ghost var all, s0 := Reversed(lines), Abs();
      while lines != []
        invariant Run(o, all, s0) == Run(o, Reversed(lines), Abs())
        decreases |lines|
      {
        var token := lines[|lines| - 1];
        assert Reversed(lines)[0] == token && Reversed(lines)[1..] == Reversed(lines[..|lines| - 1]);
        lines := lines[..|lines| - 1];
        Handle(o, token);
      }
    }
  }
}
