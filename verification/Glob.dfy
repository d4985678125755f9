/**
 `ant_glob`: the pattern automaton that follows a path one name at a time, and the directory walk
 that prunes with it. What one name component matches is a parameter, `fits`.
 */
module Glob {
  import opened Basics

  datatype Part = Stars | Comp(regex: string)

  type Pattern = seq<Part>

  type Fits = (string, string) -> bool

  datatype Result<T> = Success(value: T) | AttributeError

  // ---- What a pattern means ----

  /** `**` in the middle stands for any number of names, at the end for one or more. */
  ghost predicate Matches(fits: Fits, p: Pattern, names: seq<string>)
    decreases |p|
  {
    if p == [] then names == []
    else if p == [Stars] then names != []
    else if p[0] == Stars then exists k :: 0 <= k <= |names| && Matches(fits, p[1..], names[k..])
    else names != [] && fits(p[0].regex, names[0]) && Matches(fits, p[1..], names[1..])
  }

  ghost predicate AnyMatches(fits: Fits, pats: seq<Pattern>, names: seq<string>) {
    exists p :: p in pats && Matches(fits, p, names)
  }

  /** `**` twice in a row: the code asks the second one, a plain string, for its `match` method. */
  predicate Stuck(p: Pattern) {
    |p| > 1 && p[0] == Stars && p[1] == Stars
  }

  ghost predicate Plain(p: Pattern) {
    forall i :: 0 <= i < |p| - 1 ==> !Stuck(p[i..])
  }

  ghost predicate NoneStuck(nn: seq<Pattern>) {
    forall p :: p in nn ==> !Stuck(p)
  }

  ghost predicate AllPlain(nn: seq<Pattern>) {
    forall p :: p in nn ==> Plain(p)
  }

  // ---- One step of the automaton ----

  function Residue(fits: Fits, p: Pattern, name: string): seq<Pattern>
    requires !Stuck(p)
  {
    if p == [] then []
    else if p == [Stars] then [p, []]
    else if p[0] == Stars then [p] + (if fits(p[1].regex, name) then [p[2..]] else [])
    else if fits(p[0].regex, name) then [p[1..]]
    else []
  }

  ghost function Residues(fits: Fits, nn: seq<Pattern>, name: string): seq<Pattern>
    requires NoneStuck(nn)
  {
    if nn == [] then []
    else Residues(fits, nn[..|nn| - 1], name) + Residue(fits, nn[|nn| - 1], name)
  }

  method Filtre(fits: Fits, name: string, nn: seq<Pattern>) returns (r: Result<seq<Pattern>>)
    ensures r.Success? <==> NoneStuck(nn)
    ensures r.Success? ==> r.value == Residues(fits, nn, name)
  {
    var ret: seq<Pattern> := [];
    for i := 0 to |nn|
      invariant NoneStuck(nn[..i])
      invariant ret == Residues(fits, nn[..i], name)
    {
      var lst := nn[i];
      assert nn[..i + 1][..i] == nn[..i];
      if lst == [] {
      } else if lst[0] == Stars {
        ret := ret + [lst];
        if |lst| > 1 {
          if lst[1] == Stars {
            assert lst in nn;
            return AttributeError;
          }
          if fits(lst[1].regex, name) {
            ret := ret + [lst[2..]];
          }
        } else {
          ret := ret + [[]];
        }
      } else if fits(lst[0].regex, name) {
        ret := ret + [lst[1..]];
      }
    }
    assert nn[..|nn|] == nn;
    return Success(ret);
  }

  method Accept(fits: Fits, name: string, incl: seq<Pattern>, excl: seq<Pattern>)
    returns (r: Result<(seq<Pattern>, seq<Pattern>)>)
    ensures r.Success? <==> NoneStuck(incl) && NoneStuck(excl)
    ensures r.Success? ==> r.value.1 == Residues(fits, excl, name)
    ensures r.Success? ==> r.value.0 == if [] in r.value.1 then [] else Residues(fits, incl, name)
  {
    var nacc := Filtre(fits, name, incl);
    if nacc.AttributeError? {
      return AttributeError;
    }
    var nrej := Filtre(fits, name, excl);
    if nrej.AttributeError? {
      return AttributeError;
    }
    if [] in nrej.value {
      return Success(([], nrej.value));
    }
    return Success((nacc.value, nrej.value));
  }

  // ---- A whole path ----

  lemma {:induction false} ResiduesMember(fits: Fits, nn: seq<Pattern>, name: string, q: Pattern)
    requires NoneStuck(nn)
    ensures q in Residues(fits, nn, name) <==> exists p :: p in nn && q in Residue(fits, p, name)
  {
    hide Stuck, Residue;
    if nn != [] {
      var front, last := nn[..|nn| - 1], nn[|nn| - 1];
      ResiduesMember(fits, front, name, q);
      assert forall p :: p in nn <==> p in front || p == last;
    }
  }

  /** The first name moves the meaning of a pattern to its residues. */
  lemma MatchStep(fits: Fits, p: Pattern, name: string, rest: seq<string>)
    requires !Stuck(p)
    ensures Matches(fits, p, [name] + rest) <==> AnyMatches(fits, Residue(fits, p, name), rest)
  {
    var names := [name] + rest;
    assert names[1..] == rest;
    if p == [] || p[0] != Stars {
    } else if p == [Stars] {
      assert p in Residue(fits, p, name) && [] in Residue(fits, p, name);
    } else {
      StarStep(fits, p, name, rest);
    }
  }

  lemma StarStep(fits: Fits, p: Pattern, name: string, rest: seq<string>)
    requires |p| > 1 && p[0] == Stars && p[1] != Stars
    ensures Matches(fits, p, [name] + rest) <==> AnyMatches(fits, Residue(fits, p, name), rest)
  {
    var names := [name] + rest;
    assert names[1..] == rest && names[0..] == names;
    assert p[1..][0] == p[1] && p[1..][1..] == p[2..];
    if Matches(fits, p, names) {
      var k :| 0 <= k <= |names| && Matches(fits, p[1..], names[k..]);
      if k > 0 {
        assert names[k..] == rest[k - 1..];
        assert Matches(fits, p, rest);
        assert p in Residue(fits, p, name);
      } else {
        assert p[2..] in Residue(fits, p, name);
      }
    }
    if Matches(fits, p, rest) {
      var k :| 0 <= k <= |rest| && Matches(fits, p[1..], rest[k..]);
      assert names[k + 1..] == rest[k..];
    }
    if fits(p[1].regex, name) && Matches(fits, p[2..], rest) {
      assert Matches(fits, p[1..], names[0..]);
    }
  }

  lemma StepMatches(fits: Fits, nn: seq<Pattern>, name: string, rest: seq<string>)
    requires NoneStuck(nn)
    ensures AnyMatches(fits, nn, [name] + rest) <==> AnyMatches(fits, Residues(fits, nn, name), rest)
  {
    var names := [name] + rest;
    var next := Residues(fits, nn, name);
    if AnyMatches(fits, nn, names) {
      var p :| p in nn && Matches(fits, p, names);
      MatchStep(fits, p, name, rest);
      var q :| q in Residue(fits, p, name) && Matches(fits, q, rest);
      ResiduesMember(fits, nn, name, q);
    }
    if AnyMatches(fits, next, rest) {
      var q :| q in next && Matches(fits, q, rest);
      ResiduesMember(fits, nn, name, q);
      var p :| p in nn && q in Residue(fits, p, name);
      MatchStep(fits, p, name, rest);
    }
  }

  lemma NothingLeft(fits: Fits, nn: seq<Pattern>)
    ensures AnyMatches(fits, nn, []) <==> [] in nn
  {
    forall p | p in nn && p != [] ensures !Matches(fits, p, []) {
      NothingButEmpty(fits, p);
    }
    assert Matches(fits, [], []);
  }

  lemma {:induction false} NothingButEmpty(fits: Fits, p: Pattern)
    requires p != []
    ensures !Matches(fits, p, [])
  {
    if |p| > 1 {
      NothingButEmpty(fits, p[1..]);
      var none: seq<string> := [];
      assert none[0..] == none;
    }
  }

  ghost predicate Crashes(fits: Fits, nn: seq<Pattern>, names: seq<string>)
    decreases |names|
  {
    names != [] && (!NoneStuck(nn) || Crashes(fits, Residues(fits, nn, names[0]), names[1..]))
  }

  ghost function Follow(fits: Fits, nn: seq<Pattern>, names: seq<string>): seq<Pattern>
    requires !Crashes(fits, nn, names)
    decreases |names|
  {
    if names == [] then nn else Follow(fits, Residues(fits, nn, names[0]), names[1..])
  }

  /** The automaton is right: it reaches the empty pattern exactly on the paths that match. */
  lemma {:induction false} AutomatonMatches(fits: Fits, nn: seq<Pattern>, names: seq<string>)
    requires !Crashes(fits, nn, names)
    ensures [] in Follow(fits, nn, names) <==> AnyMatches(fits, nn, names)
    decreases |names|
  {
    if names == [] {
      NothingLeft(fits, nn);
    } else {
      assert names == [names[0]] + names[1..];
      StepMatches(fits, nn, names[0], names[1..]);
      AutomatonMatches(fits, Residues(fits, nn, names[0]), names[1..]);
    }
  }

  // ---- When the automaton crashes ----

  lemma CrashNow(fits: Fits, nn: seq<Pattern>, p: Pattern, names: seq<string>)
    requires p in nn && Stuck(p) && names != []
    ensures Crashes(fits, nn, names)
  {}

  lemma CrashLater(fits: Fits, nn: seq<Pattern>, name: string, rest: seq<string>)
    requires !NoneStuck(nn) || Crashes(fits, Residues(fits, nn, name), rest)
    ensures Crashes(fits, nn, [name] + rest)
  {
    assert ([name] + rest)[1..] == rest;
  }

  lemma Slices(p: Pattern, i: nat, j: nat)
    requires j <= i <= |p|
    ensures p[j..][i - j..] == p[i..] && p[j..][..i - j] == p[j..i] && p[0..] == p
  {}

  lemma {:induction false} PrefixCrashes(fits: Fits, nn: seq<Pattern>, p: Pattern, i: nat, names: seq<string>,
                                         name: string)
    requires p in nn && i < |p| && Stuck(p[i..]) && Matches(fits, p[..i], names)
    ensures Crashes(fits, nn, names + [name])
    decreases |names|
  {
    hide Crashes, Stuck, Residue, Residues;
    Slices(p, i, 0);
    if i == 0 {
      CrashNow(fits, nn, p, names + [name]);
    } else {
      if names == [] { NothingButEmpty(fits, p[..i]); }
      hide Matches;
      var first, rest := names[0], names[1..];
      assert names == [first] + rest;
      assert names + [name] == [first] + (rest + [name]);
      if NoneStuck(nn) {
        var j := PrefixStep(fits, p, i, first, rest);
        ResiduesMember(fits, nn, first, p[j..]);
        Slices(p, i, j);
        PrefixCrashes(fits, Residues(fits, nn, first), p[j..], i - j, rest, name);
      }
      CrashLater(fits, nn, first, rest + [name]);
    }
  }

  lemma PrefixStep(fits: Fits, p: Pattern, i: nat, name: string, rest: seq<string>) returns (j: nat)
    requires !Stuck(p) && 0 < i < |p| && Stuck(p[i..]) && Matches(fits, p[..i], [name] + rest)
    ensures j <= i && p[j..] in Residue(fits, p, name) && Matches(fits, p[j..i], rest)
  {
    var a := p[..i];
    assert p[i] == Stars;
    assert !Stuck(a) && a != [Stars];
    MatchStep(fits, a, name, rest);
    var q :| q in Residue(fits, a, name) && Matches(fits, q, rest);
    if a[0] != Stars {
      j := 1;
      assert a[1..] == p[1..i];
    } else if q == a {
      j := 0;
      assert p[0..] == p && p[0..i] == a;
    } else {
      j := 2;
      assert a[2..] == p[2..i];
    }
  }

  lemma {:induction false} CrashHasPrefix(fits: Fits, nn: seq<Pattern>, names: seq<string>)
    returns (p: Pattern, i: nat, seen: seq<string>)
    requires Crashes(fits, nn, names)
    ensures p in nn && i < |p| && Stuck(p[i..]) && Matches(fits, p[..i], seen)
    decreases |names|
  {
    if !NoneStuck(nn) {
      p :| p in nn && Stuck(p);
      i, seen := 0, [];
      assert p[0..] == p && p[..0] == [];
    } else {
      var q, k, later := CrashHasPrefix(fits, Residues(fits, nn, names[0]), names[1..]);
      ResiduesMember(fits, nn, names[0], q);
      p :| p in nn && q in Residue(fits, p, names[0]);
      i, seen := CrashStep(fits, p, names[0], q, k, later);
    }
  }

  lemma CrashStep(fits: Fits, p: Pattern, name: string, q: Pattern, k: nat, later: seq<string>)
    returns (i: nat, seen: seq<string>)
    requires !Stuck(p) && q in Residue(fits, p, name)
    requires k < |q| && Stuck(q[k..]) && Matches(fits, q[..k], later)
    ensures i < |p| && Stuck(p[i..]) && Matches(fits, p[..i], seen)
  {
    if q == p {
      i, seen := k, later;
    } else {
      i, seen := k + |p| - |q|, [name] + later;
      assert p[i..] == q[k..];
      assert seen[1..] == later && seen[0..] == seen;
      var a := p[..i];
      if p[0] == Stars {
        assert a[1..][0] == p[1] && a[1..][1..] == q[..k];
        assert Matches(fits, a[1..], seen[0..]);
      } else {
        assert a[1..] == q[..k];
      }
    }
  }

  /** Walking some path crashes exactly if two adjacent `**` can be reached: some path matches what
      stands before them. */
  lemma CrashIff(fits: Fits, p: Pattern)
    ensures (exists names :: Crashes(fits, [p], names)) <==>
            exists i, seen :: 0 <= i < |p| && Stuck(p[i..]) && Matches(fits, p[..i], seen)
  {
    if exists names :: Crashes(fits, [p], names) {
      var names :| Crashes(fits, [p], names);
      var q, i, seen := CrashHasPrefix(fits, [p], names);
      assert Stuck(p[i..]) && Matches(fits, p[..i], seen);
    }
    if exists i, seen :: 0 <= i < |p| && Stuck(p[i..]) && Matches(fits, p[..i], seen) {
      var i, seen :| 0 <= i < |p| && Stuck(p[i..]) && Matches(fits, p[..i], seen);
      PrefixCrashes(fits, [p], p, i, seen, "");
      assert exists names :: Crashes(fits, [p], names);
    } else {
      assert !exists names :: Crashes(fits, [p], names);
    }
  }

  /** `**` twice: one name is enough. */
  lemma AdjacentStarsCrash(fits: Fits, name: string)
    ensures Crashes(fits, [[Stars, Stars]], [name])
  {
    assert [Stars, Stars] in [[Stars, Stars]];
  }

  lemma PlainResidue(fits: Fits, p: Pattern, name: string, q: Pattern)
    requires Plain(p) && !Stuck(p) && q in Residue(fits, p, name)
    ensures Plain(q)
  {
    var d := |p| - |q|;
    assert q == p[d..];
    forall i | 0 <= i < |q| - 1 ensures !Stuck(q[i..]) {
      assert q[i..] == p[i + d..];
    }
  }

  lemma PlainNotStuck(p: Pattern)
    requires Plain(p)
    ensures !Stuck(p)
  {
    if |p| > 1 { assert p[0..] == p; }
  }

  lemma PlainResidues(fits: Fits, nn: seq<Pattern>, name: string)
    requires AllPlain(nn)
    ensures NoneStuck(nn) && AllPlain(Residues(fits, nn, name))
  {
    forall p | p in nn ensures !Stuck(p) {
      PlainNotStuck(p);
    }
    hide Plain, Stuck, Residue, Residues;
    forall q | q in Residues(fits, nn, name) ensures Plain(q) {
      ResiduesMember(fits, nn, name, q);
      var p :| p in nn && q in Residue(fits, p, name);
      PlainResidue(fits, p, name, q);
    }
  }

  /** No adjacent `**` anywhere: no path crashes. */
  lemma {:induction false} PlainNeverCrashes(fits: Fits, nn: seq<Pattern>, names: seq<string>)
    requires AllPlain(nn)
    ensures !Crashes(fits, nn, names)
    decreases |names|
  {
    if names != [] {
      PlainResidues(fits, nn, names[0]);
      PlainNeverCrashes(fits, Residues(fits, nn, names[0]), names[1..]);
    }
  }

  // ---- The walk over the directories ----

  type Path = seq<string>

  datatype Tree = File | Dir(entries: seq<(string, Tree)>)

  ghost predicate WellFormed(t: Tree) {
    t.Dir? ==>
      && (forall i, j :: 0 <= i < j < |t.entries| ==> t.entries[i].0 != t.entries[j].0)
      && (forall i :: 0 <= i < |t.entries| ==> WellFormed(t.entries[i].1))
  }

  ghost predicate At(t: Tree, path: Path, node: Tree)
    decreases |path|
  {
    if path == [] then node == t
    else t.Dir? && exists i :: 0 <= i < |t.entries| && t.entries[i].0 == path[0] && At(t.entries[i].1, path[1..], node)
  }

  ghost predicate Present(t: Tree, path: Path, dir: bool, src: bool) {
    exists node :: At(t, path, node) && if node.Dir? then dir else src
  }

  ghost predicate Excluded(fits: Fits, excl: seq<Pattern>, path: Path) {
    exists k :: 1 <= k <= |path| && AnyMatches(fits, excl, path[..k])
  }

  /** What `ant_iter` is to find: what is there, within the depth, included, and below nothing excluded. */
  ghost predicate Wanted(fits: Fits, t: Tree, maxdepth: nat, incl: seq<Pattern>, excl: seq<Pattern>,
                         dir: bool, src: bool, path: Path)
  {
    && 1 <= |path| <= maxdepth + 1 && Present(t, path, dir, src)
    && AnyMatches(fits, incl, path) && !Excluded(fits, excl, path)
  }

  lemma PresentStep(t: Tree, i: nat, rest: Path, dir: bool, src: bool)
    requires t.Dir? && WellFormed(t) && i < |t.entries|
    ensures Present(t, [t.entries[i].0] + rest, dir, src) <==> Present(t.entries[i].1, rest, dir, src)
  {
    var path := [t.entries[i].0] + rest;
    assert path[1..] == rest;
    forall node ensures At(t, path, node) <==> At(t.entries[i].1, rest, node) {}
  }

  lemma ExcludedStep(fits: Fits, excl: seq<Pattern>, name: string, rest: Path)
    requires NoneStuck(excl)
    ensures Excluded(fits, excl, [name] + rest) <==>
            [] in Residues(fits, excl, name) || Excluded(fits, Residues(fits, excl, name), rest)
  {
    var path, nrej := [name] + rest, Residues(fits, excl, name);
    NothingLeft(fits, nrej);
    forall k | 1 <= k <= |path| ensures AnyMatches(fits, excl, path[..k]) <==> AnyMatches(fits, nrej, rest[..k - 1]) {
      assert path[..k] == [name] + rest[..k - 1];
      StepMatches(fits, excl, name, rest[..k - 1]);
    }
    if [] in nrej {
      assert rest[..0] == [];
      assert AnyMatches(fits, excl, path[..1]);
    }
    if Excluded(fits, nrej, rest) {
      var k :| 1 <= k <= |rest| && AnyMatches(fits, nrej, rest[..k]);
      assert AnyMatches(fits, excl, path[..k + 1]);
    }
    if Excluded(fits, excl, path) {
      var k :| 1 <= k <= |path| && AnyMatches(fits, excl, path[..k]);
      if k == 1 { assert rest[..0] == []; } else { assert AnyMatches(fits, nrej, rest[..k - 1]); }
    }
  }

  /** The first entry of a wanted path decides how the search goes on below it. */
  lemma WantedStep(fits: Fits, t: Tree, maxdepth: nat, incl: seq<Pattern>, excl: seq<Pattern>,
                   dir: bool, src: bool, i: nat, rest: Path)
    requires t.Dir? && WellFormed(t) && i < |t.entries| && NoneStuck(incl) && NoneStuck(excl)
    ensures Wanted(fits, t, maxdepth, incl, excl, dir, src, [t.entries[i].0] + rest) <==>
            var name, child := t.entries[i].0, t.entries[i].1;
            var nacc, nrej := Residues(fits, incl, name), Residues(fits, excl, name);
            && [] !in nrej
            && if rest == [] then [] in nacc && (if child.Dir? then dir else src)
               else maxdepth > 0 && Wanted(fits, child, maxdepth - 1, nacc, nrej, dir, src, rest)
  {
    var name, child := t.entries[i].0, t.entries[i].1;
    var nacc, nrej := Residues(fits, incl, name), Residues(fits, excl, name);
    PresentStep(t, i, rest, dir, src);
    StepMatches(fits, incl, name, rest);
    ExcludedStep(fits, excl, name, rest);
    hide AnyMatches, Excluded;
    if rest == [] {
      NothingLeft(fits, nacc);
      assert At(child, [], child);
      assert !Excluded(fits, nrej, []) by { NeverExcluded(fits, nrej); }
    }
  }

  lemma NeverExcluded(fits: Fits, excl: seq<Pattern>)
    ensures !Excluded(fits, excl, [])
  {}

  function Below(name: string, paths: seq<Path>): (r: seq<Path>)
    ensures |r| == |paths| && forall i :: 0 <= i < |r| ==> r[i] == [name] + paths[i]
  {
    if paths == [] then [] else Below(name, paths[..|paths| - 1]) + [[name] + paths[|paths| - 1]]
  }

  /** Everything wanted whose first name is one of these, each once. */
  ghost predicate Exactly(fits: Fits, t: Tree, maxdepth: nat, incl: seq<Pattern>, excl: seq<Pattern>,
                          dir: bool, src: bool, names: set<string>, found: seq<Path>)
  {
    && Distinct(found)
    && forall path :: path in found <==>
         path != [] && path[0] in names && Wanted(fits, t, maxdepth, incl, excl, dir, src, path)
  }

  lemma BelowMember(name: string, paths: seq<Path>, path: Path)
    ensures path in Below(name, paths) <==> path != [] && path[0] == name && path[1..] in paths
  {
    var r := Below(name, paths);
    if path in r {
      var i :| 0 <= i < |r| && r[i] == path;
      assert path[1..] == paths[i];
    }
    if path != [] && path[0] == name && path[1..] in paths {
      var i :| 0 <= i < |paths| && paths[i] == path[1..];
      assert r[i] == path;
    }
  }

  lemma BelowDistinct(name: string, paths: seq<Path>)
    requires Distinct(paths)
    ensures Distinct(Below(name, paths))
  {
    var r := Below(name, paths);
    forall i, j | 0 <= i < j < |r| ensures r[i] != r[j] {
      assert r[i][1..] == paths[i] && r[j][1..] == paths[j];
    }
  }

  ghost predicate FoundBelow(fits: Fits, t: Tree, maxdepth: nat, incl: seq<Pattern>, excl: seq<Pattern>,
                             dir: bool, src: bool, found: seq<Path>)
  {
    Distinct(found) && forall path :: path in found <==> Wanted(fits, t, maxdepth, incl, excl, dir, src, path)
  }

  /** The search went on below an entry as far as it had to. */
  ghost predicate SearchedBelow(fits: Fits, t: Tree, maxdepth: nat, incl: seq<Pattern>, excl: seq<Pattern>,
                                dir: bool, src: bool, i: nat, found: seq<Path>)
    requires t.Dir? && i < |t.entries| && NoneStuck(incl) && NoneStuck(excl)
  {
    var name := t.entries[i].0;
    var nacc, nrej := Residues(fits, incl, name), Residues(fits, excl, name);
    if [] !in nrej && maxdepth > 0 then FoundBelow(fits, t.entries[i].1, maxdepth - 1, nacc, nrej, dir, src, found)
    else found == []
  }

  ghost predicate OwnEntry(fits: Fits, t: Tree, incl: seq<Pattern>, excl: seq<Pattern>, dir: bool, src: bool, i: nat)
    requires t.Dir? && i < |t.entries| && NoneStuck(incl) && NoneStuck(excl)
  {
    var name := t.entries[i].0;
    && [] !in Residues(fits, excl, name) && [] in Residues(fits, incl, name)
    && if t.entries[i].1.Dir? then dir else src
  }

  function WithOwn(own: bool, name: string, found: seq<Path>): seq<Path> {
    (if own then [[name]] else []) + Below(name, found)
  }

  lemma EntryPath(fits: Fits, t: Tree, maxdepth: nat, incl: seq<Pattern>, excl: seq<Pattern>, dir: bool, src: bool,
                  i: nat, found: seq<Path>, rest: Path)
    requires t.Dir? && WellFormed(t) && i < |t.entries| && NoneStuck(incl) && NoneStuck(excl)
    requires SearchedBelow(fits, t, maxdepth, incl, excl, dir, src, i, found)
    ensures var own, path := OwnEntry(fits, t, incl, excl, dir, src, i), [t.entries[i].0] + rest;
            path in WithOwn(own, t.entries[i].0, found) <==> Wanted(fits, t, maxdepth, incl, excl, dir, src, path)
  {
    hide Matches, AnyMatches, Excluded, Present, Residues, WellFormed, Distinct, Below, Stuck;
    var name, child := t.entries[i].0, t.entries[i].1;
    var own, path := OwnEntry(fits, t, incl, excl, dir, src, i), [name] + rest;
    var nacc, nrej := Residues(fits, incl, name), Residues(fits, excl, name);
    WantedStep(fits, t, maxdepth, incl, excl, dir, src, i, rest);
    BelowMember(name, found, path);
    assert path[1..] == rest;
    assert rest in found <==>
           [] !in nrej && maxdepth > 0 && Wanted(fits, child, maxdepth - 1, nacc, nrej, dir, src, rest);
    assert [] !in found;
    hide Wanted, SearchedBelow;
    var head: seq<Path> := if own then [[name]] else [];
    assert path == [name] <==> rest == [];
  }

  /** What one entry adds, from what was found below it. */
  lemma EntryExact(fits: Fits, t: Tree, maxdepth: nat, incl: seq<Pattern>, excl: seq<Pattern>, dir: bool, src: bool,
                   i: nat, found: seq<Path>)
    requires t.Dir? && WellFormed(t) && i < |t.entries| && NoneStuck(incl) && NoneStuck(excl)
    requires SearchedBelow(fits, t, maxdepth, incl, excl, dir, src, i, found)
    ensures var own, name := OwnEntry(fits, t, incl, excl, dir, src, i), t.entries[i].0;
            Exactly(fits, t, maxdepth, incl, excl, dir, src, {name}, WithOwn(own, name, found))
  {
    hide Matches, AnyMatches, Excluded, Present, Residues, NoneStuck, WellFormed, Distinct, Wanted, Below;
    hide WithOwn, OwnEntry;
    var own, name := OwnEntry(fits, t, incl, excl, dir, src, i), t.entries[i].0;
    var all := WithOwn(own, name, found);
    NoEmptyPath(fits, t, maxdepth, incl, excl, dir, src, i, found);
    OwnDistinct(own, name, found);
    hide SearchedBelow;
    forall path
      ensures path in all <==>
              path != [] && path[0] in {name} && Wanted(fits, t, maxdepth, incl, excl, dir, src, path)
    {
      OwnMember(own, name, found, path);
      if path != [] && path[0] == name {
        EntryPath(fits, t, maxdepth, incl, excl, dir, src, i, found, path[1..]);
        assert path == [name] + path[1..];
      }
    }
  }

  lemma NoEmptyPath(fits: Fits, t: Tree, maxdepth: nat, incl: seq<Pattern>, excl: seq<Pattern>, dir: bool, src: bool,
                    i: nat, found: seq<Path>)
    requires t.Dir? && i < |t.entries| && NoneStuck(incl) && NoneStuck(excl)
    requires SearchedBelow(fits, t, maxdepth, incl, excl, dir, src, i, found)
    ensures [] !in found && Distinct(found)
  {}

  lemma OwnMember(own: bool, name: string, found: seq<Path>, path: Path)
    ensures path in WithOwn(own, name, found) ==> path != [] && path[0] == name
  {
    BelowMember(name, found, path);
  }

  lemma OwnDistinct(own: bool, name: string, found: seq<Path>)
    requires Distinct(found) && [] !in found
    ensures Distinct(WithOwn(own, name, found))
  {
    BelowDistinct(name, found);
    BelowMember(name, found, [name]);
  }

  lemma NothingBelow(fits: Fits, t: Tree, maxdepth: nat, excl: seq<Pattern>, dir: bool, src: bool)
    ensures FoundBelow(fits, t, maxdepth, [], excl, dir, src, [])
  {}

  lemma NothingInFile(fits: Fits, maxdepth: nat, incl: seq<Pattern>, excl: seq<Pattern>, dir: bool, src: bool)
    ensures FoundBelow(fits, File, maxdepth, incl, excl, dir, src, [])
  {}

  // ---- When the walk fails ----

  /** The walk comes to the directory `node` at this path, and two adjacent `**` head a pattern there. */
  ghost predicate FailsIn(fits: Fits, t: Tree, maxdepth: nat, incl: seq<Pattern>, excl: seq<Pattern>,
                          path: Path, node: Tree)
  {
    && |path| <= maxdepth && At(t, path, node) && node.Dir? && node.entries != []
    && !Crashes(fits, incl, path) && !Crashes(fits, excl, path)
    && !Excluded(fits, excl, path) && (path == [] || Follow(fits, incl, path) != [])
    && !(NoneStuck(Follow(fits, incl, path)) && NoneStuck(Follow(fits, excl, path)))
  }

  ghost predicate Fails(fits: Fits, t: Tree, maxdepth: nat, incl: seq<Pattern>, excl: seq<Pattern>) {
    exists path, node :: FailsIn(fits, t, maxdepth, incl, excl, path, node)
  }

  /** It fails at entry i: at its name, or below it if the search goes on there. */
  ghost predicate FailsAt(fits: Fits, t: Tree, maxdepth: nat, incl: seq<Pattern>, excl: seq<Pattern>, i: nat)
    requires t.Dir? && i < |t.entries|
  {
    NoneStuck(incl) && NoneStuck(excl) ==>
      var name := t.entries[i].0;
      var nacc, nrej := Residues(fits, incl, name), Residues(fits, excl, name);
      && [] !in nrej && nacc != [] && maxdepth > 0
      && Fails(fits, t.entries[i].1, maxdepth - 1, nacc, nrej)
  }

  lemma {:induction false} NothingFollows(fits: Fits, names: seq<string>)
    ensures !Crashes(fits, [], names) && Follow(fits, [], names) == []
    decreases |names|
  {
    if names != [] {
      assert Residues(fits, [], names[0]) == [];
      NothingFollows(fits, names[1..]);
    }
  }

  lemma FollowStep(fits: Fits, nn: seq<Pattern>, name: string, rest: Path)
    ensures Crashes(fits, nn, [name] + rest) <==> !NoneStuck(nn) || Crashes(fits, Residues(fits, nn, name), rest)
    ensures !Crashes(fits, nn, [name] + rest) ==>
              Follow(fits, nn, [name] + rest) == Follow(fits, Residues(fits, nn, name), rest)
  {
    assert ([name] + rest)[1..] == rest;
  }

  lemma AtStep(t: Tree, i: nat, rest: Path, node: Tree)
    requires t.Dir? && WellFormed(t) && i < |t.entries|
    ensures At(t, [t.entries[i].0] + rest, node) <==> At(t.entries[i].1, rest, node)
  {
    assert ([t.entries[i].0] + rest)[1..] == rest;
  }

  lemma FailsStep(fits: Fits, t: Tree, maxdepth: nat, incl: seq<Pattern>, excl: seq<Pattern>, i: nat, rest: Path,
                  node: Tree)
    requires t.Dir? && WellFormed(t) && i < |t.entries| && NoneStuck(incl) && NoneStuck(excl)
    ensures FailsIn(fits, t, maxdepth, incl, excl, [t.entries[i].0] + rest, node) <==>
            var name := t.entries[i].0;
            var nacc, nrej := Residues(fits, incl, name), Residues(fits, excl, name);
            && [] !in nrej && nacc != [] && maxdepth > 0
            && FailsIn(fits, t.entries[i].1, maxdepth - 1, nacc, nrej, rest, node)
  {
    var name := t.entries[i].0;
    var nacc, nrej := Residues(fits, incl, name), Residues(fits, excl, name);
    AtStep(t, i, rest, node);
    FollowStep(fits, incl, name, rest);
    FollowStep(fits, excl, name, rest);
    ExcludedStep(fits, excl, name, rest);
    NothingFollows(fits, rest);
    NeverExcluded(fits, nrej);
    hide At, Crashes, Excluded, NoneStuck, Residues, WellFormed;
    if rest == [] { assert Follow(fits, nacc, rest) == nacc; }
  }

  ghost predicate NoneFails(fits: Fits, t: Tree, maxdepth: nat, incl: seq<Pattern>, excl: seq<Pattern>, n: nat)
    requires t.Dir? && n <= |t.entries|
  {
    forall i :: 0 <= i < n ==> !FailsAt(fits, t, maxdepth, incl, excl, i)
  }

  /** The walk fails only if it does at some entry. */
  lemma NoEntryFails(fits: Fits, t: Tree, maxdepth: nat, incl: seq<Pattern>, excl: seq<Pattern>)
    requires t.Dir? && WellFormed(t) && NoneFails(fits, t, maxdepth, incl, excl, |t.entries|)
    ensures !Fails(fits, t, maxdepth, incl, excl)
  {
    if path, node :| FailsIn(fits, t, maxdepth, incl, excl, path, node) {
      var i := FailsThrough(fits, t, maxdepth, incl, excl, path, node);
    }
  }

  lemma OneMorePasses(fits: Fits, t: Tree, maxdepth: nat, incl: seq<Pattern>, excl: seq<Pattern>, n: nat)
    requires t.Dir? && n < |t.entries|
    requires NoneFails(fits, t, maxdepth, incl, excl, n) && !FailsAt(fits, t, maxdepth, incl, excl, n)
    ensures NoneFails(fits, t, maxdepth, incl, excl, n + 1)
  {}

  lemma FailsFrom(fits: Fits, t: Tree, maxdepth: nat, incl: seq<Pattern>, excl: seq<Pattern>, i: nat)
    requires t.Dir? && WellFormed(t) && i < |t.entries| && FailsAt(fits, t, maxdepth, incl, excl, i)
    ensures Fails(fits, t, maxdepth, incl, excl)
  {
    var name := t.entries[i].0;
    if NoneStuck(incl) && NoneStuck(excl) {
      var nacc, nrej := Residues(fits, incl, name), Residues(fits, excl, name);
      var rest, node :| FailsIn(fits, t.entries[i].1, maxdepth - 1, nacc, nrej, rest, node);
      FailsStep(fits, t, maxdepth, incl, excl, i, rest, node);
    } else {
      NeverExcluded(fits, excl);
      assert FailsIn(fits, t, maxdepth, incl, excl, [], t);
    }
  }

  lemma FailsThrough(fits: Fits, t: Tree, maxdepth: nat, incl: seq<Pattern>, excl: seq<Pattern>, path: Path, node: Tree)
    returns (i: nat)
    requires t.Dir? && WellFormed(t) && FailsIn(fits, t, maxdepth, incl, excl, path, node)
    ensures i < |t.entries| && FailsAt(fits, t, maxdepth, incl, excl, i)
  {
    if path == [] {
      i := 0;
    } else {
      i :| 0 <= i < |t.entries| && t.entries[i].0 == path[0] && At(t.entries[i].1, path[1..], node);
      assert path == [t.entries[i].0] + path[1..];
      if NoneStuck(incl) && NoneStuck(excl) {
        FailsStep(fits, t, maxdepth, incl, excl, i, path[1..], node);
      }
    }
  }

  /** A directory with anything in it, and a pattern of two adjacent `**`. */
  lemma AdjacentStarsFail(fits: Fits, t: Tree, maxdepth: nat)
    requires t.Dir? && t.entries != []
    ensures Fails(fits, t, maxdepth, [[Stars, Stars]], [])
  {
    NeverExcluded(fits, []);
    assert [Stars, Stars] in [[Stars, Stars]];
    assert FailsIn(fits, t, maxdepth, [[Stars, Stars]], [], [], t);
  }

  lemma {:induction false} StuckCrashes(fits: Fits, nn: seq<Pattern>, names: seq<string>, name: string)
    requires !Crashes(fits, nn, names) && !NoneStuck(Follow(fits, nn, names))
    ensures Crashes(fits, nn, names + [name])
    decreases |names|
  {
    if names != [] {
      StuckCrashes(fits, Residues(fits, nn, names[0]), names[1..], name);
      assert (names + [name])[1..] == names[1..] + [name];
    }
  }

  /** Without adjacent `**` no walk fails. */
  lemma PlainNeverFails(fits: Fits, t: Tree, maxdepth: nat, incl: seq<Pattern>, excl: seq<Pattern>)
    requires AllPlain(incl) && AllPlain(excl)
    ensures !Fails(fits, t, maxdepth, incl, excl)
  {
    forall path, node ensures !FailsIn(fits, t, maxdepth, incl, excl, path, node) {
      if FailsIn(fits, t, maxdepth, incl, excl, path, node) {
        PlainNeverCrashes(fits, incl, path + [""]);
        PlainNeverCrashes(fits, excl, path + [""]);
        if !NoneStuck(Follow(fits, incl, path)) { StuckCrashes(fits, incl, path, ""); }
        else { StuckCrashes(fits, excl, path, ""); }
      }
    }
  }

  // ---- The walk ----

  /** One directory entry: itself, if it is accepted, then what is found below it. */
  method Entry(fits: Fits, t: Tree, maxdepth: nat, incl: seq<Pattern>, excl: seq<Pattern>, dir: bool, src: bool, i: nat)
    returns (r: Result<seq<Path>>)
    requires t.Dir? && WellFormed(t) && i < |t.entries|
    ensures r.AttributeError? <==> FailsAt(fits, t, maxdepth, incl, excl, i)
    ensures r.Success? ==> Exactly(fits, t, maxdepth, incl, excl, dir, src, {t.entries[i].0}, r.value)
    decreases maxdepth, 0
  {
    hide *;
    var name, child := t.entries[i].0, t.entries[i].1;
    ghost var depth: nat := if maxdepth > 0 then maxdepth - 1 else 0;
    var npats := Accept(fits, name, incl, excl);
    EntryFails(fits, t, maxdepth, incl, excl, i);
    if npats.AttributeError? {
      return AttributeError;
    }
    var nacc, nrej := npats.value.0, npats.value.1;
    ChildWellFormed(t, i);
    var found: seq<Path> := [];
    var own := false;
    if nacc != [] {
      own := [] in nacc && (if child.Dir? then dir else src);
      if child.Dir? && maxdepth > 0 {
        var below := AntIter(fits, child, maxdepth - 1, nacc, nrej, dir, src);
        if below.AttributeError? {
          return AttributeError;
        }
        found := below.value;
      }
    }
    EntrySearched(fits, t, maxdepth, incl, excl, dir, src, i, found);
    EntryExact(fits, t, maxdepth, incl, excl, dir, src, i, found);
    OwnIs(fits, t, incl, excl, dir, src, i);
    return Success(WithOwn(own, name, found));
  }

  lemma ChildWellFormed(t: Tree, i: nat)
    requires t.Dir? && WellFormed(t) && i < |t.entries|
    ensures WellFormed(t.entries[i].1)
  {}

  lemma OwnIs(fits: Fits, t: Tree, incl: seq<Pattern>, excl: seq<Pattern>, dir: bool, src: bool, i: nat)
    requires t.Dir? && i < |t.entries| && NoneStuck(incl) && NoneStuck(excl)
    ensures var nrej := Residues(fits, excl, t.entries[i].0);
            var nacc := if [] in nrej then [] else Residues(fits, incl, t.entries[i].0);
            OwnEntry(fits, t, incl, excl, dir, src, i) <==>
            nacc != [] && [] in nacc && if t.entries[i].1.Dir? then dir else src
  {
    hide Residues, NoneStuck;
  }

  /** The search below an entry goes on only if something can still be accepted there. */
  lemma EntrySearched(fits: Fits, t: Tree, maxdepth: nat, incl: seq<Pattern>, excl: seq<Pattern>, dir: bool, src: bool,
                      i: nat, found: seq<Path>)
    requires t.Dir? && i < |t.entries| && NoneStuck(incl) && NoneStuck(excl)
    requires var nrej := Residues(fits, excl, t.entries[i].0);
             var nacc := if [] in nrej then [] else Residues(fits, incl, t.entries[i].0);
             if nacc != [] && t.entries[i].1.Dir? && maxdepth > 0
             then FoundBelow(fits, t.entries[i].1, maxdepth - 1, nacc, nrej, dir, src, found)
             else found == []
    ensures SearchedBelow(fits, t, maxdepth, incl, excl, dir, src, i, found)
  {
    var nacc, nrej := Residues(fits, incl, t.entries[i].0), Residues(fits, excl, t.entries[i].0);
    var depth: nat := if maxdepth > 0 then maxdepth - 1 else 0;
    NothingBelow(fits, t.entries[i].1, depth, nrej, dir, src);
    NothingInFile(fits, depth, nacc, nrej, dir, src);
    hide Residues, NoneStuck, FoundBelow;
  }

  lemma EntryFails(fits: Fits, t: Tree, maxdepth: nat, incl: seq<Pattern>, excl: seq<Pattern>, i: nat)
    requires t.Dir? && i < |t.entries|
    ensures FailsAt(fits, t, maxdepth, incl, excl, i) <==>
            (NoneStuck(incl) && NoneStuck(excl) ==>
              var nrej := Residues(fits, excl, t.entries[i].0);
              var nacc := if [] in nrej then [] else Residues(fits, incl, t.entries[i].0);
              nacc != [] && t.entries[i].1.Dir? && maxdepth > 0
              && Fails(fits, t.entries[i].1, maxdepth - 1, nacc, nrej))
  {
    hide Residues, NoneStuck, Fails;
    if t.entries[i].1.File? && maxdepth > 0 && NoneStuck(incl) && NoneStuck(excl) {
      FilesNeverFail(fits, maxdepth - 1, Residues(fits, incl, t.entries[i].0), Residues(fits, excl, t.entries[i].0));
    }
  }

  lemma FilesNeverFail(fits: Fits, maxdepth: nat, incl: seq<Pattern>, excl: seq<Pattern>)
    ensures !Fails(fits, File, maxdepth, incl, excl)
  {}

  /** `ant_iter` over one directory. */
  method AntIter(fits: Fits, t: Tree, maxdepth: nat, incl: seq<Pattern>, excl: seq<Pattern>, dir: bool, src: bool)
    returns (r: Result<seq<Path>>)
    requires t.Dir? && WellFormed(t)
    ensures r.AttributeError? <==> Fails(fits, t, maxdepth, incl, excl)
    ensures r.Success? ==> FoundBelow(fits, t, maxdepth, incl, excl, dir, src, r.value)
    decreases maxdepth, 1
  {
    var found: seq<Path> := [];
    ghost var names: set<string> := {};
    NoEntries(fits, t, maxdepth, incl, excl, dir, src);
    hide *;
    for i := 0 to |t.entries|
      invariant NamesOf(t, i, names)
      invariant NoneFails(fits, t, maxdepth, incl, excl, i)
      invariant Exactly(fits, t, maxdepth, incl, excl, dir, src, names, found)
    {
      var here := Entry(fits, t, maxdepth, incl, excl, dir, src, i);
      if here.AttributeError? {
        FailsFrom(fits, t, maxdepth, incl, excl, i);
        return AttributeError;
      }
      OneMorePasses(fits, t, maxdepth, incl, excl, i);
      OneMoreName(t, i, names);
      Together(fits, t, maxdepth, incl, excl, dir, src, names, found, t.entries[i].0, here.value);
      found := found + here.value;
      names := names + {t.entries[i].0};
    }
    NoEntryFails(fits, t, maxdepth, incl, excl);
    AllEntries(fits, t, maxdepth, incl, excl, dir, src, names, found);
    return Success(found);
  }

  /** The names of the first i entries. */
  ghost predicate NamesOf(t: Tree, i: nat, names: set<string>) {
    && t.Dir? && i <= |t.entries|
    && (forall k :: 0 <= k < i ==> t.entries[k].0 in names)
    && (forall name :: name in names ==> exists k :: 0 <= k < i && t.entries[k].0 == name)
  }

  lemma NoEntries(fits: Fits, t: Tree, maxdepth: nat, incl: seq<Pattern>, excl: seq<Pattern>, dir: bool, src: bool)
    requires t.Dir?
    ensures NamesOf(t, 0, {}) && Exactly(fits, t, maxdepth, incl, excl, dir, src, {}, [])
    ensures NoneFails(fits, t, maxdepth, incl, excl, 0)
  {}

  lemma OneMoreName(t: Tree, i: nat, names: set<string>)
    requires t.Dir? && WellFormed(t) && i < |t.entries| && NamesOf(t, i, names)
    ensures t.entries[i].0 !in names && NamesOf(t, i + 1, names + {t.entries[i].0})
  {}

  lemma AllEntries(fits: Fits, t: Tree, maxdepth: nat, incl: seq<Pattern>, excl: seq<Pattern>, dir: bool, src: bool,
                   names: set<string>, found: seq<Path>)
    requires t.Dir? && Exactly(fits, t, maxdepth, incl, excl, dir, src, names, found)
    requires NamesOf(t, |t.entries|, names)
    ensures FoundBelow(fits, t, maxdepth, incl, excl, dir, src, found)
  {}

  lemma Together(fits: Fits, t: Tree, maxdepth: nat, incl: seq<Pattern>, excl: seq<Pattern>, dir: bool, src: bool,
                 names: set<string>, found: seq<Path>, name: string, here: seq<Path>)
    requires Exactly(fits, t, maxdepth, incl, excl, dir, src, names, found) && name !in names
    requires Exactly(fits, t, maxdepth, incl, excl, dir, src, {name}, here)
    ensures Exactly(fits, t, maxdepth, incl, excl, dir, src, names + {name}, found + here)
  {
    hide Wanted;
    var all := found + here;
    forall i, j | 0 <= i < j < |all| ensures all[i] != all[j] {
      if i < |found| <= j {
        assert all[i] in found && all[j] in here;
      }
    }
  }

  /** `ant_glob`: the files below a directory, to a depth of 26 names, that the include patterns match
      and that are not below, and are not themselves, something the exclude patterns match. */
  method AntGlob(fits: Fits, t: Tree, incl: seq<Pattern>, excl: seq<Pattern>, dir: bool, src: bool)
    returns (r: Result<seq<Path>>)
    requires t.Dir? && WellFormed(t)
    ensures r.AttributeError? <==> Fails(fits, t, 25, incl, excl)
    ensures AllPlain(incl) && AllPlain(excl) ==> r.Success?
    ensures r.Success? ==>
              && (forall i, j :: 0 <= i < j < |r.value| ==> r.value[i] != r.value[j])
              && forall path :: path in r.value <==> Wanted(fits, t, 25, incl, excl, dir, src, path)
  {
    if AllPlain(incl) && AllPlain(excl) { PlainNeverFails(fits, t, 25, incl, excl); }
    hide Wanted, AllPlain, Fails;
    r := AntIter(fits, t, 25, incl, excl, dir, src);
  }
}
