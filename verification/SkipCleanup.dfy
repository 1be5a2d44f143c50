/** Cleaning inherited entries out of test-skip lists: a rewriting of a forest of configurations that
    keeps what every configuration skips, in whatever order the files are processed. */
module SkipCleanup {
  import opened Wrappers

  /** A group of skipped tests; `rest` stands for its other keys. */
  datatype Group = Group(rest: string, paths: Option<seq<string>>)

  datatype Config = Config(rest: string, inherit: Option<string>, skips: Option<seq<Group>>)

  type Files = map<string, Config>

  // ----- what a configuration skips -----

  function PathsOf(groups: seq<Group>): (r: set<string>)
    ensures forall p :: p in r <==> exists k :: 0 <= k < |groups| && groups[k].paths.Some? && p in groups[k].paths.value
  {
    if groups == [] then {}
    else
      var rest := PathsOf(groups[1..]);
      assert groups == [groups[0]] + groups[1..];
      if groups[0].paths.Some? then (set p | p in groups[0].paths.value) + rest else rest
  }

  /** The paths in a configuration's own list. */
  function Own(c: Config): (r: set<string>)
  {
    if c.skips.Some? then PathsOf(c.skips.value) else {}
  }

  /** get_inherited_skip_tests: up the chain until it ends, leaves the files or meets a visited one. */
  function Inherited(files: Files, x: string, visited: set<string>): (r: set<string>)
    requires x in files
    decreases files.Keys - visited
  {
    if x in visited then {}
    else
      match files[x].inherit
      case None => {}
      case Some(parent) =>
        if parent !in files then {}
        else
          assert x in files.Keys - visited && x !in files.Keys - (visited + {x});
          Inherited(files, parent, visited + {x}) + Own(files[parent])
  }

  /** The n-th ancestor. */
  function Up(files: Files, x: string, n: nat): (r: Option<string>)
    ensures r.Some? ==> r.value in files
    decreases n
  {
    if x !in files then None
    else if n == 0 then Some(x)
    else if files[x].inherit.None? then None
    else Up(files, files[x].inherit.value, n - 1)
  }

  lemma {:induction false} UpUp(files: Files, x: string, m: nat, n: nat)
    requires Up(files, x, m).Some?
    ensures Up(files, x, m + n) == Up(files, Up(files, x, m).value, n)
    decreases m
  {
    if m > 0 { UpUp(files, files[x].inherit.value, m - 1, n); }
  }

  /** Path p is in the list of an ancestor of x, at least `least` steps up. */
  ghost predicate Skips(files: Files, x: string, least: nat, p: string)
  {
    exists n: nat :: least <= n && Up(files, x, n).Some? && p in Own(files[Up(files, x, n).value])
  }

  /** What x is to skip: its own list and all its ancestors'. */
  ghost predicate Effective(files: Files, x: string, p: string)
  {
    Skips(files, x, 0, p)
  }

  lemma {:induction false} InheritedSound(files: Files, x: string, visited: set<string>, p: string)
    requires x in files && p in Inherited(files, x, visited)
    ensures Skips(files, x, 1, p)
    decreases files.Keys - visited
  {
    var parent := files[x].inherit.value;
    assert Up(files, x, 1) == Up(files, parent, 0) == Some(parent);
    if p !in Own(files[parent]) {
      assert x in files.Keys - visited && x !in files.Keys - (visited + {x});
      InheritedSound(files, parent, visited + {x}, p);
      var n: nat :| 1 <= n && Up(files, parent, n).Some? && p in Own(files[Up(files, parent, n).value]);
      assert Up(files, x, n + 1) == Up(files, parent, n);
    }
  }

  /** An ancestor's list is collected unless the walk to it meets a visited configuration. */
  lemma {:induction false} InheritedComplete(files: Files, x: string, visited: set<string>, n: nat)
    requires x in files && x !in visited && n >= 1 && Up(files, x, n).Some?
    requires forall i :: 0 < i < n && Up(files, x, i).Some? ==> Up(files, x, i).value !in visited
    ensures Own(files[Up(files, x, n).value]) <= Inherited(files, x, visited)
    decreases n
  {
    var parent := files[x].inherit.value;
    assert forall i: nat :: Up(files, x, i + 1) == Up(files, parent, i);
    assert Up(files, x, 1) == Up(files, parent, 0);
    if n > 1 {
      if i: nat :| 0 < i < n && Up(files, x, i) == Some(x) {
        UpUp(files, x, i, n - i);
        InheritedComplete(files, x, visited, n - i);
      } else {
        UpUp(files, x, 1, n - 1);
        assert Up(files, x, n).Some?;
        assert parent in files && Up(files, x, 1) == Some(parent);
        forall i | 0 < i < n - 1 && Up(files, parent, i).Some? ensures Up(files, parent, i).value !in visited + {x} {
          assert Up(files, x, i + 1) == Up(files, parent, i);
        }
        InheritedComplete(files, parent, visited + {x}, n - 1);
      }
    }
  }

  /** The recursion with its visited set collects exactly the lists of all ancestors, on cyclic
      inheritance too. */
  lemma InheritedIsAncestors(files: Files, x: string, p: string)
    requires x in files
    ensures p in Inherited(files, x, {}) <==> Skips(files, x, 1, p)
  {
    if p in Inherited(files, x, {}) { InheritedSound(files, x, {}, p); }
    if Skips(files, x, 1, p) {
      var n: nat :| 1 <= n && Up(files, x, n).Some? && p in Own(files[Up(files, x, n).value]);
      InheritedComplete(files, x, {}, n);
    }
  }

  // ----- cleaning one configuration -----

  function Without(paths: seq<string>, gone: set<string>): (r: seq<string>)
    ensures forall p :: p in r <==> p in paths && p !in gone
  {
    if paths == [] then []
    else (if paths[0] in gone then [] else [paths[0]]) + Without(paths[1..], gone)
  }

  function CleanGroups(groups: seq<Group>, gone: set<string>): (r: seq<Group>)
  {
    if groups == [] then [] else CleanGroup(groups[0], gone) + CleanGroups(groups[1..], gone)
  }

  /** A group without paths stays; one that loses all its paths goes. */
  function CleanGroup(g: Group, gone: set<string>): (r: seq<Group>)
  {
    if g.paths.None? then [g]
    else
      var kept := Without(g.paths.value, gone);
      if kept == [] then [] else [g.(paths := Some(kept))]
  }

  /** Is there an inherited path to remove? */
  predicate Redundant(c: Config, gone: set<string>)
  {
    exists p :: p in Own(c) && p in gone
  }

  function Clean(c: Config, gone: set<string>): (r: Config)
    ensures r.inherit == c.inherit && r.rest == c.rest
  {
    if c.skips.None? || c.inherit.None? || !Redundant(c, gone) then c
    else
      var groups := CleanGroups(c.skips.value, gone);
      c.(skips := if groups == [] then None else Some(groups))
  }

  lemma {:induction false} CleanGroupsPaths(groups: seq<Group>, gone: set<string>)
    ensures PathsOf(CleanGroups(groups, gone)) == PathsOf(groups) - gone
  {
    if groups != [] {
      hide PathsOf, CleanGroup;
      CleanGroupsPaths(groups[1..], gone);
      PathsAppend(CleanGroup(groups[0], gone), CleanGroups(groups[1..], gone));
      PathsAppend([groups[0]], groups[1..]);
      assert [groups[0]] + groups[1..] == groups;
      CleanGroupPaths(groups[0], gone);
    }
  }

  lemma CleanGroupPaths(g: Group, gone: set<string>)
    ensures PathsOf(CleanGroup(g, gone)) == PathsOf([g]) - gone
  {
    hide PathsOf;
    OnePath(g);
    if g.paths.Some? {
      var kept := Without(g.paths.value, gone);
      assert forall p :: p in kept <==> p in g.paths.value && p !in gone;
      if kept != [] {
        OnePath(g.(paths := Some(kept)));
      } else {
        assert forall p :: p !in kept;
      }
    }
  }

  lemma OnePath(g: Group)
    ensures forall p :: p in PathsOf([g]) <==> g.paths.Some? && p in g.paths.value
  {
    assert [g][0] == g;
  }

  lemma PathsAppend(a: seq<Group>, b: seq<Group>)
    ensures PathsOf(a + b) == PathsOf(a) + PathsOf(b)
  {
    assert forall k :: 0 <= k < |a| ==> (a + b)[k] == a[k];
    assert forall k :: 0 <= k < |b| ==> (a + b)[|a| + k] == b[k];
    forall p | p in PathsOf(a) + PathsOf(b) ensures p in PathsOf(a + b) {
      if p in PathsOf(a) {
        var k :| 0 <= k < |a| && a[k].paths.Some? && p in a[k].paths.value;
        assert (a + b)[k] == a[k];
      } else {
        var k :| 0 <= k < |b| && b[k].paths.Some? && p in b[k].paths.value;
        assert (a + b)[|a| + k] == b[k];
      }
    }
    forall p | p in PathsOf(a + b) ensures p in PathsOf(a) + PathsOf(b) {
      var k :| 0 <= k < |a + b| && (a + b)[k].paths.Some? && p in (a + b)[k].paths.value;
      if k < |a| { assert a[k].paths.Some?; } else { assert b[k - |a|].paths.Some?; }
    }
  }

  /** Cleaning removes exactly the inherited paths, and cleaning again changes nothing. */
  lemma CleanIs(c: Config, gone: set<string>)
    requires c.inherit.Some? || gone == {}
    ensures Own(Clean(c, gone)) == Own(c) - gone
    ensures Clean(Clean(c, gone), gone) == Clean(c, gone)
  {
    if c.skips.Some? { CleanGroupsPaths(c.skips.value, gone); }
  }

  /** Cleaning keeps the groups without paths, in order. */
  function Pathless(groups: seq<Group>): (r: seq<Group>)
  {
    if groups == [] then [] else IfPathless(groups[0]) + Pathless(groups[1..])
  }

  function IfPathless(g: Group): (r: seq<Group>)
  {
    if g.paths.None? then [g] else []
  }

  lemma {:induction false} PathlessAppend(a: seq<Group>, b: seq<Group>)
    ensures Pathless(a + b) == Pathless(a) + Pathless(b)
  {
    hide IfPathless;
    if a == [] {
      assert a + b == b;
    } else {
      assert (a + b)[0] == a[0] && (a + b)[1..] == a[1..] + b;
      PathlessAppend(a[1..], b);
    }
  }

  lemma {:induction false} PathlessKept(groups: seq<Group>, gone: set<string>)
    ensures Pathless(CleanGroups(groups, gone)) == Pathless(groups)
  {
    if groups != [] {
      PathlessKept(groups[1..], gone);
      PathlessAppend(CleanGroup(groups[0], gone), CleanGroups(groups[1..], gone));
      assert Pathless([]) == [];
      var one := CleanGroup(groups[0], gone);
      if one != [] { assert one[1..] == []; }
    }
  }

  // ----- what is left of a configuration -----

  ghost predicate Increasing(at: seq<nat>)
  {
    forall j, k :: 0 <= j < k < |at| ==> at[j] < at[k]
  }

  /** The kept paths stand at these places of the original ones. */
  ghost predicate PathsAt(paths: seq<string>, at: seq<nat>, kept: seq<string>)
  {
    |kept| == |at| && forall j :: 0 <= j < |at| ==> at[j] < |paths| && kept[j] == paths[at[j]]
  }

  /** They are the places of the paths that are not inherited. */
  ghost predicate NotGone(paths: seq<string>, gone: set<string>, at: seq<nat>)
  {
    forall k :: 0 <= k < |paths| ==> (paths[k] !in gone <==> k in at)
  }

  /** The kept paths are the original ones that are not inherited: all of them, in order and as often as they
      occur. */
  ghost predicate Sifted(paths: seq<string>, gone: set<string>, at: seq<nat>, kept: seq<string>)
  {
    Increasing(at) && PathsAt(paths, at, kept) && NotGone(paths, gone, at)
  }

  /** The group keeps its other keys, and has no paths as before or those that are not inherited. */
  ghost predicate Trimmed(g: Group, gone: set<string>, g': Group)
  {
    g'.rest == g.rest &&
    match g.paths
    case None => g'.paths.None?
    case Some(paths) => g'.paths.Some? && exists at :: Sifted(paths, gone, at, g'.paths.value)
  }

  /** A group stays if it has no paths or one that is not inherited. */
  ghost predicate Stays(g: Group, gone: set<string>)
  {
    g.paths.Some? ==> exists p :: p in g.paths.value && p !in gone
  }

  /** The groups left over stand at these places of the original ones, each trimmed. */
  ghost predicate TrimmedAt(groups: seq<Group>, gone: set<string>, at: seq<nat>, kept: seq<Group>)
  {
    |kept| == |at| && forall j :: 0 <= j < |at| ==> at[j] < |groups| && Trimmed(groups[at[j]], gone, kept[j])
  }

  /** They are the places of the groups that stay. */
  ghost predicate Stayers(groups: seq<Group>, gone: set<string>, at: seq<nat>)
  {
    forall k :: 0 <= k < |groups| ==> (Stays(groups[k], gone) <==> k in at)
  }

  /** The groups left over are those of the original that stay, in order, each trimmed. */
  ghost predicate Survive(groups: seq<Group>, gone: set<string>, at: seq<nat>, kept: seq<Group>)
  {
    Increasing(at) && TrimmedAt(groups, gone, at, kept) && Stayers(groups, gone, at)
  }

  /** An index map of the rest, one place further. */
  function Shifted(at: seq<nat>): (r: seq<nat>)
  {
    seq(|at|, j requires 0 <= j < |at| => at[j] + 1)
  }

  lemma ShiftedIn(at: seq<nat>, k: nat)
    ensures k > 0 ==> (k in Shifted(at) <==> k - 1 in at)
    ensures 0 !in Shifted(at)
  {
    if k > 0 && k - 1 in at {
      var j :| 0 <= j < |at| && at[j] == k - 1;
      assert Shifted(at)[j] == k;
    }
  }

  lemma ShiftedIncreases(at: seq<nat>)
    requires Increasing(at)
    ensures Increasing([] + Shifted(at)) && Increasing([0] + Shifted(at))
  {
    hide Increasing;
    assert [] + Shifted(at) == Shifted(at);
    StillIncreasing(at);
    ZeroFirst(Shifted(at));
  }

  lemma StillIncreasing(at: seq<nat>)
    requires Increasing(at)
    ensures Increasing(Shifted(at))
  {
    forall j, k | 0 <= j < k < |at| ensures Shifted(at)[j] < Shifted(at)[k] {
      assert at[j] < at[k];
    }
  }

  lemma ZeroFirst(at: seq<nat>)
    requires Increasing(at) && forall k :: 0 <= k < |at| ==> at[k] > 0
    ensures Increasing([0] + at)
  {
    forall j, k | 0 <= j < k < |[0] + at| ensures ([0] + at)[j] < ([0] + at)[k] {
      if j > 0 { assert at[j - 1] < at[k - 1]; }
    }
  }

  lemma {:induction false} WithoutSifts(paths: seq<string>, gone: set<string>) returns (at: seq<nat>)
    ensures Sifted(paths, gone, at, Without(paths, gone))
  {
    hide Increasing, PathsAt, NotGone;
    at := [];
    if paths == [] {
      NothingSifted(gone);
    } else {
      var rest := WithoutSifts(paths[1..], gone);
      var here := if paths[0] in gone then [] else [0];
      ShiftedIncreases(rest);
      MorePathsAt(paths, rest, here, Without(paths[1..], gone));
      MoreNotGone(paths, gone, rest);
      at := here + Shifted(rest);
    }
  }

  lemma NothingSifted(gone: set<string>)
    ensures Sifted([], gone, [], [])
  {
  }

  lemma MorePathsAt(paths: seq<string>, at: seq<nat>, here: seq<nat>, kept: seq<string>)
    requires paths != [] && PathsAt(paths[1..], at, kept) && (here == [] || here == [0])
    ensures PathsAt(paths, here + Shifted(at), (if here == [] then [] else [paths[0]]) + kept)
  {
    var all, more := here + Shifted(at), (if here == [] then [] else [paths[0]]) + kept;
    forall j | 0 <= j < |all| ensures all[j] < |paths| && more[j] == paths[all[j]] {
      if j >= |here| { assert all[j] == at[j - |here|] + 1 && more[j] == kept[j - |here|]; }
    }
  }

  lemma MoreNotGone(paths: seq<string>, gone: set<string>, at: seq<nat>)
    requires paths != [] && NotGone(paths[1..], gone, at)
    ensures NotGone(paths, gone, (if paths[0] in gone then [] else [0]) + Shifted(at))
  {
    hide Shifted;
    var all := (if paths[0] in gone then [] else [0]) + Shifted(at);
    forall k | 0 <= k < |paths| ensures paths[k] !in gone <==> k in all {
      ShiftedIn(at, k);
      if k > 0 { assert paths[k] == paths[1..][k - 1]; }
    }
  }

  lemma {:induction false} GroupsSurvive(groups: seq<Group>, gone: set<string>) returns (at: seq<nat>)
    ensures Survive(groups, gone, at, CleanGroups(groups, gone))
  {
    hide CleanGroup, Increasing, TrimmedAt, Stayers, Stays, Trimmed;
    at := [];
    if groups == [] {
      NothingSurvives(gone);
    } else {
      var rest := GroupsSurvive(groups[1..], gone);
      var here, first := if Stays(groups[0], gone) then [0] else [], CleanGroup(groups[0], gone);
      GroupSurvives(groups[0], gone);
      ShiftedIncreases(rest);
      MoreTrimmed(groups, gone, rest, here, first, CleanGroups(groups[1..], gone));
      MoreStayers(groups, gone, rest);
      at := here + Shifted(rest);
    }
  }

  lemma NothingSurvives(gone: set<string>)
    ensures Survive([], gone, [], [])
  {
  }

  lemma GroupSurvives(g: Group, gone: set<string>)
    ensures var r := CleanGroup(g, gone);
            if Stays(g, gone) then |r| == 1 && Trimmed(g, gone, r[0]) else r == []
  {
    hide Sifted;
    if g.paths.Some? {
      var at := WithoutSifts(g.paths.value, gone);
      var kept := Without(g.paths.value, gone);
      if kept != [] { assert kept[0] in kept; }
    }
  }

  lemma MoreTrimmed(groups: seq<Group>, gone: set<string>, at: seq<nat>, here: seq<nat>, first: seq<Group>,
                    kept: seq<Group>)
    requires groups != [] && TrimmedAt(groups[1..], gone, at, kept)
    requires (here == [] && first == []) || (here == [0] && |first| == 1 && Trimmed(groups[0], gone, first[0]))
    ensures TrimmedAt(groups, gone, here + Shifted(at), first + kept)
  {
    hide Trimmed;
    var all, more := here + Shifted(at), first + kept;
    forall j | 0 <= j < |all| ensures all[j] < |groups| && Trimmed(groups[all[j]], gone, more[j]) {
      if j >= |here| {
        assert all[j] == at[j - |here|] + 1 && more[j] == kept[j - |here|];
        assert groups[all[j]] == groups[1..][at[j - |here|]];
      }
    }
  }

  lemma MoreStayers(groups: seq<Group>, gone: set<string>, at: seq<nat>)
    requires groups != [] && Stayers(groups[1..], gone, at)
    ensures Stayers(groups, gone, (if Stays(groups[0], gone) then [0] else []) + Shifted(at))
  {
    hide Stays, Shifted;
    var all := (if Stays(groups[0], gone) then [0] else []) + Shifted(at);
    forall k | 0 <= k < |groups| ensures Stays(groups[k], gone) <==> k in all {
      ShiftedIn(at, k);
      if k > 0 { assert groups[k] == groups[1..][k - 1]; }
    }
  }

  /** Cleaning a configuration that lists an inherited path leaves the groups that have no paths or others,
      in order, with their other keys and with the paths that are not inherited; the list goes when no group
      is left. Any other configuration is left as it is. */
  lemma CleanLeaves(c: Config, gone: set<string>) returns (at: seq<nat>)
    ensures var r := Clean(c, gone);
            if c.skips.Some? && c.inherit.Some? && exists p :: p in Own(c) && p in gone then
              r.rest == c.rest && r.inherit == c.inherit && (r.skips.None? <==> at == []) &&
              Survive(c.skips.value, gone, at, if r.skips.Some? then r.skips.value else [])
            else r == c
  {
    hide Survive, CleanGroups;
    at := [];
    if c.skips.Some? {
      at := GroupsSurvive(c.skips.value, gone);
      SurviveLength(c.skips.value, gone, at, CleanGroups(c.skips.value, gone));
    }
  }

  lemma SurviveLength(groups: seq<Group>, gone: set<string>, at: seq<nat>, kept: seq<Group>)
    ensures Survive(groups, gone, at, kept) ==> |kept| == |at|
  {
  }

  // ----- cleaning in a forest -----

  /** cleanup_config; a file that cannot be loaded is left alone. */
  function Cleanup(files: Files, x: string): (r: Files)
    ensures r.Keys == files.Keys
  {
    if x !in files then files else files[x := Clean(files[x], Inherited(files, x, {}))]
  }

  ghost predicate SameShape(a: Files, b: Files)
  {
    a.Keys == b.Keys && forall x :: x in a ==> a[x].inherit == b[x].inherit
  }

  lemma {:induction false} SameUp(a: Files, b: Files, x: string, n: nat)
    requires SameShape(a, b)
    ensures Up(a, x, n) == Up(b, x, n)
    decreases n
  {
    if x in a && n > 0 && a[x].inherit.Some? { SameUp(a, b, a[x].inherit.value, n - 1); }
  }

  ghost predicate Acyclic(files: Files)
  {
    forall x, n: nat :: n > 0 ==> Up(files, x, n) != Some(x)
  }

  /** What one cleaning does to the lists. */
  lemma CleanupOwn(files: Files, x: string)
    requires x in files
    ensures SameShape(files, Cleanup(files, x))
    ensures forall y :: y in files && y != x ==> Cleanup(files, x)[y] == files[y]
    ensures forall p :: p in Own(Cleanup(files, x)[x]) <==> p in Own(files[x]) && !Skips(files, x, 1, p)
  {
    var gone := Inherited(files, x, {});
    CleanIs(files[x], gone);
    forall p ensures p in gone <==> Skips(files, x, 1, p) { InheritedIsAncestors(files, x, p); }
  }

  /** Another ancestor of x has p. */
  ghost predicate Elsewhere(files: Files, x: string, p: string)
  {
    exists n: nat ::
      n > 0 && Up(files, x, n).Some? && Up(files, x, n).value != x && p in Own(files[Up(files, x, n).value])
  }

  /** Every path that cleaning x drops is kept further up, in a configuration other than x. */
  ghost predicate Covered(files: Files, x: string)
    requires x in files
  {
    forall p :: p in Own(files[x]) && Skips(files, x, 1, p) ==> Elsewhere(files, x, p)
  }

  /** A path found from z upward, at least `least` steps up, is still found after cleaning x. */
  lemma StillSkips(files: Files, x: string, z: string, least: nat, p: string)
    requires x in files && Covered(files, x) && Skips(files, z, least, p)
    ensures Skips(Cleanup(files, x), z, least, p)
  {
    hide Cleanup, Own, Up;
    var after := Cleanup(files, x);
    CleanupOwn(files, x);
    var n: nat :| least <= n && Up(files, z, n).Some? && p in Own(files[Up(files, z, n).value]);
    var m := n;
    if Up(files, z, n).value == x && p !in Own(after[x]) {
      var k: nat :| k > 0 && Up(files, x, k).Some? && Up(files, x, k).value != x &&
      p in Own(files[Up(files, x, k).value]);
      UpUp(files, z, n, k);
      m := n + k;
    }
    SameUp(files, after, z, m);
    assert Up(after, z, m) == Up(files, z, m) && p in Own(after[Up(files, z, m).value]);
  }

  lemma StillAbsent(files: Files, x: string, z: string, least: nat, p: string)
    requires x in files && Skips(Cleanup(files, x), z, least, p)
    ensures Skips(files, z, least, p)
  {
    var after := Cleanup(files, x);
    CleanupOwn(files, x);
    var n: nat :| least <= n && Up(after, z, n).Some? && p in Own(after[Up(after, z, n).value]);
    SameUp(files, after, z, n);
    assert Up(files, z, n).value in files;
  }

  ghost predicate SameMeaning(a: Files, b: Files)
  {
    forall z, p :: z in a ==> (Effective(a, z, p) <==> Effective(b, z, p))
  }

  /** Cleaning one configuration keeps what every configuration skips exactly when each dropped path
      stays in some other configuration up the chain. */
  lemma CleanupPreservesIff(files: Files, x: string)
    requires x in files
    ensures SameMeaning(files, Cleanup(files, x)) <==> Covered(files, x)
  {
    hide Clean, Inherited;
    var after := Cleanup(files, x);
    if Covered(files, x) {
      forall z, p | z in files ensures Effective(files, z, p) <==> Effective(after, z, p) {
        if Effective(files, z, p) { StillSkips(files, x, z, 0, p); }
        if Effective(after, z, p) { StillAbsent(files, x, z, 0, p); }
      }
    }
    if SameMeaning(files, after) {
      CleanupOwn(files, x);
      forall p | p in Own(files[x]) && Skips(files, x, 1, p) ensures Elsewhere(files, x, p) {
        assert Up(files, x, 0) == Some(x);
        assert Effective(files, x, p);
        assert Effective(after, x, p);
        var n: nat :| Up(after, x, n).Some? && p in Own(after[Up(after, x, n).value]);
        SameUp(files, after, x, n);
        assert p in Own(files[Up(files, x, n).value]);
      }
    }
  }

  lemma AcyclicCovered(files: Files, x: string)
    requires Acyclic(files) && x in files
    ensures Covered(files, x)
  {
    forall p | p in Own(files[x]) && Skips(files, x, 1, p) ensures Elsewhere(files, x, p) {
      var n: nat :| 1 <= n && Up(files, x, n).Some? && p in Own(files[Up(files, x, n).value]);
      assert Up(files, x, n) != Some(x);
    }
  }

  /** A configuration on an inheritance cycle inherits its own list, and cleaning erases it whole. */
  lemma CycleErases(files: Files, x: string, n: nat)
    requires x in files && n > 0 && Up(files, x, n) == Some(x)
    ensures Own(Cleanup(files, x)[x]) == {}
  {
    CleanupOwn(files, x);
    forall p | p in Own(files[x]) ensures Skips(files, x, 1, p) {
      assert 1 <= n && Up(files, x, n).Some? && p in Own(files[Up(files, x, n).value]);
    }
  }

  // ----- runs -----

  /** Clean the given files one after the other. */
  function Run(files: Files, order: seq<string>): (r: Files)
    ensures r.Keys == files.Keys
  {
    if order == [] then files else Run(Cleanup(files, order[0]), order[1..])
  }

  /** All at once: every listed file is cleaned by what it inherits in the files as they were. */
  function CleanAll(files: Files, which: set<string>): (r: Files)
    ensures r.Keys == files.Keys
  {
    map x | x in files :: if x in which then Clean(files[x], Inherited(files, x, {})) else files[x]
  }

  lemma CleanupKeeps(files: Files, x: string)
    requires Acyclic(files)
    ensures Acyclic(Cleanup(files, x)) && SameMeaning(files, Cleanup(files, x))
    ensures forall z :: z in files ==> Inherited(Cleanup(files, x), z, {}) == Inherited(files, z, {})
  {
    hide Clean, Inherited, Covered;
    var after := Cleanup(files, x);
    if x in files {
      CleanupOwn(files, x);
      AcyclicCovered(files, x);
      CleanupPreservesIff(files, x);
      forall y, n: nat | n > 0 ensures Up(after, y, n) != Some(y) { SameUp(files, after, y, n); }
      forall z | z in files ensures Inherited(after, z, {}) == Inherited(files, z, {}) {
        forall p ensures p in Inherited(after, z, {}) <==> p in Inherited(files, z, {}) {
          InheritedIsAncestors(files, z, p);
          InheritedIsAncestors(after, z, p);
          if Skips(files, z, 1, p) { StillSkips(files, x, z, 1, p); }
          if Skips(after, z, 1, p) { StillAbsent(files, x, z, 1, p); }
        }
      }
    }
  }

  lemma NoInheritance(files: Files, x: string)
    requires x in files
    ensures files[x].inherit.Some? || Inherited(files, x, {}) == {}
  {
  }

  /** A run of cleanings is the cleaning of all its files at once, whatever the order and however
      often a file comes up. */
  lemma {:induction false} RunIsCleanAll(files: Files, order: seq<string>)
    requires Acyclic(files)
    ensures Run(files, order) == CleanAll(files, set x | x in order)
    ensures Acyclic(Run(files, order)) && SameMeaning(files, Run(files, order))
    ensures forall z :: z in files ==> Inherited(Run(files, order), z, {}) == Inherited(files, z, {})
    decreases |order|
  {
    hide Clean, Inherited, Acyclic, Effective;
    if order != [] {
      var x, next := order[0], Cleanup(files, order[0]);
      CleanupKeeps(files, x);
      RunIsCleanAll(next, order[1..]);
      forall z | z in files ensures CleanAll(next, set y | y in order[1..])[z] ==
          CleanAll(files, set y | y in order)[z] {
        assert z in order <==> z == x || z in order[1..];
        if z == x {
          NoInheritance(files, x);
          CleanIs(files[x], Inherited(files, x, {}));
        }
      }
    }
  }

  /** The final files depend only on which files were processed. */
  lemma OrderDoesNotMatter(files: Files, order: seq<string>, other: seq<string>)
    requires Acyclic(files) && forall x :: x in order <==> x in other
    ensures Run(files, order) == Run(files, other)
  {
    RunIsCleanAll(files, order);
    RunIsCleanAll(files, other);
    assert (set x | x in order) == (set x | x in other);
  }

  /** A processed configuration keeps no path that an ancestor has, and every path none of them has. */
  lemma NothingRedundant(files: Files, order: seq<string>, x: string, p: string)
    requires Acyclic(files) && x in files && x in order
    ensures p in Own(Run(files, order)[x]) <==> p in Own(files[x]) && !Skips(Run(files, order), x, 1, p)
  {
    RunIsCleanAll(files, order);
    NoInheritance(files, x);
    CleanIs(files[x], Inherited(files, x, {}));
    InheritedIsAncestors(Run(files, order), x, p);
  }

  /** Two files that inherit from each other lose their lists. */
  lemma CycleLosesMeaning(rest: string, p: string)
    ensures var files := map["a" := Config(rest, Some("b"), Some([Group(rest, Some([p]))])),
                             "b" := Config(rest, Some("a"), None)];
            Effective(files, "a", p) && !SameMeaning(files, Cleanup(files, "a"))
  {
    var files := map["a" := Config(rest, Some("b"), Some([Group(rest, Some([p]))])),
                     "b" := Config(rest, Some("a"), None)];
    var after := Cleanup(files, "a");
    assert Up(files, "a", 0) == Some("a");
    assert Up(files, "a", 2) == Up(files, "b", 1) == Up(files, "a", 0);
    assert p in Own(files["a"]) by { OnePath(Group(rest, Some([p]))); }
    CycleErases(files, "a", 2);
    assert Effective(files, "a", p);
    CleanupOwn(files, "a");
    assert Own(after["b"]) == {};
    assert !Effective(after, "a", p);
  }

  // ----- runs on any inheritance, cyclic or not -----

  ghost predicate OnCycle(files: Files, x: string)
  {
    exists n: nat :: n > 0 && Up(files, x, n) == Some(x)
  }

  /** y is x or one of its ancestors. */
  ghost predicate Above(files: Files, x: string, y: string)
  {
    exists n: nat :: Up(files, x, n) == Some(y)
  }

  /** Each path of a processed file on a cycle is also in a file up its chain that is not processed. */
  ghost predicate Kept(files: Files, order: seq<string>)
  {
    forall x, p :: x in files && x in order && OnCycle(files, x) && p in Own(files[x]) ==> KeptAbove(files, order, x, p)
  }

  ghost predicate KeptAbove(files: Files, order: seq<string>, x: string, p: string)
  {
    exists y :: y in files && y !in order && Above(files, x, y) && p in Own(files[y])
  }

  /** A file off every cycle is covered. */
  lemma OffCycleCovered(files: Files, x: string)
    requires x in files && !OnCycle(files, x)
    ensures Covered(files, x)
  {
    forall p | p in Own(files[x]) && Skips(files, x, 1, p) ensures Elsewhere(files, x, p) {
      var n: nat :| 1 <= n && Up(files, x, n).Some? && p in Own(files[Up(files, x, n).value]);
      assert Up(files, x, n) != Some(x);
    }
  }

  lemma KeptCovered(files: Files, order: seq<string>, x: string)
    requires x in files && x in order && Kept(files, order)
    ensures Covered(files, x)
  {
    if OnCycle(files, x) {
      forall p | p in Own(files[x]) && Skips(files, x, 1, p) ensures Elsewhere(files, x, p) {
        assert KeptAbove(files, order, x, p);
        var y :| y in files && y !in order && Above(files, x, y) && p in Own(files[y]);
        var n: nat :| Up(files, x, n) == Some(y);
        assert n > 0;
      }
    } else {
      OffCycleCovered(files, x);
    }
  }

  /** A run changes no shape and no file that it does not process; lists only shrink. */
  lemma {:induction false} RunTouches(files: Files, order: seq<string>)
    ensures SameShape(files, Run(files, order))
    ensures forall y :: y in files && y !in order ==> Run(files, order)[y] == files[y]
    ensures forall y :: y in files ==> Own(Run(files, order)[y]) <= Own(files[y])
    decreases |order|
  {
    hide Own, Cleanup;
    if order != [] {
      var next := Cleanup(files, order[0]);
      CleanupTouches(files, order[0]);
      RunTouches(next, order[1..]);
      assert forall y :: y !in order ==> y != order[0] && y !in order[1..];
    }
  }

  lemma CleanupTouches(files: Files, x: string)
    ensures SameShape(files, Cleanup(files, x))
    ensures forall y :: y in files && y != x ==> Cleanup(files, x)[y] == files[y]
    ensures forall y :: y in files ==> Own(Cleanup(files, x)[y]) <= Own(files[y])
  {
    hide Own, Skips;
    if x in files { CleanupOwn(files, x); }
  }

  lemma SameCycles(a: Files, b: Files, x: string)
    requires SameShape(a, b)
    ensures OnCycle(a, x) <==> OnCycle(b, x)
    ensures forall y :: Above(a, x, y) <==> Above(b, x, y)
  {
    forall n: nat ensures Up(a, x, n) == Up(b, x, n) { SameUp(a, b, x, n); }
  }

  /** A processed file on a cycle ends up with no path at all. */
  lemma {:induction false} RunErases(files: Files, order: seq<string>, x: string)
    requires x in files && x in order && OnCycle(files, x)
    ensures Own(Run(files, order)[x]) == {}
    decreases |order|
  {
    hide Own, Cleanup;
    var next := Cleanup(files, order[0]);
    CleanupTouches(files, order[0]);
    if order[0] == x {
      var n: nat :| n > 0 && Up(files, x, n) == Some(x);
      CycleErases(files, x, n);
      RunTouches(next, order[1..]);
    } else {
      SameCycles(files, next, x);
      RunErases(next, order[1..], x);
    }
  }

  /** The condition survives the first cleaning of a run. */
  lemma KeptNext(files: Files, order: seq<string>)
    requires order != [] && Kept(files, order)
    ensures Kept(Cleanup(files, order[0]), order[1..])
  {
    hide Own, Cleanup, OnCycle, Above;
    var next := Cleanup(files, order[0]);
    CleanupTouches(files, order[0]);
    forall x, p | x in next && x in order[1..] && OnCycle(next, x) &&
    p in Own(next[x]) ensures KeptAbove(next, order[1..], x, p) {
      SameCycles(files, next, x);
      assert KeptAbove(files, order, x, p);
      var y :| y in files && y !in order && Above(files, x, y) && p in Own(files[y]);
      assert next[y] == files[y] && y !in order[1..];
    }
  }

  lemma {:induction false} KeptPreserves(files: Files, order: seq<string>)
    requires Kept(files, order)
    ensures SameMeaning(files, Run(files, order))
    decreases |order|
  {
    hide Cleanup, Kept, Effective;
    if order != [] {
      var next := Cleanup(files, order[0]);
      KeptNext(files, order);
      KeptPreserves(next, order[1..]);
      assert SameMeaning(files, next) by {
        if order[0] in files {
          KeptCovered(files, order, order[0]);
          CleanupPreservesIff(files, order[0]);
        } else {
          assert next == files by { Missing(files, order[0]); }
        }
      }
      CleanupTouches(files, order[0]);
    }
  }

  lemma Missing(files: Files, x: string)
    requires x !in files
    ensures Cleanup(files, x) == files
  {
  }

  /** Every file above one on a cycle is on it. */
  lemma AboveIsOnCycle(files: Files, x: string, y: string)
    requires OnCycle(files, x) && Above(files, x, y)
    ensures OnCycle(files, y)
  {
    var n: nat :| n > 0 && Up(files, x, n) == Some(x);
    var k: nat :| Up(files, x, k) == Some(y);
    var r := Rounds(files, x, n, k);
    UpUp(files, x, k, r);
    UpUp(files, x, k + r, k);
    UpUp(files, y, r, k);
    assert Up(files, y, r + k) == Some(y) && r + k > 0;
  }

  /** From k steps up a cycle of length n, some further steps lead round to the start. */
  lemma {:induction false} Rounds(files: Files, x: string, n: nat, k: nat) returns (r: nat)
    requires n > 0 && Up(files, x, n) == Some(x)
    ensures r > 0 && Up(files, x, k + r) == Some(x)
    decreases k
  {
    if k < n {
      r := n - k;
    } else {
      r := Rounds(files, x, n, k - n);
      UpUp(files, x, n, k - n + r);
      assert n + (k - n + r) == k + r;
    }
  }

  /** Any run, on any inheritance, keeps what every file skips if and only if each path of a processed
      file on a cycle is also in a file of the cycle that is not processed. */
  lemma RunPreservesIff(files: Files, order: seq<string>)
    ensures SameMeaning(files, Run(files, order)) <==> Kept(files, order)
  {
    if Kept(files, order) { KeptPreserves(files, order); }
    if SameMeaning(files, Run(files, order)) {
      var after := Run(files, order);
      RunTouches(files, order);
      forall x, p | x in files && x in order && OnCycle(files, x) &&
      p in Own(files[x]) ensures KeptAbove(files, order, x, p) {
        assert Up(files, x, 0) == Some(x) && Effective(files, x, p);
        assert Effective(after, x, p);
        var n: nat :| Up(after, x, n).Some? && p in Own(after[Up(after, x, n).value]);
        var y := Up(after, x, n).value;
        SameUp(files, after, x, n);
        assert Above(files, x, y);
        AboveIsOnCycle(files, x, y);
        if y in order { RunErases(files, order, y); }
      }
    }
  }

  /** On acyclic inheritance the condition is void. */
  lemma AcyclicKeeps(files: Files, order: seq<string>)
    requires Acyclic(files)
    ensures Kept(files, order)
  {
  }

  // ----- the script's own loops -----

  lemma {:induction false} WithoutSnoc(paths: seq<string>, p: string, gone: set<string>)
    ensures Without(paths + [p], gone) == Without(paths, gone) + if p in gone then [] else [p]
  {
    if paths == [] {
      assert paths + [p] == [p];
    } else {
      assert (paths + [p])[0] == paths[0] && (paths + [p])[1..] == paths[1..] + [p];
      WithoutSnoc(paths[1..], p, gone);
    }
  }

  lemma {:induction false} CleanGroupsSnoc(groups: seq<Group>, g: Group, gone: set<string>)
    ensures CleanGroups(groups + [g], gone) == CleanGroups(groups, gone) + CleanGroup(g, gone)
  {
    if groups == [] {
      assert groups + [g] == [g];
      assert [g][1..] == [];
    } else {
      assert (groups + [g])[0] == groups[0] && (groups + [g])[1..] == groups[1..] + [g];
      CleanGroupsSnoc(groups[1..], g, gone);
    }
  }

  predicate IsRedundant(files: Files, x: string)
  {
    x in files && Redundant(files[x], Inherited(files, x, {}))
  }

  /** How many files of a run are found to list an inherited path when their turn comes. */
  function Tally(files: Files, order: seq<string>, dryRun: bool): (n: nat)
  {
    if order == [] then 0
    else
      var rest := Tally(if dryRun then files else Cleanup(files, order[0]), order[1..], dryRun);
      if IsRedundant(files, order[0]) then 1 + rest else rest
  }

  /** The configuration files on disk. */
  class Repository {
    var files: Files

    /** The recursion up the chain; `seen` is the shared set of visited files afterwards. */
    method GetInheritedSkipTests(x: string, visited: set<string>) returns (r: set<string>, seen: set<string>)
      requires x in files
      ensures r == Inherited(files, x, visited) && seen >= visited + {x}
      decreases files.Keys - visited
    {
      if x in visited { return {}, visited; }
      seen := visited + {x};
      r := {};
      if files[x].inherit.Some? {
        var parent := files[x].inherit.value;
        if parent in files {
          assert x in files.Keys - visited && x !in files.Keys - seen;
          r, seen := GetInheritedSkipTests(parent, seen);
          if files[parent].skips.Some? {
            r := CollectPaths(files[parent].skips.value, r);
          }
        }
      }
    }

    /** Rewrite one file unless it inherits nothing that it lists; a dry run only reports. */
    method CleanupConfig(x: string, dryRun: bool) returns (changed: bool)
      modifies this
      ensures files == if dryRun then old(files) else Cleanup(old(files), x)
      ensures changed <==> IsRedundant(old(files), x)
      ensures !changed ==> files == old(files)
    {
      if x !in files { return false; }
      var c := files[x];
      NoInheritance(files, x);
      if c.skips.None? || c.inherit.None? { return false; }
      var gone, _ := GetInheritedSkipTests(x, {});
      if gone == {} { return false; }
      var groups;
      changed, groups := FilterGroups(c.skips.value, gone);
      if changed && !dryRun {
        files := files[x := c.(skips := if groups == [] then None else Some(groups))];
      }
    }

    /** The driver: every listed file, in the order given; how many changed. */
    method CleanAllConfigs(order: seq<string>, dryRun: bool) returns (total: nat)
      modifies this
      ensures files == if dryRun then old(files) else Run(old(files), order)
      ensures total == Tally(old(files), order, dryRun)
      ensures total == 0 ==> files == old(files)
    {
      total := 0;
      assert order[0..] == order;
      for k := 0 to |order|
        invariant total + Tally(files, order[k..], dryRun) == Tally(old(files), order, dryRun)
        invariant total == 0 ==> files == old(files)
        invariant if dryRun then files == old(files) else Run(files, order[k..]) == Run(old(files), order)
      {
        var changed := CleanupConfig(order[k], dryRun);
        if changed { total := total + 1; }
        assert order[k..][0] == order[k] && order[k..][1..] == order[k + 1..];
      }
      assert order[|order|..] == [];
    }
  }

  /** The parent's own paths, group by group. */
  method CollectPaths(groups: seq<Group>, above: set<string>) returns (r: set<string>)
    ensures r == above + PathsOf(groups)
  {
    hide PathsOf;
    r := above;
    NoPaths();
    for k := 0 to |groups|
      invariant r == above + PathsOf(groups[..k])
    {
      assert groups[..k + 1] == groups[..k] + [groups[k]];
      PathsAppend(groups[..k], [groups[k]]);
      OnePath(groups[k]);
      if groups[k].paths.Some? {
        r := r + set p | p in groups[k].paths.value;
      }
    }
    assert groups[..|groups|] == groups;
  }

  lemma NoPaths()
    ensures PathsOf([]) == {}
  {
  }

  /** The group loop: what is left of each group, and whether anything was removed. */
  method FilterGroups(groups: seq<Group>, gone: set<string>) returns (changed: bool, kept: seq<Group>)
    ensures kept == CleanGroups(groups, gone)
    ensures changed <==> exists p :: p in PathsOf(groups) && p in gone
  {
    hide CleanGroup;
    changed, kept := false, [];
    for k := 0 to |groups|
      invariant kept == CleanGroups(groups[..k], gone)
      invariant changed <==> exists p :: p in PathsOf(groups[..k]) && p in gone
    {
      assert groups[..k + 1] == groups[..k] + [groups[k]];
      CleanGroupsSnoc(groups[..k], groups[k], gone);
      PathsAppend(groups[..k], [groups[k]]);
      OnePath(groups[k]);
      var removed, rest := FilterGroup(groups[k], gone);
      changed := changed || removed;
      kept := kept + rest;
    }
    assert groups[..|groups|] == groups;
  }

  method FilterGroup(g: Group, gone: set<string>) returns (removed: bool, rest: seq<Group>)
    ensures rest == CleanGroup(g, gone)
    ensures removed <==> g.paths.Some? && exists p :: p in g.paths.value && p in gone
  {
    if g.paths.None? { return false, [g]; }
    var paths, left := g.paths.value, [];
    removed := false;
    for k := 0 to |paths|
      invariant left == Without(paths[..k], gone)
      invariant removed <==> exists p :: p in paths[..k] && p in gone
    {
      assert paths[..k + 1] == paths[..k] + [paths[k]];
      WithoutSnoc(paths[..k], paths[k], gone);
      if paths[k] in gone { removed := true; } else { left := left + [paths[k]]; }
    }
    assert paths[..|paths|] == paths;
    rest := if left == [] then [] else [g.(paths := Some(left))];
  }
}
