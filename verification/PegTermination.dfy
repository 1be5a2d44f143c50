/** When `MatchParseResult` terminates: no repeated element may match nothing, and no matcher may
    re-enter itself without consuming a token. */
module PegTermination {
  import opened PegGraph
  import opened PegParse
  import opened PegRelation

  /** The matcher may succeed without consuming a token, as seen through n levels of the graph. */
  ghost predicate NullableWithin(g: Graph, id: nat, n: nat)
    requires Closed(g) && id < |g|
    decreases n
  {
    n > 0 &&
    match g[id]
    case LeafNode(_) => false
    case List(children, _, _) =>
      assert ChildrenOf(g[id]) == children;
      forall k :: 0 <= k < |children| ==> NullableWithin(g, children[k], n - 1)
    case Optional(_) => true
    case Choice(children) =>
      assert ChildrenOf(g[id]) == children;
      exists k :: 0 <= k < |children| && NullableWithin(g, children[k], n - 1)
    case Repeat(child) =>
      assert ChildrenOf(g[id])[0] == child;
      NullableWithin(g, child, n - 1)
  }

  ghost predicate Nullable(g: Graph, id: nat)
    requires Closed(g) && id < |g|
  {
    exists n :: NullableWithin(g, id, n)
  }

  /** Matcher a may call matcher b at the token it was entered at. */
  ghost predicate LeftCalls(g: Graph, a: nat, b: nat)
    requires Closed(g) && a < |g|
  {
    var ids := ChildrenOf(g[a]);
    exists k :: 0 <= k < |ids| && ids[k] == b && (g[a].List? ==> AllNullable(g, ids[..k]))
  }

  ghost predicate AllNullable(g: Graph, ids: seq<nat>)
    requires Closed(g) && Ids(g, ids)
  {
    forall j :: 0 <= j < |ids| ==> Nullable(g, ids[j])
  }

  ghost predicate LeftPath(g: Graph, path: seq<nat>)
    requires Closed(g)
  {
    Ids(g, path) && forall k :: 0 <= k < |path| - 1 ==> LeftCalls(g, path[k], path[k + 1])
  }

  ghost predicate IsLeftCycle(g: Graph, path: seq<nat>)
    requires Closed(g)
  {
    LeftPath(g, path) && |path| >= 2 && path[0] == path[|path| - 1]
  }

  ghost predicate WellFormed(g: Graph)
  {
    Closed(g) &&
    (forall id :: 0 <= id < |g| && g[id].Repeat? ==> !Nullable(g, ChildrenOf(g[id])[0])) &&
    (forall path :: !IsLeftCycle(g, path))
  }

  // ----- a success that consumes nothing is a nullable matcher -----

  lemma {:induction false} EmptyMatchIsNullable(c: Ctx, id: nat, i: nat, f: nat)
    requires Closed(c.g) && id < |c.g| && i <= |c.ts|
    requires ParseF(c, id, i, f).Done? && ParseF(c, id, i, f).out.Ok? && ParseF(c, id, i, f).out.end == i
    ensures NullableWithin(c.g, id, f)
    decreases f, 0
  {
    match c.g[id]
    case LeafNode(_) =>
    case List(children, name, _) =>
      assert ChildrenOf(c.g[id]) == children;
      EmptyListIsNullable(c, children, name, i, [], f - 1);
    case Optional(_) =>
    case Choice(children) =>
      assert ChildrenOf(c.g[id]) == children;
      var k := EmptyChoiceIsNullable(c, children, 0, i, f - 1);
    case Repeat(child) =>
      assert ChildrenOf(c.g[id])[0] == child;
      ParseYield(c, child, i, f - 1);
      var r := ParseF(c, child, i, f - 1);
      EmptyMatchIsNullable(c, child, i, f - 1);
  }

  lemma {:induction false} EmptyListIsNullable(c: Ctx, ids: seq<nat>, name: string, i: nat, acc: seq<Tree>, f: nat)
    requires Closed(c.g) && Ids(c.g, ids) && i <= |c.ts|
    requires var r := ParseListF(c, ids, name, i, i, acc, f); r.Done? && r.out.Ok? && r.out.end == i
    ensures forall k :: 0 <= k < |ids| ==> NullableWithin(c.g, ids[k], f)
    decreases f, |ids| + 1
  {
    if ids != [] {
      ParseYield(c, ids[0], i, f);
      var r := ParseF(c, ids[0], i, f);
      EmptyMatchIsNullable(c, ids[0], i, f);
      EmptyListIsNullable(c, ids[1..], name, i, acc + [r.out.tree], f);
      forall k | 0 <= k < |ids| ensures NullableWithin(c.g, ids[k], f) {
        if k > 0 { assert ids[k] == ids[1..][k - 1]; }
      }
    }
  }

  lemma {:induction false} EmptyChoiceIsNullable(c: Ctx, ids: seq<nat>, n: nat, i: nat, f: nat) returns (k: nat)
    requires Closed(c.g) && Ids(c.g, ids) && i <= |c.ts|
    requires var r := ParseChoiceF(c, ids, n, i, f); r.Done? && r.out.Ok? && r.out.end == i
    ensures k < |ids| && NullableWithin(c.g, ids[k], f)
    decreases f, |ids| + 1
  {
    var r := ParseF(c, ids[0], i, f);
    if r.out.Ok? {
      EmptyMatchIsNullable(c, ids[0], i, f);
      k := 0;
    } else {
      k := EmptyChoiceIsNullable(c, ids[1..], n + 1, i, f);
      assert ids[k + 1] == ids[1..][k];
      k := k + 1;
    }
  }

  // ----- a left path of an acyclic graph never repeats a matcher -----

  lemma LeftPathIsShort(g: Graph, path: seq<nat>)
    requires WellFormed(g) && LeftPath(g, path)
    ensures |path| <= |g|
  {
    forall a, b | 0 <= a < b < |path| ensures path[a] != path[b] {
      var part := path[a..b + 1];
      LeftPathPart(g, path, a, b + 1);
      assert part[0] == path[a] && part[|part| - 1] == path[b];
      assert !IsLeftCycle(g, part);
    }
    Pigeonhole(path, |g|);
  }

  lemma LeftPathPart(g: Graph, path: seq<nat>, from: nat, to: nat)
    requires Closed(g) && LeftPath(g, path) && from <= to <= |path|
    ensures LeftPath(g, path[from..to])
  {
    var part := path[from..to];
    forall k | 0 <= k < |part| - 1 ensures LeftCalls(g, part[k], part[k + 1]) {
      assert LeftCalls(g, path[from + k], path[from + k + 1]);
    }
  }

  lemma {:induction false} Pigeonhole(path: seq<nat>, n: nat)
    requires forall k :: 0 <= k < |path| ==> path[k] < n
    requires forall a, b :: 0 <= a < b < |path| ==> path[a] != path[b]
    ensures |path| <= n
  {
    if path != [] {
      assert path[0] < n;
      if n - 1 in path {
        var k :| 0 <= k < |path| && path[k] == n - 1;
        Pigeonhole(path[..k] + path[k + 1..], n - 1);
      } else {
        Pigeonhole(path, n - 1);
      }
    }
  }

  // ----- termination -----

  /** Every run of a well-formed graph finishes. `path` is the chain of matchers entered at token i
      without consuming one; the measure is the tokens left, then the room left for that chain. */
  lemma {:induction false} RunFinishes(c: Ctx, path: seq<nat>, i: nat) returns (f: nat)
    requires WellFormed(c.g) && i <= |c.ts|
    requires LeftPath(c.g, path) && |path| > 0
    ensures ParseF(c, path[|path| - 1], i, f).Done?
    decreases |c.ts| - i, |c.g| - |path|, |ChildrenOf(c.g[path[|path| - 1]])| + 2
  {
    LeftPathIsShort(c.g, path);
    var id := path[|path| - 1];
    match c.g[id]
    case LeafNode(_) =>
      f := 1;
    case List(children, name, _) =>
      assert ChildrenOf(c.g[id]) == children && children[0..] == children;
      f := ListFinishes(c, path, i, 0, i, []);
      f := f + 1;
    case Optional(child) =>
      f := ChildFinishes(c, path, i, 0);
      f := f + 1;
    case Choice(children) =>
      assert ChildrenOf(c.g[id]) == children && children[0..] == children;
      f := ChoiceFinishes(c, path, i, 0);
      f := f + 1;
    case Repeat(child) =>
      var f0 := ChildFinishes(c, path, i, 0);
      f := f0 + 1;
      assert ChildrenOf(c.g[id])[0] == child;
      var r := ParseF(c, child, i, f0);
      if r.out.Ok? {
        ParseYield(c, child, i, f0);
        if r.out.end == i { EmptyMatchIsNullable(c, child, i, f0); }
        var f1 := MoreFinishes(c, child, i, i, r.out.end, [r.out.tree]);
        f := f0 + f1 + 1;
        FuelMono(c, child, i, f0, f0 + f1);
        FuelMonoMore(c, child, i, r.out.end, [r.out.tree], f1, f0 + f1);
      }
  }

  /** A child entered at the same token extends the path. */
  lemma {:induction false} ChildFinishes(c: Ctx, path: seq<nat>, i: nat, k: nat) returns (f: nat)
    requires WellFormed(c.g) && i <= |c.ts|
    requires LeftPath(c.g, path) && |path| > 0 && |path| <= |c.g|
    requires k < |ChildrenOf(c.g[path[|path| - 1]])|
    requires c.g[path[|path| - 1]].List? ==> AllNullable(c.g, ChildrenOf(c.g[path[|path| - 1]])[..k])
    ensures ParseF(c, ChildrenOf(c.g[path[|path| - 1]])[k], i, f).Done?
    decreases |c.ts| - i, |c.g| - |path|, 0
  {
    var id := path[|path| - 1];
    var child := ChildrenOf(c.g[id])[k];
    assert LeftCalls(c.g, id, child);
    var longer := path + [child];
    assert LeftPath(c.g, longer);
    LeftPathIsShort(c.g, longer);
    f := RunFinishes(c, longer, i);
  }

  lemma {:induction false} ListFinishes(c: Ctx, path: seq<nat>, start: nat, k: nat, i: nat, acc: seq<Tree>)
    returns (f: nat)
    requires WellFormed(c.g) && start <= i <= |c.ts|
    requires LeftPath(c.g, path) && 0 < |path| <= |c.g|
    requires c.g[path[|path| - 1]].List? && k <= |c.g[path[|path| - 1]].children|
    requires Ids(c.g, c.g[path[|path| - 1]].children)
    requires i == start ==> AllNullable(c.g, c.g[path[|path| - 1]].children[..k])
    ensures var n := c.g[path[|path| - 1]];
            ParseListF(c, n.children[k..], n.name, start, i, acc, f).Done?
    decreases |c.ts| - start, |c.g| - |path|, |c.g[path[|path| - 1]].children| - k + 1
  {
    var n := c.g[path[|path| - 1]];
    assert ChildrenOf(n) == n.children;
    if k == |n.children| {
      f := 0;
    } else {
      var child := n.children[k];
      var f0: nat;
      if i == start {
        f0 := ChildFinishes(c, path, i, k);
      } else {
        assert LeftPath(c.g, [child]);
        f0 := RunFinishes(c, [child], i);
      }
      f := f0;
      var r := ParseF(c, child, i, f0);
      assert n.children[k..][0] == child && n.children[k..][1..] == n.children[k + 1..];
      if r.out.Ok? {
        ParseYield(c, child, i, f0);
        if r.out.end == start { EmptyMatchIsNullable(c, child, i, f0); assert Nullable(c.g, child); }
        var f1 := ListFinishes(c, path, start, k + 1, r.out.end, acc + [r.out.tree]);
        f := f0 + f1;
        FuelMono(c, child, i, f0, f);
        FuelMonoList(c, n.children[k + 1..], n.name, start, r.out.end, acc + [r.out.tree], f1, f);
      }
    }
  }

  lemma {:induction false} ChoiceFinishes(c: Ctx, path: seq<nat>, i: nat, k: nat) returns (f: nat)
    requires WellFormed(c.g) && i <= |c.ts|
    requires LeftPath(c.g, path) && 0 < |path| <= |c.g|
    requires c.g[path[|path| - 1]].Choice? && k <= |c.g[path[|path| - 1]].children|
    requires Ids(c.g, c.g[path[|path| - 1]].children)
    ensures ParseChoiceF(c, c.g[path[|path| - 1]].children[k..], k, i, f).Done?
    decreases |c.ts| - i, |c.g| - |path|, |c.g[path[|path| - 1]].children| - k + 1
  {
    var n := c.g[path[|path| - 1]];
    assert ChildrenOf(n) == n.children;
    if k == |n.children| {
      f := 0;
    } else {
      var child := n.children[k];
      var f0 := ChildFinishes(c, path, i, k);
      f := f0;
      assert n.children[k..][0] == child && n.children[k..][1..] == n.children[k + 1..];
      if ParseF(c, child, i, f0).out.Fail? {
        var f1 := ChoiceFinishes(c, path, i, k + 1);
        f := f0 + f1;
        FuelMono(c, child, i, f0, f);
        FuelMonoChoice(c, n.children[k + 1..], k + 1, i, f1, f);
      }
    }
  }

  lemma {:induction false} MoreFinishes(c: Ctx, elem: nat, first: nat, start: nat, i: nat, acc: seq<Tree>)
    returns (f: nat)
    requires WellFormed(c.g) && elem < |c.g| && first < i <= |c.ts|
    requires !Nullable(c.g, elem)
    ensures ParseMoreF(c, elem, start, i, acc, f).Done?
    decreases |c.ts| - first, 0, 0
  {
    if i >= |c.ts| {
      f := 0;
    } else {
      assert LeftPath(c.g, [elem]);
      var f0 := RunFinishes(c, [elem], i);
      f := f0 + 1;
      var r := ParseF(c, elem, i, f0);
      if r.out.Ok? {
        ParseYield(c, elem, i, f0);
        if r.out.end == i { EmptyMatchIsNullable(c, elem, i, f0); }
        var f1 := MoreFinishes(c, elem, i, start, r.out.end, acc + [r.out.tree]);
        f := f0 + f1 + 1;
        FuelMono(c, elem, i, f0, f0 + f1);
        FuelMonoMore(c, elem, start, r.out.end, acc + [r.out.tree], f1, f0 + f1);
      }
    }
  }

  /** On a well-formed graph every matcher has an outcome at every token of every token list. */
  lemma WellFormedTerminates(c: Ctx, id: nat, i: nat)
    requires WellFormed(c.g) && id < |c.g| && i <= |c.ts|
    ensures exists out :: Peg(c, id, i, out)
    ensures exists f :: ParseF(c, id, i, f).Done?
  {
    assert LeftPath(c.g, [id]);
    var f := RunFinishes(c, [id], i);
    assert Finishes(c, id, i, ParseF(c, id, i, f).out);
    ParseComputesPeg(c, id, i, ParseF(c, id, i, f).out);
  }

  // ----- both conditions are needed -----

  /** A repeat whose element succeeds on an existing token without consuming it never finishes. */
  lemma {:induction false} EmptyRepeatDiverges(c: Ctx, id: nat, i: nat, tree: Tree, f: nat)
    requires Closed(c.g) && id < |c.g| && c.g[id].Repeat? && i < |c.ts|
    requires Finishes(c, ChildrenOf(c.g[id])[0], i, Ok(i, tree))
    ensures ParseF(c, id, i, f).Stuck?
  {
    var elem := ChildrenOf(c.g[id])[0];
    var f0 :| ParseF(c, elem, i, f0).Done? && ParseF(c, elem, i, f0).out == Ok(i, tree);
    if f > 0 {
      SameOutcome(c, elem, i, f0, f - 1);
      if ParseF(c, elem, i, f - 1).Done? {
        MoreDiverges(c, elem, i, tree, f0, [tree], f - 1);
      }
    }
  }

  lemma SameOutcome(c: Ctx, id: nat, i: nat, f0: nat, f: nat)
    requires Closed(c.g) && id < |c.g| && ParseF(c, id, i, f0).Done?
    ensures ParseF(c, id, i, f).Done? ==> ParseF(c, id, i, f) == ParseF(c, id, i, f0)
  {
    if ParseF(c, id, i, f).Done? {
      if f <= f0 { FuelMono(c, id, i, f, f0); } else { FuelMono(c, id, i, f0, f); }
    }
  }

  lemma {:induction false} MoreDiverges(c: Ctx, elem: nat, i: nat, tree: Tree, f0: nat, acc: seq<Tree>, f: nat)
    requires Closed(c.g) && elem < |c.g| && i < |c.ts|
    requires ParseF(c, elem, i, f0).Done? && ParseF(c, elem, i, f0).out == Ok(i, tree)
    ensures ParseMoreF(c, elem, i, i, acc, f).Stuck?
    decreases f
  {
    if f > 0 {
      SameOutcome(c, elem, i, f0, f - 1);
      MoreDiverges(c, elem, i, tree, f0, acc + [tree], f - 1);
    }
  }

  /** Each of these matchers calls one of them first of all. */
  ghost predicate CallsFirst(g: Graph, ids: set<nat>)
  {
    forall a :: a in ids ==> a < |g| && ChildrenOf(g[a]) != [] && ChildrenOf(g[a])[0] in ids
  }

  /** Matchers that call one another first of all - direct or mutual left recursion - never finish. */
  lemma {:induction false} LeftRecursionDiverges(c: Ctx, ids: set<nat>, id: nat, i: nat, f: nat)
    requires Closed(c.g) && CallsFirst(c.g, ids) && id in ids
    ensures ParseF(c, id, i, f).Stuck?
    decreases f
  {
    if f > 0 {
      LeftRecursionDiverges(c, ids, ChildrenOf(c.g[id])[0], i, f - 1);
    }
  }
}
