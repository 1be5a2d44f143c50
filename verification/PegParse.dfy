/** `MatchParseResult`: the parse-tree interpreter over a matcher graph, as a function indexed by
    a bound on the recursion, the PEG relation it computes, and the facts about its runs. */
module PegParse {
  import opened Wrappers
  import opened PegGraph

  datatype Tree =
    | LeafTree(leaf: Leaf, text: string, offset: nat)
    | ListTree(name: string, start: Option<nat>, children: seq<Tree>)
    | OptionalTree(start: Option<nat>, result: Option<Tree>)
    | ChoiceTree(selected: nat, start: Option<nat>, choice: Tree)
    | RepeatTree(start: Option<nat>, children: seq<Tree>)

  /** A null result, a thrown parser exception, or a tree and the new token index. */
  datatype Outcome = Fail | Thrown | Ok(end: nat, tree: Tree)

  /** `reach` is the highest token index any leaf of the run advanced to (0 when none did).
      `Stuck` is a run that outgrew its recursion bound. */
  datatype Run = Stuck(reach: nat) | Done(out: Outcome, reach: nat)

  function Offset(ts: seq<Token>, i: nat): Option<nat>
  {
    if i < |ts| then Some(ts[i].offset) else None
  }

  function ParseLeaf(c: Ctx, leaf: Leaf, i: nat): (r: Run)
  {
    if i >= |c.ts| then Done(Fail, 0) else
      match LeafVerdict(c.kw, leaf, c.ts[i].text)
      case Accept => Done(Ok(i + 1, LeafTree(leaf, c.ts[i].text, c.ts[i].offset)), i + 1)
      case Reject => Done(Fail, 0)
      case Throw => Done(Thrown, 0)
  }

  function AfterReach(r: Run, reach: nat): Run
  {
    r.(reach := Max(reach, r.reach))
  }

  function ParseF(c: Ctx, id: nat, i: nat, fuel: nat): (r: Run)
    requires Closed(c.g) && id < |c.g|
    ensures r.Done? && r.out.Ok? ==> i <= r.out.end
    decreases fuel, 0
  {
    if fuel == 0 then Stuck(0) else
      match c.g[id]
      case LeafNode(leaf) => ParseLeaf(c, leaf, i)
      case List(children, name, _) =>
        assert ChildrenOf(c.g[id]) == children;
        ParseListF(c, children, name, i, i, [], fuel - 1)
      case Optional(child) =>
        assert ChildrenOf(c.g[id])[0] == child;
        OptionalRun(c, i, ParseF(c, child, i, fuel - 1))
      case Choice(children) =>
        assert ChildrenOf(c.g[id]) == children;
        ParseChoiceF(c, children, 0, i, fuel - 1)
      case Repeat(child) =>
        assert ChildrenOf(c.g[id])[0] == child;
        var r := ParseF(c, child, i, fuel - 1);
        if r.Done? && r.out.Ok?
        then AfterReach(ParseMoreF(c, child, i, r.out.end, [r.out.tree], fuel - 1), r.reach)
        else r
  }

  function OptionalRun(c: Ctx, i: nat, r: Run): Run
  {
    if r.Stuck? || r.out.Thrown? then r
    else if r.out.Fail? then Done(Ok(i, OptionalTree(None, None)), r.reach)
    else Done(Ok(r.out.end, OptionalTree(Offset(c.ts, i), Some(r.out.tree))), r.reach)
  }

  /** The children still to match at index i; acc holds the results of the earlier ones. */
  function ParseListF(c: Ctx, ids: seq<nat>, name: string, start: nat, i: nat, acc: seq<Tree>, fuel: nat): (r: Run)
    requires Closed(c.g) && Ids(c.g, ids)
    ensures r.Done? && r.out.Ok? ==> i <= r.out.end
    decreases fuel, |ids| + 1
  {
    if ids == [] then Done(Ok(i, ListTree(name, Offset(c.ts, start), acc)), 0)
    else
      var r := ParseF(c, ids[0], i, fuel);
      if r.Done? && r.out.Ok?
      then AfterReach(ParseListF(c, ids[1..], name, start, r.out.end, acc + [r.out.tree], fuel), r.reach)
      else r
  }

  /** The alternatives still to try; k numbers the first of them. */
  function ParseChoiceF(c: Ctx, ids: seq<nat>, k: nat, i: nat, fuel: nat): (r: Run)
    requires Closed(c.g) && Ids(c.g, ids)
    ensures r.Done? && r.out.Ok? ==> i <= r.out.end
    decreases fuel, |ids| + 1
  {
    if ids == [] then Done(Fail, 0)
    else
      var r := ParseF(c, ids[0], i, fuel);
      if r.Stuck? || r.out.Thrown? then r
      else if r.out.Ok?
      then Done(Ok(r.out.end, ChoiceTree(k, Offset(c.ts, i), r.out.tree)), r.reach)
      else AfterReach(ParseChoiceF(c, ids[1..], k + 1, i, fuel), r.reach)
  }

  /** The repeat loop after at least one success, the last of which ended at i. */
  function ParseMoreF(c: Ctx, elem: nat, start: nat, i: nat, acc: seq<Tree>, fuel: nat): (r: Run)
    requires Closed(c.g) && elem < |c.g|
    ensures r.Done? && r.out.Ok? ==> i <= r.out.end
    decreases fuel, 1
  {
    if i >= |c.ts| then Done(Ok(i, RepeatTree(Offset(c.ts, start), acc)), 0)
    else if fuel == 0 then Stuck(0)
    else
      var r := ParseF(c, elem, i, fuel - 1);
      if r.Stuck? || r.out.Thrown? then r
      else if r.out.Fail? then Done(Ok(i, RepeatTree(Offset(c.ts, start), acc)), r.reach)
      else AfterReach(ParseMoreF(c, elem, start, r.out.end, acc + [r.out.tree], fuel - 1), r.reach)
  }

  // ----- a larger bound never changes a finished run -----

  lemma {:induction false} FuelMono(c: Ctx, id: nat, i: nat, f: nat, f': nat)
    requires Closed(c.g) && id < |c.g| && f <= f'
    requires ParseF(c, id, i, f).Done?
    ensures ParseF(c, id, i, f') == ParseF(c, id, i, f)
    decreases f, 0
  {
    match c.g[id]
    case LeafNode(_) =>
    case List(children, name, _) =>
      assert ChildrenOf(c.g[id]) == children;
      FuelMonoList(c, children, name, i, i, [], f - 1, f' - 1);
    case Optional(child) =>
      assert ChildrenOf(c.g[id])[0] == child;
      FuelMono(c, child, i, f - 1, f' - 1);
    case Choice(children) =>
      assert ChildrenOf(c.g[id]) == children;
      FuelMonoChoice(c, children, 0, i, f - 1, f' - 1);
    case Repeat(child) =>
      assert ChildrenOf(c.g[id])[0] == child;
      FuelMono(c, child, i, f - 1, f' - 1);
      var r := ParseF(c, child, i, f - 1);
      if r.out.Ok? {
        FuelMonoMore(c, child, i, r.out.end, [r.out.tree], f - 1, f' - 1);
      }
  }

  lemma {:induction false} FuelMonoList(c: Ctx, ids: seq<nat>, name: string, start: nat, i: nat, acc: seq<Tree>, f: nat,
                                        f': nat)
    requires Closed(c.g) && Ids(c.g, ids) && f <= f'
    requires ParseListF(c, ids, name, start, i, acc, f).Done?
    ensures ParseListF(c, ids, name, start, i, acc, f') == ParseListF(c, ids, name, start, i, acc, f)
    decreases f, |ids| + 1
  {
    if ids != [] {
      FuelMono(c, ids[0], i, f, f');
      var r := ParseF(c, ids[0], i, f);
      if r.out.Ok? {
        FuelMonoList(c, ids[1..], name, start, r.out.end, acc + [r.out.tree], f, f');
      }
    }
  }

  lemma {:induction false} FuelMonoChoice(c: Ctx, ids: seq<nat>, k: nat, i: nat, f: nat, f': nat)
    requires Closed(c.g) && Ids(c.g, ids) && f <= f'
    requires ParseChoiceF(c, ids, k, i, f).Done?
    ensures ParseChoiceF(c, ids, k, i, f') == ParseChoiceF(c, ids, k, i, f)
    decreases f, |ids| + 1
  {
    if ids != [] {
      FuelMono(c, ids[0], i, f, f');
      if ParseF(c, ids[0], i, f).out.Fail? {
        FuelMonoChoice(c, ids[1..], k + 1, i, f, f');
      }
    }
  }

  lemma {:induction false} FuelMonoMore(c: Ctx, elem: nat, start: nat, i: nat, acc: seq<Tree>, f: nat, f': nat)
    requires Closed(c.g) && elem < |c.g| && f <= f'
    requires ParseMoreF(c, elem, start, i, acc, f).Done?
    ensures ParseMoreF(c, elem, start, i, acc, f') == ParseMoreF(c, elem, start, i, acc, f)
    decreases f, 1
  {
    if i < |c.ts| {
      FuelMono(c, elem, i, f - 1, f' - 1);
      var r := ParseF(c, elem, i, f - 1);
      if r.out.Ok? {
        FuelMonoMore(c, elem, start, r.out.end, acc + [r.out.tree], f - 1, f' - 1);
      }
    }
  }

  // ----- indices and the yield of the parse tree -----

  /** The leaf offsets of a tree, left to right. */
  function Yield(t: Tree): (r: seq<nat>)
    decreases t, 0
  {
    match t
    case LeafTree(_, _, offset) => [offset]
    case ListTree(_, _, children) => YieldAll(children)
    case OptionalTree(_, result) => if result.Some? then Yield(result.value) else []
    case ChoiceTree(_, _, choice) => Yield(choice)
    case RepeatTree(_, children) => YieldAll(children)
  }

  function YieldAll(children: seq<Tree>): (r: seq<nat>)
    decreases children, 1
  {
    if children == [] then [] else Yield(children[0]) + YieldAll(children[1..])
  }

  lemma {:induction false} YieldAllSnoc(children: seq<Tree>, t: Tree)
    ensures YieldAll(children + [t]) == YieldAll(children) + Yield(t)
  {
    if children == [] {
      assert YieldAll([t]) == Yield(t) + YieldAll([t][1..]);
    } else {
      assert (children + [t])[1..] == children[1..] + [t];
      YieldAllSnoc(children[1..], t);
    }
  }

  function Offsets(ts: seq<Token>, i: nat, j: nat): (r: seq<nat>)
    requires i <= j <= |ts|
  {
    seq<nat>(j - i, k requires 0 <= k < j - i => ts[i + k].offset)
  }

  lemma OffsetsJoin(ts: seq<Token>, i: nat, j: nat, k: nat)
    requires i <= j <= k <= |ts|
    ensures Offsets(ts, i, j) + Offsets(ts, j, k) == Offsets(ts, i, k)
  {
  }

  /** What a finished run from index i says about its end index and its leaves. */
  ghost predicate YieldsFrom(c: Ctx, i: nat, r: Run)
    requires i <= |c.ts|
  {
    r.reach <= |c.ts| &&
    (r.Done? && r.out.Ok? ==>
       i <= r.out.end <= Max(i, r.reach) &&
       Yield(r.out.tree) == Offsets(c.ts, i, r.out.end))
  }

  lemma {:induction false} ParseYield(c: Ctx, id: nat, i: nat, f: nat)
    requires Closed(c.g) && id < |c.g| && i <= |c.ts|
    ensures YieldsFrom(c, i, ParseF(c, id, i, f))
    decreases f, 0
  {
    hide ParseListF, ParseChoiceF, ParseMoreF;
    if f > 0 {
      match c.g[id]
      case LeafNode(_) =>
      case List(children, name, _) =>
        assert ChildrenOf(c.g[id]) == children;
        ListYield(c, children, name, i, i, [], f - 1);
      case Optional(child) =>
        assert ChildrenOf(c.g[id])[0] == child;
        ParseYield(c, child, i, f - 1);
      case Choice(children) =>
        assert ChildrenOf(c.g[id]) == children;
        ChoiceYield(c, children, 0, i, f - 1);
      case Repeat(child) =>
        assert ChildrenOf(c.g[id])[0] == child;
        ParseYield(c, child, i, f - 1);
        var r := ParseF(c, child, i, f - 1);
        if r.Done? && r.out.Ok? {
          assert YieldAll([r.out.tree]) == Yield(r.out.tree) by {
            YieldAllSnoc([], r.out.tree);
            assert [] + [r.out.tree] == [r.out.tree];
          }
          MoreYield(c, child, i, r.out.end, [r.out.tree], f - 1);
        }
    }
  }

  lemma {:induction false} ListYield(c: Ctx, ids: seq<nat>, name: string, start: nat, i: nat, acc: seq<Tree>, f: nat)
    requires Closed(c.g) && Ids(c.g, ids) && start <= i <= |c.ts|
    requires YieldAll(acc) == Offsets(c.ts, start, i)
    ensures var r := ParseListF(c, ids, name, start, i, acc, f);
            r.reach <= |c.ts| &&
            (r.Done? && r.out.Ok? ==>
             i <= r.out.end <= Max(i, r.reach) && Yield(r.out.tree) == Offsets(c.ts, start, r.out.end))
    decreases f, |ids| + 1
  {
    hide ParseF, Offsets;
    if ids != [] {
      ParseYield(c, ids[0], i, f);
      var r := ParseF(c, ids[0], i, f);
      if r.Done? && r.out.Ok? {
        YieldAllSnoc(acc, r.out.tree);
        OffsetsJoin(c.ts, start, i, r.out.end);
        ListYield(c, ids[1..], name, start, r.out.end, acc + [r.out.tree], f);
      }
    }
  }

  lemma {:induction false} ChoiceYield(c: Ctx, ids: seq<nat>, k: nat, i: nat, f: nat)
    requires Closed(c.g) && Ids(c.g, ids) && i <= |c.ts|
    ensures YieldsFrom(c, i, ParseChoiceF(c, ids, k, i, f))
    decreases f, |ids| + 1
  {
    if ids != [] {
      ParseYield(c, ids[0], i, f);
      ChoiceYield(c, ids[1..], k + 1, i, f);
    }
  }

  lemma {:induction false} MoreYield(c: Ctx, elem: nat, start: nat, i: nat, acc: seq<Tree>, f: nat)
    requires Closed(c.g) && elem < |c.g| && start <= i <= |c.ts|
    requires YieldAll(acc) == Offsets(c.ts, start, i)
    ensures var r := ParseMoreF(c, elem, start, i, acc, f);
            r.reach <= |c.ts| &&
            (r.Done? && r.out.Ok? ==>
             i <= r.out.end <= Max(i, r.reach) && Yield(r.out.tree) == Offsets(c.ts, start, r.out.end))
    decreases f, 1
  {
    hide ParseF, Offsets;
    if i < |c.ts| && f > 0 {
      ParseYield(c, elem, i, f - 1);
      var r := ParseF(c, elem, i, f - 1);
      if r.Done? && r.out.Ok? {
        YieldAllSnoc(acc, r.out.tree);
        OffsetsJoin(c.ts, start, i, r.out.end);
        MoreYield(c, elem, start, r.out.end, acc + [r.out.tree], f - 1);
      }
    }
  }
}
