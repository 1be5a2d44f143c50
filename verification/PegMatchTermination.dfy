/** `Match` terminates on the graphs on which `MatchParseResult` does, also when it runs out of tokens:
    an exhausted list or repeat only asks for suggestions. */
module PegMatchTermination {
  import opened PegGraph
  import opened PegMatch
  import opened PegTermination

  // ----- a larger bound never changes a finished run -----

  lemma {:induction false} MatchFuelMono(c: Ctx, id: nat, st: MState, f: nat, f': nat)
    requires Closed(c.g) && id < |c.g| && f <= f'
    requires !MatchF(c, id, st, f).MStuck?
    ensures MatchF(c, id, st, f') == MatchF(c, id, st, f)
    decreases f, 0
  {
    match c.g[id]
    case LeafNode(_) =>
    case List(children, _, suppress) =>
      assert ChildrenOf(c.g[id]) == children;
      ListFuelMono(c, children, suppress, st, Copy(st), f - 1, f' - 1);
    case Optional(child) =>
      assert ChildrenOf(c.g[id])[0] == child;
      MatchFuelMono(c, child, Copy(st), f - 1, f' - 1);
    case Choice(children) =>
      assert ChildrenOf(c.g[id]) == children;
      ChoiceFuelMono(c, children, st, f - 1, f' - 1);
    case Repeat(child) =>
      assert ChildrenOf(c.g[id])[0] == child;
      MatchFuelMono(c, child, Copy(st), f - 1, f' - 1);
      var r := MatchF(c, child, Copy(st), f - 1);
      if r.MDone? && r.ok {
        MoreFuelMono(c, child, st.(sugg := r.st.sugg), r.st, f - 1, f' - 1);
      }
  }

  lemma {:induction false} ListFuelMono(c: Ctx, ids: seq<nat>, suppress: bool, st: MState, ls: MState, f: nat, f': nat)
    requires Closed(c.g) && Ids(c.g, ids) && st.sugg <= ls.sugg && f <= f'
    requires !MatchListF(c, ids, suppress, st, ls, f).MStuck?
    ensures MatchListF(c, ids, suppress, st, ls, f') == MatchListF(c, ids, suppress, st, ls, f)
    decreases f, |ids| + 1
  {
    if ids != [] && ls.idx < |c.ts| {
      MatchFuelMono(c, ids[0], ls, f, f');
      var r := MatchF(c, ids[0], ls, f);
      if r.MDone? && r.ok {
        ListFuelMono(c, ids[1..], suppress, st, r.st, f, f');
      }
    }
  }

  lemma {:induction false} ChoiceFuelMono(c: Ctx, ids: seq<nat>, st: MState, f: nat, f': nat)
    requires Closed(c.g) && Ids(c.g, ids) && f <= f'
    requires !MatchChoiceF(c, ids, st, f).MStuck?
    ensures MatchChoiceF(c, ids, st, f') == MatchChoiceF(c, ids, st, f)
    decreases f, |ids| + 1
  {
    if ids != [] {
      MatchFuelMono(c, ids[0], Copy(st), f, f');
      var r := MatchF(c, ids[0], Copy(st), f);
      if r.MDone? && !r.ok {
        ChoiceFuelMono(c, ids[1..], st.(sugg := r.st.sugg), f, f');
      }
    }
  }

  lemma {:induction false} MoreFuelMono(c: Ctx, elem: nat, st: MState, rs: MState, f: nat, f': nat)
    requires Closed(c.g) && elem < |c.g| && st.sugg <= rs.sugg && f <= f'
    requires !MatchMoreF(c, elem, st, rs, f).MStuck?
    ensures MatchMoreF(c, elem, st, rs, f') == MatchMoreF(c, elem, st, rs, f)
    decreases f, 1
  {
    if rs.idx < |c.ts| {
      MatchFuelMono(c, elem, rs, f - 1, f' - 1);
      var r := MatchF(c, elem, rs, f - 1);
      if r.MDone? && r.ok {
        MoreFuelMono(c, elem, st.(idx := rs.idx, sugg := rs.sugg), r.st, f - 1, f' - 1);
      }
    }
  }

  // ----- a success that stays before the end is of a nullable matcher -----

  /** A success at token i, before the end. */
  ghost predicate Stays(c: Ctx, i: nat, r: MRun)
  {
    i < |c.ts| && r.MDone? && r.ok && r.st.idx == i
  }

  lemma {:induction false} EmptySuccessIsNullable(c: Ctx, id: nat, st: MState, f: nat)
    requires Closed(c.g) && id < |c.g| && Stays(c, st.idx, MatchF(c, id, st, f))
    ensures NullableWithin(c.g, id, f)
    decreases f, 0
  {
    match c.g[id]
    case LeafNode(_) =>
    case List(children, _, suppress) =>
      assert ChildrenOf(c.g[id]) == children;
      EmptyListSuccess(c, children, suppress, st, Copy(st), f - 1);
    case Optional(_) =>
    case Choice(children) =>
      assert ChildrenOf(c.g[id]) == children;
      var k := EmptyChoiceSuccess(c, children, st, f - 1);
    case Repeat(child) =>
      assert ChildrenOf(c.g[id])[0] == child;
      var r := MatchF(c, child, Copy(st), f - 1);
      EmptySuccessIsNullable(c, child, Copy(st), f - 1);
  }

  lemma {:induction false} EmptyListSuccess(c: Ctx, ids: seq<nat>, suppress: bool, st: MState, ls: MState, f: nat)
    requires Closed(c.g) && Ids(c.g, ids) && st.sugg <= ls.sugg
    requires Stays(c, ls.idx, MatchListF(c, ids, suppress, st, ls, f))
    ensures forall k :: 0 <= k < |ids| ==> NullableWithin(c.g, ids[k], f)
    decreases f, |ids| + 1
  {
    if ids != [] {
      var r := MatchF(c, ids[0], ls, f);
      EmptySuccessIsNullable(c, ids[0], ls, f);
      EmptyListSuccess(c, ids[1..], suppress, st, r.st, f);
      forall k | 0 <= k < |ids| ensures NullableWithin(c.g, ids[k], f) {
        if k > 0 { assert ids[k] == ids[1..][k - 1]; }
      }
    }
  }

  lemma {:induction false} EmptyChoiceSuccess(c: Ctx, ids: seq<nat>, st: MState, f: nat) returns (k: nat)
    requires Closed(c.g) && Ids(c.g, ids) && Stays(c, st.idx, MatchChoiceF(c, ids, st, f))
    ensures k < |ids| && NullableWithin(c.g, ids[k], f)
    decreases f, |ids| + 1
  {
    var r := MatchF(c, ids[0], Copy(st), f);
    if r.ok {
      EmptySuccessIsNullable(c, ids[0], Copy(st), f);
      k := 0;
    } else {
      k := EmptyChoiceSuccess(c, ids[1..], st.(sugg := r.st.sugg), f);
      assert ids[k + 1] == ids[1..][k];
      k := k + 1;
    }
  }

  // ----- termination -----

  /** Every run of a well-formed graph that starts on an existing token finishes; the measure is that of
      the parse-tree interpreter. */
  lemma {:induction false} MatchFinishes(c: Ctx, path: seq<nat>, st: MState) returns (f: nat)
    requires WellFormed(c.g) && st.idx < |c.ts| && LeftPath(c.g, path) && |path| > 0
    ensures !MatchF(c, path[|path| - 1], st, f).MStuck?
    decreases |c.ts| - st.idx, |c.g| - |path|, |ChildrenOf(c.g[path[|path| - 1]])| + 2
  {
    LeftPathIsShort(c.g, path);
    var id := path[|path| - 1];
    match c.g[id]
    case LeafNode(_) =>
      f := 1;
    case List(children, _, suppress) =>
      assert ChildrenOf(c.g[id]) == children && children[0..] == children;
      f := ListRunFinishes(c, path, st.idx, 0, st, Copy(st));
      f := f + 1;
    case Optional(child) =>
      f := ChildRunFinishes(c, path, Copy(st), 0);
      f := f + 1;
    case Choice(children) =>
      assert ChildrenOf(c.g[id]) == children && children[0..] == children;
      f := ChoiceRunFinishes(c, path, st, 0);
      f := f + 1;
    case Repeat(child) =>
      var f0 := ChildRunFinishes(c, path, Copy(st), 0);
      f := f0 + 1;
      assert ChildrenOf(c.g[id])[0] == child;
      var r := MatchF(c, child, Copy(st), f0);
      if r.MDone? && r.ok {
        if r.st.idx == st.idx { EmptySuccessIsNullable(c, child, Copy(st), f0); }
        var f1 := MoreRunFinishes(c, child, st.idx, st.(sugg := r.st.sugg), r.st);
        f := f0 + f1 + 1;
        MatchFuelMono(c, child, Copy(st), f0, f0 + f1);
        MoreFuelMono(c, child, st.(sugg := r.st.sugg), r.st, f1, f0 + f1);
      }
  }

  /** A child entered at the same token extends the path. */
  lemma {:induction false} ChildRunFinishes(c: Ctx, path: seq<nat>, st: MState, k: nat) returns (f: nat)
    requires WellFormed(c.g) && st.idx < |c.ts|
    requires LeftPath(c.g, path) && 0 < |path| <= |c.g| && k < |ChildrenOf(c.g[path[|path| - 1]])|
    requires c.g[path[|path| - 1]].List? ==> AllNullable(c.g, ChildrenOf(c.g[path[|path| - 1]])[..k])
    ensures !MatchF(c, ChildrenOf(c.g[path[|path| - 1]])[k], st, f).MStuck?
    decreases |c.ts| - st.idx, |c.g| - |path|, 0
  {
    var id := path[|path| - 1];
    var child := ChildrenOf(c.g[id])[k];
    assert LeftCalls(c.g, id, child);
    var longer := path + [child];
    assert LeftPath(c.g, longer);
    LeftPathIsShort(c.g, longer);
    f := MatchFinishes(c, longer, st);
  }

  lemma {:induction false} ListRunFinishes(c: Ctx, path: seq<nat>, start: nat, k: nat, st: MState, ls: MState)
    returns (f: nat)
    requires WellFormed(c.g) && start <= ls.idx && start < |c.ts| && st.sugg <= ls.sugg
    requires LeftPath(c.g, path) && 0 < |path| <= |c.g|
    requires c.g[path[|path| - 1]].List? && k <= |c.g[path[|path| - 1]].children|
    requires Ids(c.g, c.g[path[|path| - 1]].children)
    requires ls.idx == start ==> AllNullable(c.g, c.g[path[|path| - 1]].children[..k])
    ensures var n := c.g[path[|path| - 1]];
            !MatchListF(c, n.children[k..], n.suppress, st, ls, f).MStuck?
    decreases |c.ts| - start, |c.g| - |path|, |c.g[path[|path| - 1]].children| - k + 1
  {
    var n := c.g[path[|path| - 1]];
    assert ChildrenOf(n) == n.children;
    f := 0;
    if k < |n.children| && ls.idx < |c.ts| {
      var child := n.children[k];
      var f0: nat;
      if ls.idx == start {
        f0 := ChildRunFinishes(c, path, ls, k);
      } else {
        assert LeftPath(c.g, [child]);
        f0 := MatchFinishes(c, [child], ls);
      }
      f := f0;
      var r := MatchF(c, child, ls, f0);
      assert n.children[k..][0] == child && n.children[k..][1..] == n.children[k + 1..];
      if r.MDone? && r.ok {
        if r.st.idx == start { EmptySuccessIsNullable(c, child, ls, f0); assert Nullable(c.g, child); }
        var f1 := ListRunFinishes(c, path, start, k + 1, st, r.st);
        f := f0 + f1;
        MatchFuelMono(c, child, ls, f0, f);
        ListFuelMono(c, n.children[k + 1..], n.suppress, st, r.st, f1, f);
      }
    }
  }

  lemma {:induction false} ChoiceRunFinishes(c: Ctx, path: seq<nat>, st: MState, k: nat) returns (f: nat)
    requires WellFormed(c.g) && st.idx < |c.ts|
    requires LeftPath(c.g, path) && 0 < |path| <= |c.g|
    requires c.g[path[|path| - 1]].Choice? && k <= |c.g[path[|path| - 1]].children|
    requires Ids(c.g, c.g[path[|path| - 1]].children)
    ensures !MatchChoiceF(c, c.g[path[|path| - 1]].children[k..], st, f).MStuck?
    decreases |c.ts| - st.idx, |c.g| - |path|, |c.g[path[|path| - 1]].children| - k + 1
  {
    var n := c.g[path[|path| - 1]];
    assert ChildrenOf(n) == n.children;
    f := 0;
    if k < |n.children| {
      var child := n.children[k];
      var f0 := ChildRunFinishes(c, path, Copy(st), k);
      f := f0;
      var r := MatchF(c, child, Copy(st), f0);
      assert n.children[k..][0] == child && n.children[k..][1..] == n.children[k + 1..];
      if r.MDone? && !r.ok {
        var f1 := ChoiceRunFinishes(c, path, st.(sugg := r.st.sugg), k + 1);
        f := f0 + f1;
        MatchFuelMono(c, child, Copy(st), f0, f);
        ChoiceFuelMono(c, n.children[k + 1..], st.(sugg := r.st.sugg), f1, f);
      }
    }
  }

  lemma {:induction false} MoreRunFinishes(c: Ctx, elem: nat, first: nat, st: MState, rs: MState) returns (f: nat)
    requires WellFormed(c.g) && elem < |c.g| && first < rs.idx && first < |c.ts| && st.sugg <= rs.sugg
    requires !Nullable(c.g, elem)
    ensures !MatchMoreF(c, elem, st, rs, f).MStuck?
    decreases |c.ts| - first, 0, 0
  {
    f := 0;
    if rs.idx < |c.ts| {
      assert LeftPath(c.g, [elem]);
      var f0 := MatchFinishes(c, [elem], rs);
      f := f0 + 1;
      var r := MatchF(c, elem, rs, f0);
      if r.MDone? && r.ok {
        if r.st.idx == rs.idx { EmptySuccessIsNullable(c, elem, rs, f0); }
        var st1 := st.(idx := rs.idx, sugg := rs.sugg);
        var f1 := MoreRunFinishes(c, elem, rs.idx, st1, r.st);
        f := f0 + f1 + 1;
        MatchFuelMono(c, elem, rs, f0, f0 + f1);
        MoreFuelMono(c, elem, st1, r.st, f1, f0 + f1);
      }
    }
  }

  /** On a well-formed graph `Match` finishes from every list and from every matcher entered on an
      existing token, for every token list. */
  lemma MatchTerminates(c: Ctx, id: nat, st: MState) returns (f: nat)
    requires WellFormed(c.g) && id < |c.g| && (c.g[id].List? || st.idx < |c.ts|)
    ensures MatchF(c, id, st, f).MDone? || MatchF(c, id, st, f).MThrown?
  {
    if st.idx < |c.ts| {
      assert LeftPath(c.g, [id]);
      f := MatchFinishes(c, [id], st);
    } else {
      assert ChildrenOf(c.g[id]) == c.g[id].children;
      f := 1;
    }
    MatchNeverCrashes(c, id, st, f);
  }
}
