/** The two interpreters as the source writes them: methods over a mutable `MatchState` that copy
    the state to backtrack and commit only the token index. A ghost bound on the recursion, for
    which the run is known to finish, stands in for termination; on well-formed graphs
    `PegTermination` and `PegMatchTermination` provide it, and `ParseStatement` and
    `SuggestCompletions` need none. */
module PegEngine {
  import opened Wrappers
  import opened PegGraph
  import opened PegParse
  import opened PegRelation
  import opened PegMatch
  import opened PegFirst
  import opened PegOffers
  import opened PegTermination
  import opened PegMatchTermination

  /** What every copy of a MatchState refers to. */
  class Shared {
    var maxTokenIndex: nat
    var suggestions: seq<nat>

    constructor ()
      ensures maxTokenIndex == 0 && suggestions == []
    {
      maxTokenIndex, suggestions := 0, [];
    }
  }

  class MatchState {
    const shared: Shared
    var tokenIndex: nat
    var added: set<nat>

    constructor (shared: Shared)
      ensures this.shared == shared && tokenIndex == 0 && added == {}
    {
      this.shared := shared;
      tokenIndex, added := 0, {};
    }

    /** The copy constructor: the already-suggested matchers are not copied. */
    constructor Copy(state: MatchState)
      ensures shared == state.shared && tokenIndex == state.tokenIndex && added == {}
    {
      shared := state.shared;
      tokenIndex, added := state.tokenIndex, {};
    }

    ghost function View(): MState
      reads this, shared
    {
      MState(tokenIndex, added, shared.suggestions)
    }

    method Advance()
      modifies this`tokenIndex, shared`maxTokenIndex
      ensures tokenIndex == old(tokenIndex) + 1
      ensures shared.maxTokenIndex == Max(old(shared.maxTokenIndex), tokenIndex)
    {
      tokenIndex := tokenIndex + 1;
      if tokenIndex > shared.maxTokenIndex {
        shared.maxTokenIndex := tokenIndex;
      }
    }
  }

  // ----- MatchParseResult -----

  /** The outcome is the one the PEG relation derives; a null result leaves the token index alone. */
  method MatchParseResult(c: Ctx, id: nat, state: MatchState, ghost fuel: nat) returns (out: Outcome)
    requires Closed(c.g) && id < |c.g|
    requires ParseF(c, id, state.tokenIndex, fuel).Done?
    modifies state`tokenIndex, state.shared`maxTokenIndex
    ensures Peg(c, id, old(state.tokenIndex), out)
    ensures out == ParseF(c, id, old(state.tokenIndex), fuel).out
    ensures out.Ok? ==> state.tokenIndex == out.end
    ensures out.Fail? ==> state.tokenIndex == old(state.tokenIndex)
    ensures state.shared.maxTokenIndex ==
            Max(old(state.shared.maxTokenIndex), ParseF(c, id, old(state.tokenIndex), fuel).reach)
    decreases fuel, 0
  {
    ghost var start := state.tokenIndex;
    match c.g[id] {
      case LeafNode(leaf) =>
        if state.tokenIndex >= |c.ts| {
          out := Fail;
        } else {
          var token := c.ts[state.tokenIndex];
          match LeafVerdict(c.kw, leaf, token.text) {
            case Accept =>
              state.Advance();
              out := Ok(state.tokenIndex, LeafTree(leaf, token.text, token.offset));
            case Reject => out := Fail;
            case Throw => out := Thrown;
          }
        }
      case List(children, name, _) =>
        assert ChildrenOf(c.g[id]) == children;
        out := ParseList(c, children, name, state, fuel - 1);
      case Optional(child) =>
        assert ChildrenOf(c.g[id])[0] == child;
        out := ParseOptional(c, child, state, fuel - 1);
      case Choice(children) =>
        assert ChildrenOf(c.g[id]) == children;
        out := ParseChoice(c, children, state, fuel - 1);
      case Repeat(child) =>
        assert ChildrenOf(c.g[id])[0] == child;
        out := ParseRepeat(c, child, state, fuel - 1);
    }
    var _ := Sound(c, id, start, fuel);
  }

  method ParseOptional(c: Ctx, child: nat, state: MatchState, ghost fuel: nat) returns (out: Outcome)
    requires Closed(c.g) && child < |c.g|
    requires ParseF(c, child, state.tokenIndex, fuel).Done?
    modifies state`tokenIndex, state.shared`maxTokenIndex
    ensures var r := OptionalRun(c, old(state.tokenIndex), ParseF(c, child, old(state.tokenIndex), fuel));
            out == r.out && state.shared.maxTokenIndex == Max(old(state.shared.maxTokenIndex), r.reach)
    ensures out.Ok? ==> state.tokenIndex == out.end
    ensures out.Fail? ==> state.tokenIndex == old(state.tokenIndex)
    decreases fuel, 1
  {
    var childState := new MatchState.Copy(state);
    var result := MatchParseResult(c, child, childState, fuel);
    match result {
      case Fail => out := Ok(state.tokenIndex, OptionalTree(None, None));
      case Thrown => out := Thrown;
      case Ok(_, tree) =>
        out := Ok(childState.tokenIndex, OptionalTree(Offset(c.ts, state.tokenIndex), Some(tree)));
        state.tokenIndex := childState.tokenIndex;
    }
  }

  method ParseList(c: Ctx, children: seq<nat>, name: string, state: MatchState, ghost fuel: nat) returns (out: Outcome)
    requires Closed(c.g) && Ids(c.g, children)
    requires ParseListF(c, children, name, state.tokenIndex, state.tokenIndex, [], fuel).Done?
    modifies state`tokenIndex, state.shared`maxTokenIndex
    ensures var r := ParseListF(c, children, name, old(state.tokenIndex), old(state.tokenIndex), [], fuel);
            out == r.out && state.shared.maxTokenIndex == Max(old(state.shared.maxTokenIndex), r.reach)
    ensures out.Ok? ==> state.tokenIndex == out.end
    ensures out.Fail? ==> state.tokenIndex == old(state.tokenIndex)
    decreases fuel, 1
  {
    var listState := new MatchState.Copy(state);
    var results: seq<Tree> := [];
    var start := state.tokenIndex;
    ghost var total := ParseListF(c, children, name, start, start, [], fuel);
    ghost var reach: nat := 0;
    var k := 0;
    assert children[0..] == children;
    while k < |children|
      invariant 0 <= k <= |children|
      invariant state.tokenIndex == start
      invariant ParseListF(c, children[k..], name, start, listState.tokenIndex, results, fuel).Done?
      invariant total ==
                AfterReach(ParseListF(c, children[k..], name, start, listState.tokenIndex, results, fuel), reach)
      invariant state.shared.maxTokenIndex == Max(old(state.shared.maxTokenIndex), reach)
    {
      assert children[k..][0] == children[k] && children[k..][1..] == children[k + 1..];
      ghost var r := ParseF(c, children[k], listState.tokenIndex, fuel);
      var result := MatchParseResult(c, children[k], listState, fuel);
      if !result.Ok? {
        return result;
      }
      reach := Max(reach, r.reach);
      results := results + [result.tree];
      k := k + 1;
    }
    state.tokenIndex := listState.tokenIndex;
    out := Ok(listState.tokenIndex, ListTree(name, Offset(c.ts, start), results));
  }

  method ParseChoice(c: Ctx, children: seq<nat>, state: MatchState, ghost fuel: nat) returns (out: Outcome)
    requires Closed(c.g) && Ids(c.g, children)
    requires ParseChoiceF(c, children, 0, state.tokenIndex, fuel).Done?
    modifies state`tokenIndex, state.shared`maxTokenIndex
    ensures var r := ParseChoiceF(c, children, 0, old(state.tokenIndex), fuel);
            out == r.out && state.shared.maxTokenIndex == Max(old(state.shared.maxTokenIndex), r.reach)
    ensures out.Ok? ==> state.tokenIndex == out.end
    ensures out.Fail? ==> state.tokenIndex == old(state.tokenIndex)
    decreases fuel, 1
  {
    var start := state.tokenIndex;
    ghost var total := ParseChoiceF(c, children, 0, start, fuel);
    ghost var reach: nat := 0;
    var k := 0;
    assert children[0..] == children;
    while k < |children|
      invariant 0 <= k <= |children|
      invariant state.tokenIndex == start
      invariant ParseChoiceF(c, children[k..], k, start, fuel).Done?
      invariant total == AfterReach(ParseChoiceF(c, children[k..], k, start, fuel), reach)
      invariant state.shared.maxTokenIndex == Max(old(state.shared.maxTokenIndex), reach)
    {
      assert children[k..][0] == children[k] && children[k..][1..] == children[k + 1..];
      ghost var r := ParseF(c, children[k], start, fuel);
      var choiceState := new MatchState.Copy(state);
      var result := MatchParseResult(c, children[k], choiceState, fuel);
      match result {
        case Ok(_, tree) =>
          state.tokenIndex := choiceState.tokenIndex;
          return Ok(choiceState.tokenIndex, ChoiceTree(k, Offset(c.ts, start), tree));
        case Thrown => return Thrown;
        case Fail =>
      }
      reach := Max(reach, r.reach);
      k := k + 1;
    }
    out := Fail;
  }

  ghost function ParseRepeatF(c: Ctx, elem: nat, i: nat, fuel: nat): Run
    requires Closed(c.g) && elem < |c.g|
  {
    var r := ParseF(c, elem, i, fuel);
    if r.Done? && r.out.Ok?
    then AfterReach(ParseMoreF(c, elem, i, r.out.end, [r.out.tree], fuel), r.reach)
    else r
  }

  method ParseRepeat(c: Ctx, elem: nat, state: MatchState, ghost fuel: nat) returns (out: Outcome)
    requires Closed(c.g) && elem < |c.g|
    requires ParseRepeatF(c, elem, state.tokenIndex, fuel).Done?
    modifies state`tokenIndex, state.shared`maxTokenIndex
    ensures var r := ParseRepeatF(c, elem, old(state.tokenIndex), fuel);
            out == r.out && state.shared.maxTokenIndex == Max(old(state.shared.maxTokenIndex), r.reach)
    ensures out.Ok? ==> state.tokenIndex == out.end
    ensures out.Fail? ==> state.tokenIndex == old(state.tokenIndex)
    decreases fuel, 1
  {
    var repeatState := new MatchState.Copy(state);
    var start := state.tokenIndex;
    ghost var first := ParseF(c, elem, start, fuel);
    out := MatchParseResult(c, elem, repeatState, fuel);
    if !out.Ok? {
      return;
    }
    out := ParseMore(c, elem, start, state, repeatState, [out.tree], fuel);
  }

  /** The loop of a repeat whose first element has just matched into `repeatState`. */
  method ParseMore(c: Ctx, elem: nat, start: nat, state: MatchState, repeatState: MatchState, first: seq<Tree>,
                   ghost fuel: nat)
    returns (out: Outcome)
    requires Closed(c.g) && elem < |c.g| && state != repeatState && state.shared == repeatState.shared
    requires ParseMoreF(c, elem, start, repeatState.tokenIndex, first, fuel).Done?
    modifies state`tokenIndex, repeatState`tokenIndex, state.shared`maxTokenIndex
    ensures var r := ParseMoreF(c, elem, start, old(repeatState.tokenIndex), first, fuel);
            out == r.out && state.shared.maxTokenIndex == Max(old(state.shared.maxTokenIndex), r.reach)
    ensures !out.Fail? && (out.Ok? ==> state.tokenIndex == out.end)
    decreases fuel, 0
  {
    hide ParseF, Peg, Closed;
    var results := first;
    ghost var total := ParseMoreF(c, elem, start, repeatState.tokenIndex, first, fuel);
    ghost var reach: nat, f: nat := 0, fuel;
    while true
      invariant ParseMoreF(c, elem, start, repeatState.tokenIndex, results, f).Done? && f <= fuel
      invariant total == AfterReach(ParseMoreF(c, elem, start, repeatState.tokenIndex, results, f), reach)
      invariant state.shared.maxTokenIndex == Max(old(state.shared.maxTokenIndex), reach)
      decreases f
    {
      state.tokenIndex := repeatState.tokenIndex;
      if repeatState.tokenIndex >= |c.ts| {
        return Ok(state.tokenIndex, RepeatTree(Offset(c.ts, start), results));
      }
      ghost var r := ParseF(c, elem, repeatState.tokenIndex, f - 1);
      var result := MatchParseResult(c, elem, repeatState, f - 1);
      if result.Thrown? {
        return Thrown;
      }
      if result.Fail? {
        return Ok(state.tokenIndex, RepeatTree(Offset(c.ts, start), results));
      }
      reach, f := Max(reach, r.reach), f - 1;
      results := results + [result.tree];
    }
  }

  /** A run that is known to finish: the one outcome the relation has, and on success a tree whose leaves
      are the tokens passed over. */
  method ParseFinishing(c: Ctx, root: nat, state: MatchState, ghost fuel: nat) returns (out: Outcome)
    requires Closed(c.g) && root < |c.g| && state.tokenIndex <= |c.ts|
    requires ParseF(c, root, state.tokenIndex, fuel).Done?
    modifies state`tokenIndex, state.shared`maxTokenIndex
    ensures out == ParseF(c, root, old(state.tokenIndex), fuel).out
    ensures forall o :: Peg(c, root, old(state.tokenIndex), o) <==> o == out
    ensures out.Ok? ==> old(state.tokenIndex) <= state.tokenIndex == out.end <= |c.ts|
                        && Yield(out.tree) == Offsets(c.ts, old(state.tokenIndex), out.end)
    ensures out.Fail? ==> state.tokenIndex == old(state.tokenIndex)
  {
    ghost var start := state.tokenIndex;
    out := MatchParseResult(c, root, state, fuel);
    forall o | Peg(c, root, start, o) ensures o == out {
      PegDeterministic(c, root, start, o, out);
    }
    if out.Ok? {
      PegYield(c, root, start, out.end, out.tree);
    }
  }

  /** Total correctness on well-formed graphs. */
  method ParseStatement(c: Ctx, root: nat, state: MatchState) returns (out: Outcome)
    requires WellFormed(c.g) && root < |c.g| && state.tokenIndex <= |c.ts|
    modifies state`tokenIndex, state.shared`maxTokenIndex
    ensures forall o :: Peg(c, root, old(state.tokenIndex), o) <==> o == out
    ensures out.Ok? ==> old(state.tokenIndex) <= state.tokenIndex == out.end <= |c.ts|
                        && Yield(out.tree) == Offsets(c.ts, old(state.tokenIndex), out.end)
    ensures out.Fail? ==> state.tokenIndex == old(state.tokenIndex)
  {
    WellFormedTerminates(c, root, state.tokenIndex);
    ghost var f: nat :| ParseF(c, root, state.tokenIndex, f).Done?;
    out := ParseFinishing(c, root, state, f);
  }

  // ----- AddSuggestion and Match -----

  method AddSuggestion(c: Ctx, id: nat, state: MatchState) returns (mandatory: bool)
    requires Closed(c.g) && id < |c.g|
    modifies state`added, state.shared`suggestions
    ensures Suggested(mandatory, state.added, state.shared.suggestions)
         == AddSuggestionF(c.g, id, old(state.added), old(state.shared.suggestions))
    decreases Unadded(c.g, state.added), 0
  {
    if id in state.added {
      return true;
    }
    assert id in Unadded(c.g, state.added);
    state.added := state.added + {id};
    assert id !in Unadded(c.g, state.added);
    match c.g[id] {
      case LeafNode(leaf) =>
        if Suggests(leaf) {
          state.shared.suggestions := state.shared.suggestions + [id];
        }
        mandatory := true;
      case List(children, _, suppress) =>
        assert ChildrenOf(c.g[id]) == children;
        if suppress {
          return false;
        }
        assert children[0..] == children;
        var last;
        mandatory, last := SuggestUntilMandatory(c, children, 0, state);
      case Optional(child) =>
        assert ChildrenOf(c.g[id])[0] == child;
        var _ := AddSuggestion(c, child, state);
        mandatory := false;
      case Choice(children) =>
        assert ChildrenOf(c.g[id]) == children;
        SuggestEach(c, children, state);
        mandatory := true;
      case Repeat(child) =>
        assert ChildrenOf(c.g[id])[0] == child;
        var _ := AddSuggestion(c, child, state);
        mandatory := true;
    }
  }

  /** Ask the children from number `from` on, stopping at the first mandatory one. */
  method SuggestUntilMandatory(c: Ctx, children: seq<nat>, from: nat, state: MatchState)
    returns (mandatory: bool, k: nat)
    requires Closed(c.g) && Ids(c.g, children) && from <= |children|
    modifies state`added, state.shared`suggestions
    ensures Suggested(mandatory, state.added, state.shared.suggestions)
         == SuggestListF(c.g, children[from..], old(state.added), old(state.shared.suggestions))
    ensures from <= k <= |children| && (mandatory <==> k < |children|)
    decreases Unadded(c.g, state.added), 1
  {
    k := from;
    ghost var total := SuggestListF(c.g, children[from..], state.added, state.shared.suggestions);
    while k < |children|
      invariant from <= k <= |children|
      invariant old(state.added) <= state.added
      invariant total == SuggestListF(c.g, children[k..], state.added, state.shared.suggestions)
    {
      assert children[k..][0] == children[k] && children[k..][1..] == children[k + 1..];
      assert Unadded(c.g, state.added) <= Unadded(c.g, old(state.added));
      mandatory := AddSuggestion(c, children[k], state);
      if mandatory {
        return;
      }
      k := k + 1;
    }
    mandatory := false;
  }

  method SuggestEach(c: Ctx, children: seq<nat>, state: MatchState)
    requires Closed(c.g) && Ids(c.g, children)
    modifies state`added, state.shared`suggestions
    ensures Suggested(true, state.added, state.shared.suggestions)
         == SuggestAllF(c.g, children, old(state.added), old(state.shared.suggestions))
    decreases Unadded(c.g, state.added), 1
  {
    ghost var total := SuggestAllF(c.g, children, state.added, state.shared.suggestions);
    var k := 0;
    assert children[0..] == children;
    while k < |children|
      invariant 0 <= k <= |children|
      invariant old(state.added) <= state.added
      invariant total == SuggestAllF(c.g, children[k..], state.added, state.shared.suggestions)
    {
      assert children[k..][0] == children[k] && children[k..][1..] == children[k + 1..];
      assert Unadded(c.g, state.added) <= Unadded(c.g, old(state.added));
      var _ := AddSuggestion(c, children[k], state);
      k := k + 1;
    }
  }

  datatype MatchResult = Success | Failure | Exception

  /** The run's result and final state against its specification. */
  ghost predicate Realizes(result: MatchResult, st: MState, high: nat, oldHigh: nat, r: MRun)
  {
    high == Max(oldHigh, r.reach) &&
    match r
    case MDone(ok, st', _) => result == (if ok then Success else Failure) && st == st'
    case MThrown(_) => result == Exception
    case _ => false
  }

  /** Every matcher but a list is entered on an existing token, in every run: the precondition
      holds at each of the calls below, whatever the graph and the tokens. */
  method Match(c: Ctx, id: nat, state: MatchState, ghost fuel: nat) returns (result: MatchResult)
    requires Closed(c.g) && id < |c.g|
    requires c.g[id].List? || state.tokenIndex < |c.ts|
    requires !MatchF(c, id, state.View(), fuel).MStuck?
    modifies state, state.shared
    ensures Realizes(result, state.View(), state.shared.maxTokenIndex, old(state.shared.maxTokenIndex),
                     MatchF(c, id, old(state.View()), fuel))
    decreases fuel, 0
  {
    match c.g[id] {
      case LeafNode(leaf) =>
        var token := c.ts[state.tokenIndex];
        match LeafVerdict(c.kw, leaf, token.text) {
          case Accept =>
            state.Advance();
            result := Success;
          case Reject => result := Failure;
          case Throw => result := Exception;
        }
      case List(children, _, suppress) =>
        assert ChildrenOf(c.g[id]) == children;
        result := MatchList(c, children, suppress, state, fuel - 1);
      case Optional(child) =>
        assert ChildrenOf(c.g[id])[0] == child;
        result := MatchOptional(c, child, state, fuel - 1);
      case Choice(children) =>
        assert ChildrenOf(c.g[id]) == children;
        result := MatchChoice(c, children, state, fuel - 1);
      case Repeat(child) =>
        assert ChildrenOf(c.g[id])[0] == child;
        result := MatchRepeat(c, child, state, fuel - 1);
    }
  }

  method MatchOptional(c: Ctx, child: nat, state: MatchState, ghost fuel: nat) returns (result: MatchResult)
    requires Closed(c.g) && child < |c.g| && state.tokenIndex < |c.ts|
    requires !MatchF(c, child, Copy(state.View()), fuel).MStuck?
    modifies state, state.shared
    ensures Realizes(result, state.View(), state.shared.maxTokenIndex, old(state.shared.maxTokenIndex),
                     MOptional(old(state.View()), MatchF(c, child, old(Copy(state.View())), fuel)))
    decreases fuel, 1
  {
    var childState := new MatchState.Copy(state);
    assert childState.View() == Copy(state.View());
    result := Match(c, child, childState, fuel);
    if result.Exception? {
      return;
    }
    if result.Success? {
      state.tokenIndex := childState.tokenIndex;
    }
    result := Success;
  }

  /** The next child of a list, or what a list does when its children or the tokens are used up. */
  lemma ListStep(c: Ctx, ids: seq<nat>, suppress: bool, st: MState, ls: MState, fuel: nat)
    requires Closed(c.g) && Ids(c.g, ids) && st.sugg <= ls.sugg
    ensures var all := MatchListF(c, ids, suppress, st, ls, fuel);
            if ids == [] then all == MDone(true, MState(ls.idx, st.added, Kept(suppress, st, ls.sugg)), 0)
            else if ls.idx >= |c.ts| then all == MatchListF(c, ids, suppress, st, ls, 0) && all.reach == 0
            else
              ids[0] < |c.g| && Ids(c.g, ids[1..]) &&
              var r := MatchF(c, ids[0], ls, fuel);
              (r.MDone? ==> st.sugg <= r.st.sugg) &&
              all == if !r.MDone? then r
                     else if !r.ok then MDone(false, MState(st.idx, st.added, Kept(suppress, st, r.st.sugg)), r.reach)
                     else MAfter(MatchListF(c, ids[1..], suppress, st, r.st, fuel), r.reach)
  {
    hide MatchF, SuggestListF;
  }

  method MatchList(c: Ctx, children: seq<nat>, suppress: bool, state: MatchState, ghost fuel: nat)
    returns (result: MatchResult)
    requires Closed(c.g) && Ids(c.g, children)
    requires !MatchListF(c, children, suppress, state.View(), Copy(state.View()), fuel).MStuck?
    modifies state, state.shared
    ensures Realizes(result, state.View(), state.shared.maxTokenIndex, old(state.shared.maxTokenIndex),
                     MatchListF(c, children, suppress, old(state.View()), old(Copy(state.View())), fuel))
    decreases fuel, 1
  {
    hide MatchF, MatchListF, Closed;
    var listState := new MatchState.Copy(state);
    var saved := |state.shared.suggestions|;
    ghost var before := state.View();
    ghost var total := MatchListF(c, children, suppress, before, Copy(before), fuel);
    ghost var reach: nat := 0;
    var k := 0;
    assert children[0..] == children;
    while k < |children|
      invariant 0 <= k <= |children|
      invariant state.tokenIndex == before.idx && state.added == before.added
      invariant before.sugg <= state.shared.suggestions
      invariant !MatchListF(c, children[k..], suppress, before, listState.View(), fuel).MStuck?
      invariant total == MAfter(MatchListF(c, children[k..], suppress, before, listState.View(), fuel), reach)
      invariant state.shared.maxTokenIndex == Max(old(state.shared.maxTokenIndex), reach)
    {
      assert children[k..][0] == children[k] && children[k..][1..] == children[k + 1..];
      ListStep(c, children[k..], suppress, before, listState.View(), fuel);
      if listState.tokenIndex >= |c.ts| {
        result := MatchExhausted(c, children, k, suppress, saved, state, listState, before);
        return;
      }
      ghost var r := MatchF(c, children[k], listState.View(), fuel);
      result := Match(c, children[k], listState, fuel);
      if result.Exception? {
        return;
      }
      if result.Failure? {
        if suppress {
          listState.shared.suggestions := listState.shared.suggestions[..saved];
        }
        return;
      }
      reach := Max(reach, r.reach);
      k := k + 1;
    }
    assert children[k..] == [];
    ListStep(c, [], suppress, before, listState.View(), fuel);
    state.tokenIndex := listState.tokenIndex;
    if suppress {
      state.shared.suggestions := state.shared.suggestions[..saved];
    }
    result := Success;
  }

  /** A list that ran out of tokens before child k: suggest what could follow. */
  method MatchExhausted(c: Ctx, children: seq<nat>, k: nat, suppress: bool, saved: nat,
                        state: MatchState, listState: MatchState, ghost before: MState)
    returns (result: MatchResult)
    requires Closed(c.g) && Ids(c.g, children) && k < |children|
    requires state != listState && state.shared == listState.shared
    requires before.sugg <= listState.shared.suggestions && saved == |before.sugg|
    requires state.tokenIndex == before.idx && state.added == before.added && listState.tokenIndex >= |c.ts|
    modifies state`tokenIndex, listState`added, state.shared`suggestions
    ensures var r := MatchListF(c, children[k..], suppress, before, old(listState.View()), 0);
            r.MDone? && state.View() == r.st && result == if r.ok then Success else Failure
  {
    if suppress {
      listState.shared.suggestions := listState.shared.suggestions[..saved];
      return Failure;
    }
    var mandatory, last := SuggestUntilMandatory(c, children, k, listState);
    state.tokenIndex := listState.tokenIndex;
    result := if last == |children| then Success else Failure;
  }

  method MatchChoice(c: Ctx, children: seq<nat>, state: MatchState, ghost fuel: nat) returns (result: MatchResult)
    requires Closed(c.g) && Ids(c.g, children) && state.tokenIndex < |c.ts|
    requires !MatchChoiceF(c, children, state.View(), fuel).MStuck?
    modifies state, state.shared
    ensures Realizes(result, state.View(), state.shared.maxTokenIndex, old(state.shared.maxTokenIndex),
                     MatchChoiceF(c, children, old(state.View()), fuel))
    decreases fuel, 1
  {
    ghost var total := MatchChoiceF(c, children, state.View(), fuel);
    ghost var reach: nat := 0;
    var k := 0;
    assert children[0..] == children;
    while k < |children|
      invariant 0 <= k <= |children|
      invariant state.tokenIndex == old(state.tokenIndex) && state.added == old(state.added)
      invariant !MatchChoiceF(c, children[k..], state.View(), fuel).MStuck?
      invariant total == MAfter(MatchChoiceF(c, children[k..], state.View(), fuel), reach)
      invariant state.shared.maxTokenIndex == Max(old(state.shared.maxTokenIndex), reach)
    {
      assert children[k..][0] == children[k] && children[k..][1..] == children[k + 1..];
      var choiceState := new MatchState.Copy(state);
      assert choiceState.View() == Copy(state.View());
      ghost var r := MatchF(c, children[k], choiceState.View(), fuel);
      result := Match(c, children[k], choiceState, fuel);
      if !result.Failure? {
        if result.Success? {
          state.tokenIndex := choiceState.tokenIndex;
        }
        return;
      }
      reach := Max(reach, r.reach);
      k := k + 1;
    }
    result := Failure;
  }

  ghost function MatchRepeatF(c: Ctx, elem: nat, st: MState, fuel: nat): MRun
    requires Closed(c.g) && elem < |c.g|
  {
    var r := MatchF(c, elem, Copy(st), fuel);
    if !r.MDone? then r
    else if !r.ok then MDone(false, st.(sugg := r.st.sugg), r.reach)
    else MAfter(MatchMoreF(c, elem, st.(sugg := r.st.sugg), r.st, fuel), r.reach)
  }

  method MatchRepeat(c: Ctx, elem: nat, state: MatchState, ghost fuel: nat) returns (result: MatchResult)
    requires Closed(c.g) && elem < |c.g| && state.tokenIndex < |c.ts|
    requires !MatchRepeatF(c, elem, state.View(), fuel).MStuck?
    modifies state, state.shared
    ensures Realizes(result, state.View(), state.shared.maxTokenIndex, old(state.shared.maxTokenIndex),
                     MatchRepeatF(c, elem, old(state.View()), fuel))
    decreases fuel, 1
  {
    var repeatState := new MatchState.Copy(state);
    assert repeatState.View() == Copy(state.View());
    ghost var first := MatchF(c, elem, repeatState.View(), fuel);
    ghost var total := MatchRepeatF(c, elem, state.View(), fuel);
    result := Match(c, elem, repeatState, fuel);
    if !result.Success? {
      return;
    }
    result := MatchMore(c, elem, state, repeatState, state.View(), fuel);
  }

  /** The next element of a repeat, or what it does when the tokens are used up. */
  lemma MoreStep(c: Ctx, elem: nat, st: MState, rs: MState, fuel: nat)
    requires Closed(c.g) && elem < |c.g| && st.sugg <= rs.sugg
    ensures var all, st1 := MatchMoreF(c, elem, st, rs, fuel), st.(idx := rs.idx, sugg := rs.sugg);
            if rs.idx >= |c.ts| then
              var s := AddSuggestionF(c.g, elem, st1.added, st1.sugg);
              all == MDone(true, MState(st1.idx, s.added, s.sugg), 0)
            else if fuel == 0 then all.MStuck?
            else
              var r := MatchF(c, elem, rs, fuel - 1);
              (r.MDone? ==> st1.sugg <= r.st.sugg) &&
              all == if !r.MDone? then r
                     else if !r.ok then MDone(true, st1.(sugg := r.st.sugg), r.reach)
                     else MAfter(MatchMoreF(c, elem, st1, r.st, fuel - 1), r.reach)
  {
    hide MatchF, AddSuggestionF;
  }

  /** The loop of a repeat whose first element has just matched into `repeatState`. */
  method MatchMore(c: Ctx, elem: nat, state: MatchState, repeatState: MatchState, ghost st0: MState, ghost fuel: nat)
    returns (result: MatchResult)
    requires Closed(c.g) && elem < |c.g| && state != repeatState && state.shared == repeatState.shared
    requires st0 == state.View() && !MatchMoreF(c, elem, st0, repeatState.View(), fuel).MStuck?
    modifies state, repeatState, state.shared
    ensures Realizes(result, state.View(), state.shared.maxTokenIndex, old(state.shared.maxTokenIndex),
                     MatchMoreF(c, elem, st0, old(repeatState.View()), fuel))
    decreases fuel, 0
  {
    hide MatchF, MatchMoreF, AddSuggestionF, Closed;
    ghost var total := MatchMoreF(c, elem, st0, repeatState.View(), fuel);
    ghost var reach: nat, f: nat := 0, fuel;
    ghost var st := st0;
    while true
      invariant st.sugg <= repeatState.shared.suggestions && f <= fuel
      invariant state.added == st.added
      invariant !MatchMoreF(c, elem, st, repeatState.View(), f).MStuck?
      invariant total == MAfter(MatchMoreF(c, elem, st, repeatState.View(), f), reach)
      invariant state.shared.maxTokenIndex == Max(old(state.shared.maxTokenIndex), reach)
      decreases f
    {
      MoreStep(c, elem, st, repeatState.View(), f);
      state.tokenIndex := repeatState.tokenIndex;
      if repeatState.tokenIndex >= |c.ts| {
        var _ := AddSuggestion(c, elem, state);
        return Success;
      }
      ghost var r := MatchF(c, elem, repeatState.View(), f - 1);
      st := state.View();
      result := Match(c, elem, repeatState, f - 1);
      if result.Exception? {
        return;
      }
      if result.Failure? {
        return Success;
      }
      reach, f := Max(reach, r.reach), f - 1;
    }
  }

  /** The verdict is the PEG relation's at that token, and the final token index its end. */
  ghost predicate Decides(c: Ctx, id: nat, start: nat, result: MatchResult, end: nat)
  {
    match result
    case Success => exists tree :: Peg(c, id, start, Ok(end, tree))
    case Failure => Peg(c, id, start, Fail)
    case Exception => Peg(c, id, start, Thrown)
  }

  /** A list that shows its suggestions and in which nothing that may be passed over is met twice. */
  ghost predicate ListsFirst(g: Graph, root: nat)
    requires root < |g|
  {
    g[root].List? && !g[root].suppress && g[root].children != [] && MetOnce(g, g[root].children)
  }

  lemma FinishedRuns(c: Ctx, id: nat, st: MState, f: nat)
    requires Closed(c.g) && id < |c.g|
    ensures !MatchF(c, id, st, f).MStuck? ==> f > 0
  {
  }

  /** A run of autocompletion that is known to finish: unless the tokens were exhausted it decides the PEG
      relation, and at the end of the tokens it suggests exactly what can come first. */
  method SuggestFinishing(c: Ctx, root: nat, state: MatchState, ghost fuel: nat) returns (result: MatchResult)
    requires Closed(c.g) && root < |c.g| && (c.g[root].List? || state.tokenIndex < |c.ts|)
    requires !MatchF(c, root, state.View(), fuel).MStuck?
    modifies state, state.shared
    ensures Realizes(result, state.View(), state.shared.maxTokenIndex, old(state.shared.maxTokenIndex),
                     MatchF(c, root, old(state.View()), fuel))
    ensures old(state.tokenIndex) < |c.ts| && state.shared.maxTokenIndex < |c.ts| ==>
              Decides(c, root, old(state.tokenIndex), result, state.tokenIndex)
    ensures old(state.tokenIndex) >= |c.ts| && ListsFirst(c.g, root) ==>
              SuggestsFirst(c.g, c.g[root].children, old(state.shared.suggestions), state.shared.suggestions)
  {
    hide MatchF, MetOnce, SuggestsFirst;
    result := Match(c, root, state, fuel);
    if old(state.tokenIndex) >= |c.ts| && ListsFirst(c.g, root) {
      FinishedRuns(c, root, old(state.View()), fuel);
      ExhaustedList(c, root, old(state.View()), fuel);
    }
    MatchVerdict(c, root, old(state.View()), fuel);
  }

  /** Total correctness of autocompletion on well-formed graphs, from a list or on an existing token. */
  method SuggestCompletions(c: Ctx, root: nat, state: MatchState) returns (result: MatchResult)
    requires WellFormed(c.g) && root < |c.g| && (c.g[root].List? || state.tokenIndex < |c.ts|)
    modifies state, state.shared
    ensures exists f :: Realizes(result, state.View(), state.shared.maxTokenIndex, old(state.shared.maxTokenIndex),
                                 MatchF(c, root, old(state.View()), f))
    ensures old(state.tokenIndex) < |c.ts| && state.shared.maxTokenIndex < |c.ts| ==>
              Decides(c, root, old(state.tokenIndex), result, state.tokenIndex)
    ensures old(state.tokenIndex) >= |c.ts| && ListsFirst(c.g, root) ==>
              SuggestsFirst(c.g, c.g[root].children, old(state.shared.suggestions), state.shared.suggestions)
  {
    hide MatchF, MetOnce, SuggestsFirst;
    ghost var f := MatchTerminates(c, root, state.View());
    result := SuggestFinishing(c, root, state, f);
  }

  /** The verdict of a run that does not exhaust the tokens. */
  lemma MatchVerdict(c: Ctx, id: nat, st: MState, f: nat)
    requires Closed(c.g) && id < |c.g| && !MatchF(c, id, st, f).MStuck?
    ensures var r := MatchF(c, id, st, f);
            st.idx < |c.ts| && r.reach < |c.ts| ==>
              match r
              case MDone(true, st', _) => exists tree :: Peg(c, id, st.idx, Ok(st'.idx, tree))
              case MDone(false, _, _) => Peg(c, id, st.idx, Fail)
              case MThrown(_) => Peg(c, id, st.idx, Thrown)
              case _ => true
  {
    hide MatchF, ParseF;
    var r := MatchF(c, id, st, f);
    if st.idx < |c.ts| && r.reach < |c.ts| {
      MatchAgreesWithParse(c, id, st, f);
      var p := ParseF(c, id, st.idx, f);
      if p.Done? {
        assert Finishes(c, id, st.idx, p.out);
        ParseComputesPeg(c, id, st.idx, p.out);
      }
    }
  }
}
