/** `Match`: the autocomplete interpreter. It shares the graph with `MatchParseResult`, but keeps
    suggestions, copies and commits its state differently, and handles exhausted tokens itself. */
module PegMatch {
  import opened PegGraph
  import opened PegParse
  import opened PegRelation

  /** A MatchState: token index and already-suggested matchers belong to one copy of the state, the
      suggestions (here the suggesting matchers) are shared by all copies. */
  datatype MState = MState(idx: nat, added: set<nat>, sugg: seq<nat>)

  /** `Crash` is a read past the end of the token vector. */
  datatype MRun =
    | MStuck(reach: nat)
    | MThrown(reach: nat)
    | Crash(reach: nat)
    | MDone(ok: bool, st: MState, reach: nat)

  function Copy(st: MState): MState
  {
    MState(st.idx, {}, st.sugg)
  }

  function MAfter(r: MRun, reach: nat): MRun
  {
    r.(reach := Max(reach, r.reach))
  }

  // ----- suggestions -----

  datatype Suggested = Suggested(mandatory: bool, added: set<nat>, sugg: seq<nat>)

  ghost function Below(n: nat): (r: set<nat>)
    ensures forall k: nat :: k in r <==> k < n
  {
    if n == 0 then {} else Below(n - 1) + {n - 1}
  }

  ghost function Unadded(g: Graph, added: set<nat>): set<nat>
  {
    Below(|g|) - added
  }

  /** Matcher::AddSuggestion: a matcher already asked counts as mandatory. */
  function AddSuggestionF(g: Graph, id: nat, added: set<nat>, sugg: seq<nat>): (r: Suggested)
    requires Closed(g) && id < |g|
    ensures added <= r.added && sugg <= r.sugg
    decreases Unadded(g, added), 0
  {
    if id in added then Suggested(true, added, sugg) else
      assert id in Unadded(g, added) && id !in Unadded(g, added + {id});
      assert forall k :: 0 <= k < |ChildrenOf(g[id])| ==> ChildrenOf(g[id])[k] < |g|;
      match g[id]
      case LeafNode(leaf) => Suggested(true, added + {id}, if Suggests(leaf) then sugg + [id] else sugg)
      case List(children, _, suppress) =>
        if suppress then Suggested(false, added + {id}, sugg)
        else SuggestListF(g, children, added + {id}, sugg)
      case Optional(child) =>
        assert ChildrenOf(g[id])[0] == child;
        AddSuggestionF(g, child, added + {id}, sugg).(mandatory := false)
      case Choice(children) => SuggestAllF(g, children, added + {id}, sugg)
      case Repeat(child) =>
        assert ChildrenOf(g[id])[0] == child;
        AddSuggestionF(g, child, added + {id}, sugg).(mandatory := true)
  }

  /** Ask the matchers in order up to and including the first mandatory one. */
  function SuggestListF(g: Graph, ids: seq<nat>, added: set<nat>, sugg: seq<nat>): (r: Suggested)
    requires Closed(g) && Ids(g, ids)
    ensures added <= r.added && sugg <= r.sugg
    decreases Unadded(g, added), |ids| + 1
  {
    if ids == [] then Suggested(false, added, sugg) else
      var r := AddSuggestionF(g, ids[0], added, sugg);
      assert Unadded(g, r.added) <= Unadded(g, added);
      assert Unadded(g, r.added) == Unadded(g, added) || Unadded(g, r.added) < Unadded(g, added);
      if r.mandatory then r else SuggestListF(g, ids[1..], r.added, r.sugg)
  }

  function SuggestAllF(g: Graph, ids: seq<nat>, added: set<nat>, sugg: seq<nat>): (r: Suggested)
    requires Closed(g) && Ids(g, ids)
    ensures added <= r.added && sugg <= r.sugg && r.mandatory
    decreases Unadded(g, added), |ids| + 1
  {
    if ids == [] then Suggested(true, added, sugg) else
      var r := AddSuggestionF(g, ids[0], added, sugg);
      assert Unadded(g, r.added) <= Unadded(g, added);
      assert Unadded(g, r.added) == Unadded(g, added) || Unadded(g, r.added) < Unadded(g, added);
      SuggestAllF(g, ids[1..], r.added, r.sugg)
  }

  // ----- matching -----

  function MatchLeaf(c: Ctx, leaf: Leaf, st: MState): (r: MRun)
  {
    if st.idx >= |c.ts| then (if Guarded(leaf) then MDone(false, st, 0) else Crash(0))
    else
      match LeafVerdict(c.kw, leaf, c.ts[st.idx].text)
      case Accept => MDone(true, st.(idx := st.idx + 1), st.idx + 1)
      case Reject => MDone(false, st, 0)
      case Throw => MThrown(0)
  }

  function MatchF(c: Ctx, id: nat, st: MState, fuel: nat): (r: MRun)
    requires Closed(c.g) && id < |c.g|
    ensures r.MDone? ==> st.sugg <= r.st.sugg && st.added <= r.st.added
    ensures r.MDone? && r.ok ==> st.idx <= r.st.idx
    decreases fuel, 0
  {
    if fuel == 0 then MStuck(0) else
      match c.g[id]
      case LeafNode(leaf) => MatchLeaf(c, leaf, st)
      case List(children, _, suppress) =>
        assert ChildrenOf(c.g[id]) == children;
        MatchListF(c, children, suppress, st, Copy(st), fuel - 1)
      case Optional(child) =>
        assert ChildrenOf(c.g[id])[0] == child;
        MOptional(st, MatchF(c, child, Copy(st), fuel - 1))
      case Choice(children) =>
        assert ChildrenOf(c.g[id]) == children;
        MatchChoiceF(c, children, st, fuel - 1)
      case Repeat(child) =>
        assert ChildrenOf(c.g[id])[0] == child;
        var r := MatchF(c, child, Copy(st), fuel - 1);
        if !r.MDone? then r
        else if !r.ok then MDone(false, st.(sugg := r.st.sugg), r.reach)
        else MAfter(MatchMoreF(c, child, st.(sugg := r.st.sugg), r.st, fuel - 1), r.reach)
  }

  function MOptional(st: MState, r: MRun): MRun
  {
    if !r.MDone? then r
    else if !r.ok then MDone(true, st.(sugg := r.st.sugg), r.reach)
    else MDone(true, st.(idx := r.st.idx, sugg := r.st.sugg), r.reach)
  }

  /** What a suppressing list leaves of the suggestions its children pushed. */
  function Kept(suppress: bool, st: MState, sugg: seq<nat>): (r: seq<nat>)
    requires st.sugg <= sugg
  {
    if suppress then sugg[..|st.sugg|] else sugg
  }

  /** st is the caller's state, ls the list's own copy after the earlier children. */
  function MatchListF(c: Ctx, ids: seq<nat>, suppress: bool, st: MState, ls: MState, fuel: nat): (r: MRun)
    requires Closed(c.g) && Ids(c.g, ids) && st.sugg <= ls.sugg
    ensures r.MDone? ==> st.sugg <= r.st.sugg && st.added <= r.st.added
    ensures r.MDone? && r.ok ==> ls.idx <= r.st.idx
    decreases fuel, |ids| + 1
  {
    if ids == [] then MDone(true, MState(ls.idx, st.added, Kept(suppress, st, ls.sugg)), 0)
    else if ls.idx >= |c.ts| then
      if suppress then MDone(false, MState(st.idx, st.added, Kept(true, st, ls.sugg)), 0)
      else
        var s := SuggestListF(c.g, ids, ls.added, ls.sugg);
        MDone(!s.mandatory, MState(ls.idx, st.added, s.sugg), 0)
    else
      var r := MatchF(c, ids[0], ls, fuel);
      if !r.MDone? then r
      else if !r.ok then MDone(false, MState(st.idx, st.added, Kept(suppress, st, r.st.sugg)), r.reach)
      else MAfter(MatchListF(c, ids[1..], suppress, st, r.st, fuel), r.reach)
  }

  function MatchChoiceF(c: Ctx, ids: seq<nat>, st: MState, fuel: nat): (r: MRun)
    requires Closed(c.g) && Ids(c.g, ids)
    ensures r.MDone? ==> st.sugg <= r.st.sugg && st.added <= r.st.added
    ensures r.MDone? && r.ok ==> st.idx <= r.st.idx
    decreases fuel, |ids| + 1
  {
    if ids == [] then MDone(false, st, 0)
    else
      var r := MatchF(c, ids[0], Copy(st), fuel);
      if !r.MDone? then r
      else if r.ok then MDone(true, st.(idx := r.st.idx, sugg := r.st.sugg), r.reach)
      else MAfter(MatchChoiceF(c, ids[1..], st.(sugg := r.st.sugg), fuel), r.reach)
  }

  /** The repeat loop after a success that left the repeat's own copy in state rs. */
  function MatchMoreF(c: Ctx, elem: nat, st: MState, rs: MState, fuel: nat): (r: MRun)
    requires Closed(c.g) && elem < |c.g| && st.sugg <= rs.sugg
    ensures r.MDone? ==> st.sugg <= r.st.sugg && st.added <= r.st.added
    ensures r.MDone? && r.ok ==> rs.idx <= r.st.idx
    decreases fuel, 1
  {
    var st1 := st.(idx := rs.idx, sugg := rs.sugg);
    if rs.idx >= |c.ts| then
      var s := AddSuggestionF(c.g, elem, st1.added, st1.sugg);
      MDone(true, MState(st1.idx, s.added, s.sugg), 0)
    else if fuel == 0 then MStuck(0)
    else
      var r := MatchF(c, elem, rs, fuel - 1);
      if !r.MDone? then r
      else if !r.ok then MDone(true, st1.(sugg := r.st.sugg), r.reach)
      else MAfter(MatchMoreF(c, elem, st1, r.st, fuel - 1), r.reach)
  }

  // ----- no run reads past the tokens -----

  /** Entered at the end of the tokens, keyword and string leaves fail; the other leaves read past it. */
  lemma LeafAtEnd(c: Ctx, leaf: Leaf, st: MState)
    requires st.idx >= |c.ts|
    ensures MatchLeaf(c, leaf, st) == match leaf
                                      case Keyword(_) | StringLiteral => MDone(false, st, 0)
                                      case _ => Crash(0)
  {
  }

  /** Entered on a list, or on an existing token, no run of any graph reads past the tokens. */
  lemma {:induction false} MatchNeverCrashes(c: Ctx, id: nat, st: MState, f: nat)
    requires Closed(c.g) && id < |c.g|
    requires c.g[id].List? || st.idx < |c.ts|
    ensures !MatchF(c, id, st, f).Crash?
    decreases f, 0
  {
    if f > 0 {
      match c.g[id]
      case LeafNode(_) =>
      case List(children, _, suppress) =>
        assert ChildrenOf(c.g[id]) == children;
        ListNeverCrashes(c, children, suppress, st, Copy(st), f - 1);
      case Optional(child) =>
        assert ChildrenOf(c.g[id])[0] == child;
        MatchNeverCrashes(c, child, Copy(st), f - 1);
      case Choice(children) =>
        assert ChildrenOf(c.g[id]) == children;
        ChoiceNeverCrashes(c, children, st, f - 1);
      case Repeat(child) =>
        assert ChildrenOf(c.g[id])[0] == child;
        MatchNeverCrashes(c, child, Copy(st), f - 1);
        var r := MatchF(c, child, Copy(st), f - 1);
        if r.MDone? && r.ok {
          MoreNeverCrashes(c, child, st.(sugg := r.st.sugg), r.st, f - 1);
        }
    }
  }

  lemma {:induction false} ListNeverCrashes(c: Ctx, ids: seq<nat>, suppress: bool, st: MState, ls: MState, f: nat)
    requires Closed(c.g) && Ids(c.g, ids) && st.sugg <= ls.sugg
    ensures !MatchListF(c, ids, suppress, st, ls, f).Crash?
    decreases f, |ids| + 1
  {
    if ids != [] && ls.idx < |c.ts| {
      MatchNeverCrashes(c, ids[0], ls, f);
      var r := MatchF(c, ids[0], ls, f);
      if r.MDone? && r.ok {
        ListNeverCrashes(c, ids[1..], suppress, st, r.st, f);
      }
    }
  }

  lemma {:induction false} ChoiceNeverCrashes(c: Ctx, ids: seq<nat>, st: MState, f: nat)
    requires Closed(c.g) && Ids(c.g, ids) && st.idx < |c.ts|
    ensures !MatchChoiceF(c, ids, st, f).Crash?
    decreases f, |ids| + 1
  {
    if ids != [] {
      MatchNeverCrashes(c, ids[0], Copy(st), f);
      var r := MatchF(c, ids[0], Copy(st), f);
      if r.MDone? && !r.ok {
        ChoiceNeverCrashes(c, ids[1..], st.(sugg := r.st.sugg), f);
      }
    }
  }

  lemma {:induction false} MoreNeverCrashes(c: Ctx, elem: nat, st: MState, rs: MState, f: nat)
    requires Closed(c.g) && elem < |c.g| && st.sugg <= rs.sugg
    ensures !MatchMoreF(c, elem, st, rs, f).Crash?
    decreases f, 1
  {
    if rs.idx < |c.ts| && f > 0 {
      MatchNeverCrashes(c, elem, rs, f - 1);
      var r := MatchF(c, elem, rs, f - 1);
      if r.MDone? && r.ok {
        MoreNeverCrashes(c, elem, st.(idx := rs.idx, sugg := rs.sugg), r.st, f - 1);
      }
    }
  }

  // ----- a suppressing rule contributes no suggestion -----

  lemma SuppressedListSuggestsNothing(c: Ctx, id: nat, st: MState, f: nat)
    requires Closed(c.g) && id < |c.g| && c.g[id].List? && c.g[id].suppress
    ensures MatchF(c, id, st, f).MDone? ==> MatchF(c, id, st, f).st.sugg == st.sugg
    ensures forall added :: AddSuggestionF(c.g, id, added, st.sugg).sugg == st.sugg
  {
    assert ChildrenOf(c.g[id]) == c.g[id].children;
    if f > 0 { SuppressedTail(c, c.g[id].children, st, Copy(st), f - 1); }
  }

  lemma {:induction false} SuppressedTail(c: Ctx, ids: seq<nat>, st: MState, ls: MState, f: nat)
    requires Closed(c.g) && Ids(c.g, ids) && st.sugg <= ls.sugg
    ensures var r := MatchListF(c, ids, true, st, ls, f); r.MDone? ==> r.st.sugg == st.sugg
    decreases |ids|
  {
    if ids != [] && ls.idx < |c.ts| {
      var r := MatchF(c, ids[0], ls, f);
      if r.MDone? && r.ok {
        SuppressedTail(c, ids[1..], st, r.st, f);
      }
    }
  }

  // ----- agreement with the parse-tree interpreter -----

  /** Same verdict, same final token index, same high-water mark, same need for fuel. */
  ghost predicate Agree(m: MRun, p: Run)
  {
    m.reach == p.reach &&
    match m
    case MStuck(_) => p.Stuck?
    case MThrown(_) => p.Done? && p.out.Thrown?
    case Crash(_) => false
    case MDone(ok, st, _) => p.Done? && (if ok then p.out.Ok? && p.out.end == st.idx else p.out.Fail?)
  }

  /** One of the two runs never advances past the last token but one, i.e. never exhausts the tokens. */
  ghost predicate StaysBelow(c: Ctx, m: MRun, p: Run)
  {
    m.reach < |c.ts| || p.reach < |c.ts|
  }

  /** `Match` and `MatchParseResult` agree on every run that does not exhaust the tokens. */
  lemma {:induction false} MatchAgreesWithParse(c: Ctx, id: nat, st: MState, f: nat)
    requires Closed(c.g) && id < |c.g| && st.idx < |c.ts|
    requires StaysBelow(c, MatchF(c, id, st, f), ParseF(c, id, st.idx, f))
    ensures Agree(MatchF(c, id, st, f), ParseF(c, id, st.idx, f))
    decreases f, 0
  {
    if f > 0 {
      match c.g[id]
      case LeafNode(_) =>
      case List(children, name, suppress) =>
        assert ChildrenOf(c.g[id]) == children;
        ListAgrees(c, children, name, suppress, st, Copy(st), [], f - 1);
      case Optional(child) =>
        assert ChildrenOf(c.g[id])[0] == child;
        MatchAgreesWithParse(c, child, Copy(st), f - 1);
      case Choice(children) =>
        assert ChildrenOf(c.g[id]) == children;
        ChoiceAgrees(c, children, 0, st, f - 1);
      case Repeat(child) =>
        RepeatAgrees(c, id, child, st, f);
    }
  }

  lemma {:induction false} RepeatAgrees(c: Ctx, id: nat, child: nat, st: MState, f: nat)
    requires Closed(c.g) && id < |c.g| && st.idx < |c.ts| && f > 0 && c.g[id] == Repeat(child)
    requires StaysBelow(c, MatchF(c, id, st, f), ParseF(c, id, st.idx, f))
    ensures Agree(MatchF(c, id, st, f), ParseF(c, id, st.idx, f))
    decreases f - 1, 2
  {
    hide MatchMoreF, ParseMoreF;
    assert ChildrenOf(c.g[id])[0] == child;
    var m, p := MatchF(c, child, Copy(st), f - 1), ParseF(c, child, st.idx, f - 1);
    assert m.reach <= MatchF(c, id, st, f).reach && p.reach <= ParseF(c, id, st.idx, f).reach;
    MatchAgreesWithParse(c, child, Copy(st), f - 1);
    if m.MDone? && m.ok {
      ParseYield(c, child, st.idx, f - 1);
      MoreAgrees(c, child, st.idx, st.(sugg := m.st.sugg), m.st, [p.out.tree], f - 1);
    }
  }

  lemma {:induction false} ListAgrees(c: Ctx, ids: seq<nat>, name: string, suppress: bool, st: MState, ls: MState,
                                      acc: seq<Tree>, f: nat)
    requires Closed(c.g) && Ids(c.g, ids) && st.sugg <= ls.sugg && ls.idx < |c.ts|
    requires StaysBelow(c, MatchListF(c, ids, suppress, st, ls, f), ParseListF(c, ids, name, st.idx, ls.idx, acc, f))
    ensures Agree(MatchListF(c, ids, suppress, st, ls, f), ParseListF(c, ids, name, st.idx, ls.idx, acc, f))
    decreases f, |ids| + 1
  {
    hide MatchF, ParseF;
    if ids != [] {
      var m, p := MatchF(c, ids[0], ls, f), ParseF(c, ids[0], ls.idx, f);
      assert m.reach <= MatchListF(c, ids, suppress, st, ls, f).reach;
      assert p.reach <= ParseListF(c, ids, name, st.idx, ls.idx, acc, f).reach;
      MatchAgreesWithParse(c, ids[0], ls, f);
      if m.MDone? && m.ok {
        ParseYield(c, ids[0], ls.idx, f);
        ListAgrees(c, ids[1..], name, suppress, st, m.st, acc + [p.out.tree], f);
      }
    }
  }

  lemma {:induction false} ChoiceAgrees(c: Ctx, ids: seq<nat>, k: nat, st: MState, f: nat)
    requires Closed(c.g) && Ids(c.g, ids) && st.idx < |c.ts|
    requires StaysBelow(c, MatchChoiceF(c, ids, st, f), ParseChoiceF(c, ids, k, st.idx, f))
    ensures Agree(MatchChoiceF(c, ids, st, f), ParseChoiceF(c, ids, k, st.idx, f))
    decreases f, |ids| + 1
  {
    hide MatchF, ParseF;
    if ids != [] {
      var m, p := MatchF(c, ids[0], Copy(st), f), ParseF(c, ids[0], st.idx, f);
      assert m.reach <= MatchChoiceF(c, ids, st, f).reach;
      assert p.reach <= ParseChoiceF(c, ids, k, st.idx, f).reach;
      MatchAgreesWithParse(c, ids[0], Copy(st), f);
      if m.MDone? && !m.ok {
        ChoiceAgrees(c, ids[1..], k + 1, st.(sugg := m.st.sugg), f);
      }
    }
  }

  lemma {:induction false} MoreAgrees(c: Ctx, elem: nat, start: nat, st: MState, rs: MState, acc: seq<Tree>, f: nat)
    requires Closed(c.g) && elem < |c.g| && st.sugg <= rs.sugg && rs.idx < |c.ts|
    requires StaysBelow(c, MatchMoreF(c, elem, st, rs, f), ParseMoreF(c, elem, start, rs.idx, acc, f))
    ensures Agree(MatchMoreF(c, elem, st, rs, f), ParseMoreF(c, elem, start, rs.idx, acc, f))
    decreases f, 1
  {
    hide MatchF, ParseF;
    if f > 0 {
      var m, p := MatchF(c, elem, rs, f - 1), ParseF(c, elem, rs.idx, f - 1);
      assert m.reach <= MatchMoreF(c, elem, st, rs, f).reach;
      assert p.reach <= ParseMoreF(c, elem, start, rs.idx, acc, f).reach;
      MatchAgreesWithParse(c, elem, rs, f - 1);
      if m.MDone? && m.ok {
        ParseYield(c, elem, rs.idx, f - 1);
        MoreAgrees(c, elem, start, st.(idx := rs.idx, sugg := rs.sugg), m.st, acc + [p.out.tree], f - 1);
      }
    }
  }

  /** So a `Match` run that does not exhaust the tokens decides the PEG relation. */
  lemma MatchDecidesPeg(c: Ctx, id: nat, st: MState, f: nat)
    requires Closed(c.g) && id < |c.g| && st.idx < |c.ts|
    requires MatchF(c, id, st, f).MDone? && MatchF(c, id, st, f).reach < |c.ts|
    ensures MatchF(c, id, st, f).ok ==> exists tree :: Peg(c, id, st.idx, Ok(MatchF(c, id, st, f).st.idx, tree))
    ensures !MatchF(c, id, st, f).ok ==> Peg(c, id, st.idx, Fail)
  {
    MatchAgreesWithParse(c, id, st, f);
    var p := ParseF(c, id, st.idx, f);
    assert Finishes(c, id, st.idx, p.out);
    ParseComputesPeg(c, id, st.idx, p.out);
  }
}
