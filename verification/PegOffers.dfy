/** What a whole run of `Match` suggests: the leaves that can come first wherever the run comes to the end of
    the tokens. */
module PegOffers {
  import opened PegGraph
  import opened PegMatch
  import opened PegFirst

  // ----- where a run comes to the end of the tokens -----

  /** The run comes to the end of the tokens in front of the matchers `ids`, outside every silent list, when
      the matchers `added` have been asked. */
  ghost predicate Ends(c: Ctx, id: nat, st: MState, f: nat, ids: seq<nat>, added: set<nat>)
    requires Closed(c.g) && id < |c.g|
    decreases f, 0
  {
    f > 0 &&
    match c.g[id]
    case LeafNode(_) => false
    case List(children, _, suppress) =>
      assert ChildrenOf(c.g[id]) == children;
      !suppress && EndsList(c, children, Copy(st), f - 1, ids, added)
    case Optional(child) =>
      assert ChildrenOf(c.g[id])[0] == child;
      Ends(c, child, Copy(st), f - 1, ids, added)
    case Choice(children) =>
      assert ChildrenOf(c.g[id]) == children;
      EndsChoice(c, children, st, f - 1, ids, added)
    case Repeat(child) =>
      assert ChildrenOf(c.g[id])[0] == child;
      Ends(c, child, Copy(st), f - 1, ids, added) ||
      (var r := MatchF(c, child, Copy(st), f - 1);
       r.MDone? && r.ok && EndsMore(c, child, st.(sugg := r.st.sugg), r.st, f - 1, ids, added))
  }

  ghost predicate EndsList(c: Ctx, rest: seq<nat>, ls: MState, f: nat, ids: seq<nat>, added: set<nat>)
    requires Closed(c.g) && Ids(c.g, rest)
    decreases f, |rest| + 1
  {
    rest != [] &&
    if ls.idx >= |c.ts| then ids == rest && added == ls.added
    else
      Ends(c, rest[0], ls, f, ids, added) ||
      (var r := MatchF(c, rest[0], ls, f); r.MDone? && r.ok && EndsList(c, rest[1..], r.st, f, ids, added))
  }

  /** Some alternative does: all before it have been tried and failed. */
  ghost predicate EndsChoice(c: Ctx, alternatives: seq<nat>, st: MState, f: nat, ids: seq<nat>, added: set<nat>)
    requires Closed(c.g) && Ids(c.g, alternatives)
    decreases f, |alternatives| + 1
  {
    alternatives != [] &&
    (Ends(c, alternatives[0], Copy(st), f, ids, added) ||
     (var r := MatchF(c, alternatives[0], Copy(st), f);
      r.MDone? && !r.ok && EndsChoice(c, alternatives[1..], st.(sugg := r.st.sugg), f, ids, added)))
  }

  /** The element fails, or another one may follow at the end of the tokens. */
  ghost predicate EndsMore(c: Ctx, elem: nat, st: MState, rs: MState, f: nat, ids: seq<nat>, added: set<nat>)
    requires Closed(c.g) && elem < |c.g|
    decreases f, 1
  {
    var st1 := st.(idx := rs.idx, sugg := rs.sugg);
    if rs.idx >= |c.ts| then ids == [elem] && added == st.added
    else
      f > 0 &&
      (Ends(c, elem, rs, f - 1, ids, added) ||
       (var r := MatchF(c, elem, rs, f - 1); r.MDone? && r.ok && EndsMore(c, elem, st1, r.st, f - 1, ids, added)))
  }

  // ----- the suggestions of a run -----

  /** Every leaf that can come first in `ids` is suggested between two states of the suggestions. */
  ghost predicate Offers(g: Graph, ids: seq<nat>, was: seq<nat>, now: seq<nat>)
  {
    was <= now && forall x :: CanComeFirst(g, ids, x) ==> x in now[|was|..]
  }

  lemma OffersMore(g: Graph, ids: seq<nat>, was: seq<nat>, now: seq<nat>, before: seq<nat>, after: seq<nat>)
    requires before <= was && now <= after && Offers(g, ids, was, now)
    ensures Offers(g, ids, before, after)
  {
    forall x | CanComeFirst(g, ids, x) ensures x in after[|before|..] {
      var k :| 0 <= k < |now[|was|..]| && now[|was|..][k] == x;
      assert after[|before|..][k + |was| - |before|] == x;
    }
  }

  /** Where a list or a repeat comes to the end, all that can come first is suggested. */
  lemma AskOffers(g: Graph, ids: seq<nat>, sugg: seq<nat>)
    requires Closed(g) && Ids(g, ids) && MetOnce(g, ids)
    ensures Offers(g, ids, sugg, SuggestListF(g, ids, {}, sugg).sugg)
  {
    SuggestsExactly(g, ids, sugg);
  }

  lemma AskOne(g: Graph, id: nat, added: set<nat>, sugg: seq<nat>)
    requires Closed(g) && id < |g|
    ensures SuggestListF(g, [id], added, sugg).sugg == AddSuggestionF(g, id, added, sugg).sugg
  {
    assert [id][1..] == [];
  }

  /** A run suggests all that can come first at each of its ends, if nothing has been asked there before and
      nothing that may be passed over is met twice: failed alternatives and options included. */
  lemma {:induction false} RunOffers(c: Ctx, id: nat, st: MState, f: nat, ids: seq<nat>)
    requires Closed(c.g) && id < |c.g| && MatchF(c, id, st, f).MDone?
    requires Ends(c, id, st, f, ids, {}) && MetOnce(c.g, ids)
    ensures Offers(c.g, ids, st.sugg, MatchF(c, id, st, f).st.sugg)
    decreases f, 0
  {
    hide Offers, MetOnce;
    match c.g[id]
    case LeafNode(_) =>
    case List(children, _, suppress) =>
      assert ChildrenOf(c.g[id]) == children;
      ListOffers(c, children, st, Copy(st), f - 1, ids);
    case Optional(child) =>
      assert ChildrenOf(c.g[id])[0] == child;
      RunOffers(c, child, Copy(st), f - 1, ids);
    case Choice(children) =>
      assert ChildrenOf(c.g[id]) == children;
      ChoiceOffers(c, children, st, f - 1, ids);
    case Repeat(child) =>
      assert ChildrenOf(c.g[id])[0] == child;
      var r := MatchF(c, child, Copy(st), f - 1);
      var now := MatchF(c, id, st, f).st.sugg;
      if Ends(c, child, Copy(st), f - 1, ids, {}) {
        RunOffers(c, child, Copy(st), f - 1, ids);
        OffersMore(c.g, ids, st.sugg, r.st.sugg, st.sugg, now);
      } else {
        MoreOffers(c, child, st.(sugg := r.st.sugg), r.st, f - 1, ids);
        OffersMore(c.g, ids, r.st.sugg, now, st.sugg, now);
      }
  }

  lemma {:induction false} ListKeeps(c: Ctx, rest: seq<nat>, st: MState, ls: MState, f: nat)
    requires Closed(c.g) && Ids(c.g, rest) && st.sugg <= ls.sugg
    ensures var r := MatchListF(c, rest, false, st, ls, f); r.MDone? ==> ls.sugg <= r.st.sugg
    decreases |rest|
  {
    hide MatchF, SuggestListF;
    if rest != [] && ls.idx < |c.ts| {
      var r := MatchF(c, rest[0], ls, f);
      if r.MDone? && r.ok { ListKeeps(c, rest[1..], st, r.st, f); }
    }
  }

  lemma {:induction false} ListOffers(c: Ctx, rest: seq<nat>, st: MState, ls: MState, f: nat, ids: seq<nat>)
    requires Closed(c.g) && Ids(c.g, rest) && st.sugg <= ls.sugg && MatchListF(c, rest, false, st, ls, f).MDone?
    requires EndsList(c, rest, ls, f, ids, {}) && MetOnce(c.g, ids)
    ensures Offers(c.g, ids, st.sugg, MatchListF(c, rest, false, st, ls, f).st.sugg)
    decreases f, |rest| + 1
  {
    hide Offers, MetOnce, SuggestListF, MatchF;
    var now := MatchListF(c, rest, false, st, ls, f).st.sugg;
    if ls.idx >= |c.ts| {
      AskOffers(c.g, ids, ls.sugg);
      OffersMore(c.g, ids, ls.sugg, now, st.sugg, now);
    } else {
      var r := MatchF(c, rest[0], ls, f);
      if Ends(c, rest[0], ls, f, ids, {}) {
        RunOffers(c, rest[0], ls, f, ids);
        if r.ok { ListKeeps(c, rest[1..], st, r.st, f); }
        OffersMore(c.g, ids, ls.sugg, r.st.sugg, st.sugg, now);
      } else {
        ListOffers(c, rest[1..], st, r.st, f, ids);
      }
    }
  }

  lemma {:induction false} ChoiceOffers(c: Ctx, alternatives: seq<nat>, st: MState, f: nat, ids: seq<nat>)
    requires Closed(c.g) && Ids(c.g, alternatives) && MatchChoiceF(c, alternatives, st, f).MDone?
    requires EndsChoice(c, alternatives, st, f, ids, {}) && MetOnce(c.g, ids)
    ensures Offers(c.g, ids, st.sugg, MatchChoiceF(c, alternatives, st, f).st.sugg)
    decreases f, |alternatives| + 1
  {
    hide Offers, MetOnce, MatchF;
    var now := MatchChoiceF(c, alternatives, st, f).st.sugg;
    var r := MatchF(c, alternatives[0], Copy(st), f);
    if Ends(c, alternatives[0], Copy(st), f, ids, {}) {
      RunOffers(c, alternatives[0], Copy(st), f, ids);
      OffersMore(c.g, ids, st.sugg, r.st.sugg, st.sugg, now);
    } else {
      ChoiceOffers(c, alternatives[1..], st.(sugg := r.st.sugg), f, ids);
      OffersMore(c.g, ids, r.st.sugg, now, st.sugg, now);
    }
  }

  lemma {:induction false} MoreOffers(c: Ctx, elem: nat, st: MState, rs: MState, f: nat, ids: seq<nat>)
    requires Closed(c.g) && elem < |c.g| && st.sugg <= rs.sugg && MatchMoreF(c, elem, st, rs, f).MDone?
    requires EndsMore(c, elem, st, rs, f, ids, {}) && MetOnce(c.g, ids)
    ensures Offers(c.g, ids, st.sugg, MatchMoreF(c, elem, st, rs, f).st.sugg)
    decreases f, 1
  {
    hide Offers, MetOnce, AddSuggestionF, SuggestListF, MatchF;
    var now := MatchMoreF(c, elem, st, rs, f).st.sugg;
    var st1 := st.(idx := rs.idx, sugg := rs.sugg);
    if rs.idx >= |c.ts| {
      AskOffers(c.g, ids, rs.sugg);
      AskOne(c.g, elem, {}, rs.sugg);
      OffersMore(c.g, ids, rs.sugg, now, st.sugg, now);
    } else {
      var r := MatchF(c, elem, rs, f - 1);
      if Ends(c, elem, rs, f - 1, ids, {}) {
        RunOffers(c, elem, rs, f - 1, ids);
        OffersMore(c.g, ids, rs.sugg, r.st.sugg, st.sugg, now);
      } else {
        MoreOffers(c, elem, st1, r.st, f - 1, ids);
        OffersMore(c.g, ids, rs.sugg, now, st.sugg, now);
      }
    }
  }

  // ----- and nothing else -----

  /** Every suggestion of a run can come first at one of its ends. */
  lemma {:induction false} SuggestedAtEnd(c: Ctx, id: nat, st: MState, f: nat, x: nat)
    returns (ids: seq<nat>, added: set<nat>)
    requires Closed(c.g) && id < |c.g| && MatchF(c, id, st, f).MDone?
    requires x in MatchF(c, id, st, f).st.sugg[|st.sugg|..]
    ensures Ends(c, id, st, f, ids, added) && CanComeFirst(c.g, ids, x)
    decreases f, 0
  {
    hide CanComeFirst;
    match c.g[id]
    case LeafNode(_) => assert false;
    case List(children, _, suppress) =>
      assert ChildrenOf(c.g[id]) == children;
      SilentKeeps(c, children, st, Copy(st), f - 1);
      ids, added := ListSuggested(c, children, st, Copy(st), f - 1, x);
    case Optional(child) =>
      assert ChildrenOf(c.g[id])[0] == child;
      ids, added := SuggestedAtEnd(c, child, Copy(st), f - 1, x);
    case Choice(children) =>
      assert ChildrenOf(c.g[id]) == children;
      ids, added := ChoiceSuggested(c, children, st, f - 1, x);
    case Repeat(child) =>
      assert ChildrenOf(c.g[id])[0] == child;
      var r := MatchF(c, child, Copy(st), f - 1);
      if x in r.st.sugg[|st.sugg|..] {
        ids, added := SuggestedAtEnd(c, child, Copy(st), f - 1, x);
      } else {
        LaterSuggestion(st.sugg, r.st.sugg, MatchF(c, id, st, f).st.sugg, x);
        ids, added := MoreSuggested(c, child, st.(sugg := r.st.sugg), r.st, f - 1, x);
      }
  }

  lemma LaterSuggestion(a: seq<nat>, b: seq<nat>, c: seq<nat>, x: nat)
    requires a <= b <= c && x in c[|a|..]
    ensures x in b[|a|..] || x in c[|b|..]
  {
    var k :| 0 <= k < |c[|a|..]| && c[|a|..][k] == x;
    if k < |b| - |a| { assert b[|a|..][k] == x; } else { assert c[|b|..][k - (|b| - |a|)] == x; }
  }

  lemma {:induction false} SilentKeeps(c: Ctx, rest: seq<nat>, st: MState, ls: MState, f: nat)
    requires Closed(c.g) && Ids(c.g, rest) && st.sugg <= ls.sugg
    ensures MatchListF(c, rest, true, st, ls, f).MDone? ==> MatchListF(c, rest, true, st, ls, f).st.sugg == st.sugg
    decreases |rest|
  {
    hide MatchF;
    if rest != [] && ls.idx < |c.ts| {
      var r := MatchF(c, rest[0], ls, f);
      if r.MDone? && r.ok { SilentKeeps(c, rest[1..], st, r.st, f); }
    }
  }

  lemma {:induction false} ListSuggested(c: Ctx, rest: seq<nat>, st: MState, ls: MState, f: nat, x: nat)
    returns (ids: seq<nat>, added: set<nat>)
    requires Closed(c.g) && Ids(c.g, rest) && st.sugg <= ls.sugg && MatchListF(c, rest, false, st, ls, f).MDone?
    requires var now := MatchListF(c, rest, false, st, ls, f).st.sugg; ls.sugg <= now && x in now[|ls.sugg|..]
    ensures EndsList(c, rest, ls, f, ids, added) && CanComeFirst(c.g, ids, x)
    decreases f, |rest| + 1
  {
    hide CanComeFirst, MatchF, SuggestListF;
    if ls.idx >= |c.ts| && rest != [] {
      ids, added := rest, ls.added;
      AskedAtEnd(c.g, rest, ls.added, ls.sugg, x);
    } else {
      var r := MatchF(c, rest[0], ls, f);
      if x in r.st.sugg[|ls.sugg|..] {
        ids, added := SuggestedAtEnd(c, rest[0], ls, f, x);
      } else {
        ListKeeps(c, rest[1..], st, r.st, f);
        LaterSuggestion(ls.sugg, r.st.sugg, MatchListF(c, rest, false, st, ls, f).st.sugg, x);
        ids, added := ListSuggested(c, rest[1..], st, r.st, f, x);
      }
    }
  }

  lemma AskedAtEnd(g: Graph, ids: seq<nat>, added: set<nat>, sugg: seq<nat>, x: nat)
    requires Closed(g) && Ids(g, ids) && x in SuggestListF(g, ids, added, sugg).sugg[|sugg|..]
    ensures CanComeFirst(g, ids, x)
  {
    hide Reached, Skips;
    StartReached(g, ids);
    assert Kids(g, ids, |g|)[0..] == ids;
    ListSound(g, ids, |g|, 0, added, sugg);
  }

  lemma {:induction false} ChoiceSuggested(c: Ctx, alternatives: seq<nat>, st: MState, f: nat, x: nat)
    returns (ids: seq<nat>, added: set<nat>)
    requires Closed(c.g) && Ids(c.g, alternatives) && MatchChoiceF(c, alternatives, st, f).MDone?
    requires x in MatchChoiceF(c, alternatives, st, f).st.sugg[|st.sugg|..]
    ensures EndsChoice(c, alternatives, st, f, ids, added) && CanComeFirst(c.g, ids, x)
    decreases f, |alternatives| + 1
  {
    hide CanComeFirst, MatchF;
    var r := MatchF(c, alternatives[0], Copy(st), f);
    if x in r.st.sugg[|st.sugg|..] {
      ids, added := SuggestedAtEnd(c, alternatives[0], Copy(st), f, x);
    } else {
      LaterSuggestion(st.sugg, r.st.sugg, MatchChoiceF(c, alternatives, st, f).st.sugg, x);
      ids, added := ChoiceSuggested(c, alternatives[1..], st.(sugg := r.st.sugg), f, x);
    }
  }

  lemma {:induction false} MoreSuggested(c: Ctx, elem: nat, st: MState, rs: MState, f: nat, x: nat)
    returns (ids: seq<nat>, added: set<nat>)
    requires Closed(c.g) && elem < |c.g| && st.sugg <= rs.sugg && MatchMoreF(c, elem, st, rs, f).MDone?
    requires x in MatchMoreF(c, elem, st, rs, f).st.sugg[|rs.sugg|..]
    ensures EndsMore(c, elem, st, rs, f, ids, added) && CanComeFirst(c.g, ids, x)
    decreases f, 1
  {
    hide CanComeFirst, MatchF, AddSuggestionF, SuggestListF;
    var st1 := st.(idx := rs.idx, sugg := rs.sugg);
    if rs.idx >= |c.ts| {
      ids, added := [elem], st.added;
      AskOne(c.g, elem, st.added, rs.sugg);
      AskedAtEnd(c.g, ids, added, rs.sugg, x);
    } else {
      var r := MatchF(c, elem, rs, f - 1);
      if x in r.st.sugg[|rs.sugg|..] {
        ids, added := SuggestedAtEnd(c, elem, rs, f - 1, x);
      } else {
        LaterSuggestion(rs.sugg, r.st.sugg, MatchMoreF(c, elem, st, rs, f).st.sugg, x);
        ids, added := MoreSuggested(c, elem, st1, r.st, f - 1, x);
      }
    }
  }

  // ----- entered at the end of the tokens -----

  /** A list entered at the end of the tokens suggests exactly what can come first in it, each once; it
      succeeds if and only if all its children may be passed over. */
  lemma ExhaustedList(c: Ctx, id: nat, st: MState, f: nat)
    requires Closed(c.g) && id < |c.g| && c.g[id].List? && !c.g[id].suppress && c.g[id].children != []
    requires st.idx >= |c.ts| && f > 0 && MetOnce(c.g, c.g[id].children)
    ensures var r := MatchF(c, id, st, f);
            r.MDone? && r.st.idx == st.idx && SuggestsFirst(c.g, c.g[id].children, st.sugg, r.st.sugg) &&
            (r.ok <==> forall k :: 0 <= k < |c.g[id].children| ==> Skips(c.g, c.g[id].children[k]))
  {
    hide MetOnce, SuggestListF, SuggestsFirst, Skips;
    assert ChildrenOf(c.g[id]) == c.g[id].children;
    SuggestsExactly(c.g, c.g[id].children, st.sugg);
  }

  /** A repeat that has matched up to the end of the tokens succeeds there and suggests its element once more;
      what it asked is remembered, so that the rest of the list does not suggest it again. */
  lemma ExhaustedRepeat(c: Ctx, elem: nat, st: MState, rs: MState, f: nat)
    requires Closed(c.g) && elem < |c.g| && st.sugg <= rs.sugg && rs.idx >= |c.ts| && st.added == {}
    requires MetOnce(c.g, [elem])
    ensures var r := MatchMoreF(c, elem, st, rs, f);
            r.MDone? && r.ok && r.st.idx == rs.idx && SuggestsFirst(c.g, [elem], rs.sugg, r.st.sugg) &&
            forall x :: CanComeFirst(c.g, [elem], x) ==> x in r.st.added
  {
    hide MetOnce, AddSuggestionF, SuggestListF, Reached;
    SuggestsExactly(c.g, [elem], rs.sugg);
    AskOne(c.g, elem, {}, rs.sugg);
    AskedIsKept(c.g, elem, rs.sugg);
  }

  lemma AskedIsKept(g: Graph, id: nat, sugg: seq<nat>)
    requires Closed(g) && id < |g|
    ensures var r := AddSuggestionF(g, id, {}, sugg);
            sugg <= r.sugg && forall x :: x in r.sugg[|sugg|..] ==> x in r.added
  {
    hide Reached, Skips, AddSuggestionF;
    StartReached(g, [id]);
    assert Open(g, [id], |g|, 0);
    StepReached(g, [id], |g|, 0);
    AskSound(g, [id], id, {}, sugg);
  }
}
