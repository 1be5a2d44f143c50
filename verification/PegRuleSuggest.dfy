/** Autocompletion with a compiled grammar: on the rule trees on which parsing is total, `Match` is total
    too, also when it runs out of tokens. */
module PegRuleSuggest {
  import opened Wrappers
  import opened PegGraph
  import opened PegCompiler
  import opened PegRules
  import opened PegMeaning
  import opened PegMatch
  import opened PegMatchTermination
  import opened PegRuleTermination
  import PegParse
  import PegRelation
  import PegRuleProofs
  import PegEngine

  /** Where an element stands: the grammar, its analysis and its compiled form, the range and rank bound of
      its matchers, the parameter's matcher, bindings, name and shape, and the rank bound of its shape. */
  datatype Scope = Scope(w: Reading, a: Analysis, st: Store, lo: nat, hi: nat, rank: nat, p: Option<nat>,
                         b: Bind, param: Option<string>, own: Shape, level: nat)

  ghost predicate In(s: Scope)
  {
    At(s.w, s.a.rk, s.st, s.lo, s.hi, s.rank, s.p, s.b, s.param) && Sits(s.w, s.a, s.b, s.param, s.own)
  }

  ghost predicate Stands(s: Scope, e: Elem, id: nat)
  {
    WfElem(s.w.gr, s.param, e) && Rep(s.w.gr, s.a.rk, s.st, s.lo, s.hi, s.rank, s.p, e, id)
  }

  ghost predicate StandAll(s: Scope, es: seq<Elem>, ids: seq<nat>)
  {
    WfAll(s.w.gr, s.param, es) && RepAll(s.w.gr, s.a.rk, s.st, s.lo, s.hi, s.rank, s.p, es, ids) && Ids(s.st.nodes, ids)
  }

  ghost function C(s: Scope): Ctx
  {
    CtxOf(s.w, s.st)
  }

  ghost function Form(s: Scope, e: Elem): Shape
  {
    ShapeOf(s.a, s.level, s.own, e)
  }

  ghost function Left(s: Scope, i: nat): nat
  {
    if i < |s.w.ts| then |s.w.ts| - i else 0
  }

  /** The run has an outcome, and a success before the end of the tokens stays only if that is allowed. */
  ghost predicate MatchEnds(s: Scope, i: nat, r: MRun, nullable: bool)
  {
    !r.MStuck? && (r.MDone? && r.ok && r.st.idx == i < |s.w.ts| ==> nullable)
  }

  lemma InClosed(s: Scope)
    ensures In(s) ==> Closed(C(s).g)
  {
  }

  lemma StandsThere(s: Scope, e: Elem, id: nat)
    ensures Stands(s, e, id) ==> id < |C(s).g|
  {
  }

  /** By tokens left, then the order of the rules that may still be entered, then height. */
  lemma {:induction false} ElemMatches(s: Scope, e: Elem, id: nat, ms: MState) returns (f: nat)
    requires In(s) && Stands(s, e, id) && Form(s, e).sound && ms.idx < |s.w.ts|
    ensures Closed(C(s).g) && id < |C(s).g| && MatchEnds(s, ms.idx, MatchF(C(s), id, ms, f), Form(s, e).nullable)
    decreases Left(s, ms.idx), Form(s, e).left, Form(s, e).height, 1
  {
    hide At, Sits, MatchListF, MatchChoiceF, MatchMoreF, SequenceOf, AnyOf, RepAll, WfAll;
    InClosed(s);
    var g := s.st.nodes;
    match e
    case Lit(text) => f := LitMatches(s, text, id, ms);
    case Ref(name) => f := RefMatches(s, name, id, ms);
    case Param => f := ParamMatches(s, id, ms);
    case Group(items) =>
      assert ChildrenOf(g[id]) == g[id].children;
      GroupStands(s, items, id);
      f := AllMatch(s, items, g[id].children, g[id].suppress, ms, Copy(ms));
      f := f + 1;
    case Call(fn, args) => f := CallMatches(s, fn, args, id, ms);
    case Opt(elem) =>
      assert ChildrenOf(g[id])[0] == g[id].child;
      f := ElemMatches(s, elem, g[id].child, Copy(ms));
      f := f + 1;
    case Star(elem) =>
      assert ChildrenOf(g[id])[0] == g[id].child;
      f := RepeatMatches(s, elem, g[id].child, Copy(ms));
      f := f + 1;
    case Plus(elem) => f := RepeatMatches(s, elem, id, ms);
    case Alt(first, rest) => f := AltMatches(s, first, rest, id, ms);
  }

  lemma GroupStands(s: Scope, items: seq<Elem>, id: nat)
    requires In(s) && Stands(s, Group(items), id)
    ensures StandAll(s, items, s.st.nodes[id].children)
  {
    InClosed(s);
    assert ChildrenOf(s.st.nodes[id]) == s.st.nodes[id].children;
  }

  lemma LitMatches(s: Scope, text: string, id: nat, ms: MState) returns (f: nat)
    requires In(s) && Stands(s, Lit(text), id) && ms.idx < |s.w.ts|
    ensures Closed(C(s).g) && id < |C(s).g| && MatchEnds(s, ms.idx, MatchF(C(s), id, ms, f), false)
  {
    InClosed(s);
    f := 1;
  }

  lemma {:induction false} RefMatches(s: Scope, name: string, id: nat, ms: MState) returns (f: nat)
    requires In(s) && Stands(s, Ref(name), id) && ms.idx < |s.w.ts|
    ensures Closed(C(s).g) && id < |C(s).g| &&
            MatchEnds(s, ms.idx, MatchF(C(s), id, ms, f), Form(s, Ref(name)).nullable)
    decreases Left(s, ms.idx), Form(s, Ref(name)).left, 1, 0
  {
    hide MatchListF, Bound, WfBind, Shaped, LeafVerdict, RepAll, SequenceOf, Lower, WfAll;
    InClosed(s);
    f := 1;
    if name !in s.w.leaves {
      var r, body := RuleScope(s, name);
      var n := s.st.nodes[id];
      assert ChildrenOf(n) == n.children;
      f := AllMatch(r, body, n.children, n.suppress, ms, Copy(ms));
      f := f + 1;
    }
  }

  /** The scope of a plain rule's body. */
  lemma RuleScope(s: Scope, name: string) returns (r: Scope, body: seq<Elem>)
    requires In(s) && name in s.st.cache && name !in s.w.leaves && Lower(name) in s.w.gr.rules
    requires s.w.gr.rules[Lower(name)].param.None?
    ensures In(r) && r.w == s.w && r.a == s.a && r.st == s.st && body == s.w.gr.rules[Lower(name)].body
    ensures var id := s.st.cache[name];
            id < |s.st.nodes| && s.st.nodes[id].List? && StandAll(r, body, s.st.nodes[id].children)
    ensures var t := SequenceOf(r.a, r.level, r.own, body);
            t.sound && (t.nullable ==> Lower(name) in s.a.nullable) && t.left <= OrderOf(s.a, Lower(name))
  {
    hide Lower;
    var lo, hi :| BuiltIn(s.w.gr, s.a.rk, s.st, name, lo, hi);
    body := s.w.gr.rules[Lower(name)].body;
    r := s.(lo := lo, hi := hi, rank := s.a.rk.top, p := None, b := NoBind, param := None, own := UNSOUND,
            level := s.a.rk.top);
    var n := s.st.nodes[s.st.cache[name]];
    InClosed(s);
    assert ChildrenOf(n) == n.children;
  }

  lemma {:induction false} ParamMatches(s: Scope, id: nat, ms: MState) returns (f: nat)
    requires In(s) && Stands(s, Param, id) && s.own.sound && ms.idx < |s.w.ts|
    ensures Closed(C(s).g) && id < |C(s).g| && MatchEnds(s, ms.idx, MatchF(C(s), id, ms, f), s.own.nullable)
    decreases Left(s, ms.idx), s.own.left, s.own.height + 1, 0
  {
    hide MatchListF, ShapeOf, SequenceOf, Compiled, Progressive;
    InClosed(s);
    var r := ArgumentScope(s, id);
    if |s.b.args| == 1 {
      f := ElemMatches(r, s.b.args[0], id, ms);
    } else {
      var n := s.st.nodes[id];
      assert ChildrenOf(n) == n.children;
      f := AllMatch(r, s.b.args, n.children, n.suppress, ms, Copy(ms));
      f := f + 1;
    }
  }

  /** The scope in which the arguments of the bindings stand. */
  lemma ArgumentScope(s: Scope, id: nat) returns (r: Scope)
    requires In(s) && Stands(s, Param, id)
    ensures In(r) && r.w == s.w && r.a == s.a && r.st == s.st && s.b.Bind?
    ensures s.own == ArgumentOf(r.a, r.level, r.own, s.b.args)
    ensures if |s.b.args| == 1 then Stands(r, s.b.args[0], id)
            else s.st.nodes[id].List? && StandAll(r, s.b.args, s.st.nodes[id].children)
  {
    hide ShapeOf, SequenceOf, Compiled, Progressive, Rep;
    assert s.p == Some(id) && id < |s.st.nodes| by { ParamStands(s, id); }
    var lo, hi, rank, q :| RepArg(s.w.gr, s.a.rk, s.st, lo, hi, rank, q, s.b.args, id) &&
    Bound(s.w, s.a.rk, s.st, s.b.outer, q);
    var level, own :| s.own == ArgumentOf(s.a, level, own, s.b.args) && Shaped(s.a, s.b.outer, own);
    r := s.(lo := lo, hi := hi, rank := rank, p := q, b := s.b.outer, param := s.b.param, own := own, level := level);
    InClosed(s);
    if |s.b.args| != 1 {
      assert ChildrenOf(s.st.nodes[id]) == s.st.nodes[id].children;
    }
  }

  lemma ParamStands(s: Scope, id: nat)
    requires Stands(s, Param, id)
    ensures s.p == Some(id) && id < |s.st.nodes|
  {
  }

  lemma {:induction false} CallMatches(s: Scope, fn: string, args: seq<Elem>, id: nat, ms: MState) returns (f: nat)
    requires In(s) && Stands(s, Call(fn, args), id) && Form(s, Call(fn, args)).sound && ms.idx < |s.w.ts|
    ensures Closed(C(s).g) && id < |C(s).g|
    ensures MatchEnds(s, ms.idx, MatchF(C(s), id, ms, f), Form(s, Call(fn, args)).nullable)
    decreases Left(s, ms.idx), Form(s, Call(fn, args)).left, Form(s, Call(fn, args)).height, 0
  {
    hide MatchListF, At, Sits, Rep, SequenceOf;
    InClosed(s);
    StandsThere(s, Call(fn, args), id);
    var r := BodyScope(s, fn, args, id);
    var n := s.st.nodes[id];
    assert ChildrenOf(n) == n.children;
    f := AllMatch(r, s.w.gr.rules[Lower(fn)].body, n.children, n.suppress, ms, Copy(ms));
    f := f + 1;
  }

  /** The scope of the body of a called rule. */
  lemma BodyScope(s: Scope, fn: string, args: seq<Elem>, id: nat) returns (r: Scope)
    requires In(s) && Stands(s, Call(fn, args), id) && Form(s, Call(fn, args)).sound
    ensures In(r) && r.w == s.w && r.a == s.a && r.st == s.st && Lower(fn) in s.w.gr.rules
    ensures id < |s.st.nodes| && s.st.nodes[id].List? &&
            StandAll(r, s.w.gr.rules[Lower(fn)].body, s.st.nodes[id].children)
    ensures Form(s, Call(fn, args)) == Higher(SequenceOf(r.a, r.level, r.own, s.w.gr.rules[Lower(fn)].body))
  {
    hide Compiled, Progressive, SequenceOf, Lower;
    var rule, rank := s.w.gr.rules[Lower(fn)], RankOf(s.a.rk, fn);
    var q: nat :| RepArg(s.w.gr, s.a.rk, s.st, s.lo, s.hi, s.rank, s.p, args, q) &&
                  RepAll(s.w.gr, s.a.rk, s.st, s.lo, s.hi, rank, Some(q), rule.body, s.st.nodes[id].children);
    r := s.(rank := rank, p := Some(q), b := Bind(args, s.param, s.b), param := rule.param,
            own := ArgumentOf(s.a, s.level, s.own, args), level := rank);
    assert WfBind(s.w.gr, r.b, r.param) && Bound(s.w, s.a.rk, s.st, r.b, r.p) && Shaped(s.a, r.b, r.own);
    InClosed(s);
    assert ChildrenOf(s.st.nodes[id]) == s.st.nodes[id].children;
  }

  lemma {:induction false} AltMatches(s: Scope, first: Elem, rest: seq<Elem>, id: nat, ms: MState) returns (f: nat)
    requires In(s) && Stands(s, Alt(first, rest), id) && Form(s, Alt(first, rest)).sound && ms.idx < |s.w.ts|
    ensures Closed(C(s).g) && id < |C(s).g|
    ensures MatchEnds(s, ms.idx, MatchF(C(s), id, ms, f), Form(s, Alt(first, rest)).nullable)
    decreases Left(s, ms.idx), Form(s, Alt(first, rest)).left, Form(s, Alt(first, rest)).height, 0
  {
    hide MatchChoiceF, At, Sits, Rep, WfElem;
    InClosed(s);
    AltStands(s, first, rest, id);
    var es, ids := [first] + rest, s.st.nodes[id].children;
    assert ChildrenOf(s.st.nodes[id]) == ids && es[0] == first && es[1..] == rest;
    f := AnyMatches(s, es, ids, ms);
    f := f + 1;
  }

  lemma AltStands(s: Scope, first: Elem, rest: seq<Elem>, id: nat)
    requires In(s) && Stands(s, Alt(first, rest), id)
    ensures id < |s.st.nodes| && s.st.nodes[id].Choice? && StandAll(s, [first] + rest, s.st.nodes[id].children)
  {
    hide At, Sits;
    InClosed(s);
    var es, ids := [first] + rest, s.st.nodes[id].children;
    assert ChildrenOf(s.st.nodes[id]) == ids;
    WfCons(s.w.gr, s.param, first, rest);
    assert RepAll(s.w.gr, s.a.rk, s.st, s.lo, s.hi, s.rank, s.p, rest, ids[1..]);
    forall k | 0 <= k < |ids| ensures Rep(s.w.gr, s.a.rk, s.st, s.lo, s.hi, s.rank, s.p, es[k], ids[k]) {
      if k > 0 { assert ids[k] == ids[1..][k - 1] && es[k] == rest[k - 1]; }
    }
  }

  /** A list's children, from a state of the list after the earlier ones. */
  lemma {:induction false} AllMatch(s: Scope, es: seq<Elem>, ids: seq<nat>, suppress: bool, ms: MState, ls: MState)
    returns (f: nat)
    requires In(s) && StandAll(s, es, ids) && SequenceOf(s.a, s.level, s.own, es).sound && ms.sugg <= ls.sugg
    ensures Closed(C(s).g) &&
            MatchEnds(s, ls.idx, MatchListF(C(s), ids, suppress, ms, ls, f),
                      SequenceOf(s.a, s.level, s.own, es).nullable)
    decreases Left(s, ls.idx), SequenceOf(s.a, s.level, s.own, es).left, SequenceOf(s.a, s.level, s.own, es).height, 0
  {
    hide MatchF, At, Sits, Rep, WfElem, ShapeOf;
    InClosed(s);
    f := 0;
    if es != [] && ls.idx < |s.w.ts| {
      var f0 := ElemMatches(s, es[0], ids[0], ls);
      f := f0;
      var r := MatchF(C(s), ids[0], ls, f0);
      if r.MDone? && r.ok {
        var f1 := AllMatch(s, es[1..], ids[1..], suppress, ms, r.st);
        f := f0 + f1;
        MatchFuelMono(C(s), ids[0], ls, f0, f);
        ListFuelMono(C(s), ids[1..], suppress, ms, r.st, f1, f);
      }
    }
  }

  lemma {:induction false} AnyMatches(s: Scope, es: seq<Elem>, ids: seq<nat>, ms: MState) returns (f: nat)
    requires In(s) && StandAll(s, es, ids) && AnyOf(s.a, s.level, s.own, es).sound && ms.idx < |s.w.ts|
    ensures Closed(C(s).g) &&
            MatchEnds(s, ms.idx, MatchChoiceF(C(s), ids, ms, f), AnyOf(s.a, s.level, s.own, es).nullable)
    decreases Left(s, ms.idx), AnyOf(s.a, s.level, s.own, es).left, AnyOf(s.a, s.level, s.own, es).height, 0
  {
    hide MatchF, At, Sits, Rep, WfElem, ShapeOf;
    InClosed(s);
    f := 0;
    if es != [] {
      var f0 := ElemMatches(s, es[0], ids[0], Copy(ms));
      f := f0;
      var r := MatchF(C(s), ids[0], Copy(ms), f0);
      if r.MDone? && !r.ok {
        var next := ms.(sugg := r.st.sugg);
        var f1 := AnyMatches(s, es[1..], ids[1..], next);
        f := f0 + f1;
        MatchFuelMono(C(s), ids[0], Copy(ms), f0, f);
        ChoiceFuelMono(C(s), ids[1..], next, f1, f);
      }
    }
  }

  /** A repeat matcher over an element that consumes tokens. */
  lemma {:induction false} RepeatMatches(s: Scope, e: Elem, id: nat, ms: MState) returns (f: nat)
    requires In(s) && id < |s.st.nodes| && s.st.nodes[id].Repeat? && Stands(s, e, s.st.nodes[id].child)
    requires Repeated(Form(s, e)).sound && ms.idx < |s.w.ts|
    ensures Closed(C(s).g) && id < |C(s).g| && MatchEnds(s, ms.idx, MatchF(C(s), id, ms, f), false)
    decreases Left(s, ms.idx), Form(s, e).left, Form(s, e).height, 2
  {
    hide At, Sits, Rep, WfElem, ShapeOf, MatchMoreF, MatchListF, MatchChoiceF;
    InClosed(s);
    var child := s.st.nodes[id].child;
    assert ChildrenOf(C(s).g[id])[0] == child;
    var f0 := ElemMatches(s, e, child, Copy(ms));
    f := f0 + 1;
    var r := MatchF(C(s), child, Copy(ms), f0);
    if r.MDone? && r.ok {
      var st := ms.(sugg := r.st.sugg);
      var f1 := MoreMatches(s, e, child, ms.idx, st, r.st);
      f := f0 + f1 + 1;
      MatchFuelMono(C(s), child, Copy(ms), f0, f0 + f1);
      MoreFuelMono(C(s), child, st, r.st, f1, f0 + f1);
    }
  }

  lemma {:induction false} MoreMatches(s: Scope, e: Elem, child: nat, first: nat, ms: MState, rs: MState)
    returns (f: nat)
    requires In(s) && Stands(s, e, child) && Repeated(Form(s, e)).sound
    requires first < rs.idx && first < |s.w.ts| && ms.sugg <= rs.sugg
    ensures Closed(C(s).g) && child < |C(s).g| && !MatchMoreF(C(s), child, ms, rs, f).MStuck?
    decreases Left(s, first), 0, 0, 0
  {
    hide At, Sits, Rep, WfElem, ShapeOf, MatchF;
    InClosed(s);
    StandsThere(s, e, child);
    f := 0;
    if rs.idx < |s.w.ts| {
      var f0 := ElemMatches(s, e, child, rs);
      f := f0 + 1;
      var r := MatchF(C(s), child, rs, f0);
      if r.MDone? && r.ok {
        var st := ms.(idx := rs.idx, sugg := rs.sugg);
        var f1 := MoreMatches(s, e, child, rs.idx, st, r.st);
        f := f0 + f1 + 1;
        MatchFuelMono(C(s), child, rs, f0, f0 + f1);
        MoreFuelMono(C(s), child, st, r.st, f1, f0 + f1);
      }
    }
  }

  // ----- completing with a compiled grammar -----

  /** The compiled root is a list, and `Match` on it finishes for every progressive grammar, token list and
      state. */
  lemma CompiledGrammarSuggests(w: Reading, a: Analysis, st: Store, root: string, ms: MState)
    returns (st': Store, id: nat, f: nat)
    requires a.gr == w.gr && Startable(w, a.rk, st, root) && Progressive(a)
    ensures CreateF(EnvOf(w.gr), a.rk, st, root, []) == Result.Done((st', id)) && Closed(st'.nodes) && id < |st'.nodes|
    ensures st'.nodes[id].List? && !MatchF(CtxOf(w, st'), id, ms, f).MStuck?
  {
    hide Progressive, MatchListF, CreateF, Acyclic, GoodStore, Rep;
    st', id := PegRuleProofs.CompileGrammar(w.gr, a.rk, st, root);
    StaysCompiled(w, a.rk, st, st', root);
    var s := Scope(w, a, st', 0, 0, 0, None, NoBind, None, UNSOUND, a.rk.top);
    InClosed(s);
    var r, body := RuleScope(s, root);
    var n := st'.nodes[id];
    assert ChildrenOf(n) == n.children;
    f := AllMatch(r, body, n.children, n.suppress, ms, Copy(ms));
    f := f + 1;
  }

  /** Autocompletion with a compiled grammar is total: for every progressive grammar, token list and token
      index the run is the specified one, and unless the tokens were exhausted its verdict and token
      index are the PEG relation's. */
  method SuggestWithGrammar(c: Ctx, id: nat, state: PegEngine.MatchState,
                            ghost w: Reading, ghost a: Analysis, ghost st: Store, ghost root: string)
    returns (result: PegEngine.MatchResult)
    requires a.gr == w.gr && Startable(w, a.rk, st, root) && Progressive(a) && c.ts == w.ts && c.kw == w.kw
    requires CreateF(EnvOf(w.gr), a.rk, st, root, []).Done?
    requires var made := CreateF(EnvOf(w.gr), a.rk, st, root, []).value; c.g == made.0.nodes && id == made.1
    modifies state, state.shared
    ensures Closed(c.g) && id < |c.g|
    ensures exists f :: PegEngine.Realizes(result, state.View(), state.shared.maxTokenIndex,
                                           old(state.shared.maxTokenIndex), MatchF(c, id, old(state.View()), f))
    ensures old(state.tokenIndex) < |c.ts| && state.shared.maxTokenIndex < |c.ts| ==>
              PegEngine.Decides(c, id, old(state.tokenIndex), result, state.tokenIndex)
  {
    hide Startable, Progressive, CreateF, MatchF;
    ghost var st', id', f := CompiledGrammarSuggests(w, a, st, root, state.View());
    result := PegEngine.SuggestFinishing(c, id, state, f);
  }
}
