/** The meaning of a grammar, read directly off its rule trees, and the theorem that compiling
    preserves it: the matcher graph recognises exactly what the rules say, for every token list. */
module PegMeaning {
  import opened Wrappers
  import opened PegGraph
  import opened PegParse
  import opened PegCompiler
  import opened PegRules
  import opened PegRuleProofs

  /** The arguments a parameterised rule was called with, the parameter of the rule they were
      written in, and the bindings of that rule. */
  datatype Bind = NoBind | Bind(args: seq<Elem>, param: Option<string>, outer: Bind)

  /** Recognition: unfinished within the bound, exception, failure, or success up to a token. */
  datatype Rec = Unfinished | Threw | No | Yes(end: nat)

  /** A grammar with its builtin leaves and the tokens it is run on. */
  datatype Reading = Reading(gr: Grammar, leaves: map<string, Leaf>, kw: Keywords, ts: seq<Token>)

  ghost predicate Meaningful(w: Reading)
  {
    WfGrammar(w.gr) && w.leaves.Keys == w.gr.builtins
  }

  function ReadLeaf(w: Reading, leaf: Leaf, i: nat): (r: Rec)
  {
    if i >= |w.ts| then No else
      match LeafVerdict(w.kw, leaf, w.ts[i].text)
      case Accept => Yes(i + 1)
      case Reject => No
      case Throw => Threw
  }

  ghost predicate WfBind(gr: Grammar, b: Bind, param: Option<string>)
    decreases b
  {
    match b
    case NoBind => param.None?
    case Bind(args, p, outer) => param.Some? && WfAll(gr, p, args) && WfBind(gr, outer, p)
  }

  /** Element e at token i, under the bindings b of its rule. */
  ghost function Read(w: Reading, b: Bind, param: Option<string>, e: Elem, i: nat, fuel: nat): (r: Rec)
    requires Meaningful(w) && WfElem(w.gr, param, e) && WfBind(w.gr, b, param)
    decreases fuel, b, 0
  {
    if fuel == 0 then Unfinished else
      match e
      case Lit(text) => ReadLeaf(w, Keyword(text), i)
      case Ref(name) =>
        if name in w.leaves then ReadLeaf(w, w.leaves[name], i)
        else ReadAll(w, NoBind, None, w.gr.rules[Lower(name)].body, i, fuel - 1)
      case Param =>
        if |b.args| == 1 then Read(w, b.outer, b.param, b.args[0], i, fuel)
        else ReadAll(w, b.outer, b.param, b.args, i, fuel - 1)
      case Group(items) => ReadAll(w, b, param, items, i, fuel - 1)
      case Call(fn, args) =>
        var rule := w.gr.rules[Lower(fn)];
        assert WfBind(w.gr, Bind(args, param, b), rule.param);
        ReadAll(w, Bind(args, param, b), rule.param, rule.body, i, fuel - 1)
      case Opt(elem) => Maybe(Read(w, b, param, elem, i, fuel - 1), i)
      case Star(elem) => Maybe(ReadPlus(w, b, param, elem, i, fuel - 1), i)
      case Plus(elem) => ReadPlus(w, b, param, elem, i, fuel)
      case Alt(first, rest) =>
        WfCons(w.gr, param, first, rest);
        ReadFirst(w, b, param, [first] + rest, i, fuel - 1)
  }

  lemma WfCons(gr: Grammar, param: Option<string>, first: Elem, rest: seq<Elem>)
    requires WfElem(gr, param, first) && WfAll(gr, param, rest)
    ensures WfAll(gr, param, [first] + rest)
  {
    forall k | 0 <= k < 1 + |rest| ensures WfElem(gr, param, ([first] + rest)[k]) {
      if k > 0 { assert ([first] + rest)[k] == rest[k - 1]; }
    }
  }

  function Maybe(r: Rec, i: nat): Rec
  {
    if r.No? then Yes(i) else r
  }

  /** One element after the other. */
  ghost function ReadAll(w: Reading, b: Bind, param: Option<string>, es: seq<Elem>, i: nat, fuel: nat): (r: Rec)
    requires Meaningful(w) && WfAll(w.gr, param, es) && WfBind(w.gr, b, param)
    decreases fuel, b, |es| + 1
  {
    if es == [] then Yes(i) else
      var r := Read(w, b, param, es[0], i, fuel);
      if r.Yes? then ReadAll(w, b, param, es[1..], r.end, fuel) else r
  }

  /** The first alternative that does not fail. */
  ghost function ReadFirst(w: Reading, b: Bind, param: Option<string>, es: seq<Elem>, i: nat, fuel: nat): (r: Rec)
    requires Meaningful(w) && WfAll(w.gr, param, es) && WfBind(w.gr, b, param)
    decreases fuel, b, |es| + 1
  {
    if es == [] then No else
      var r := Read(w, b, param, es[0], i, fuel);
      if r.No? then ReadFirst(w, b, param, es[1..], i, fuel) else r
  }

  /** One or more, as many as there are. */
  ghost function ReadPlus(w: Reading, b: Bind, param: Option<string>, e: Elem, i: nat, fuel: nat): (r: Rec)
    requires Meaningful(w) && WfElem(w.gr, param, e) && WfBind(w.gr, b, param)
    decreases fuel, b, -1
  {
    if fuel == 0 then Unfinished else
      var r := Read(w, b, param, e, i, fuel - 1);
      if r.Yes? then ReadMore(w, b, param, e, r.end, fuel - 1) else r
  }

  ghost function ReadMore(w: Reading, b: Bind, param: Option<string>, e: Elem, i: nat, fuel: nat): (r: Rec)
    requires Meaningful(w) && WfElem(w.gr, param, e) && WfBind(w.gr, b, param)
    decreases fuel, b, 1
  {
    if i >= |w.ts| then Yes(i) else if fuel == 0 then Unfinished else
      var r := Read(w, b, param, e, i, fuel - 1);
      if r.No? then Yes(i) else if r.Yes? then ReadMore(w, b, param, e, r.end, fuel - 1) else r
  }

  // ----- the compiled graph has the same meaning -----

  function Recognised(r: Run): (s: Rec)
  {
    if r.Stuck? then Unfinished
    else match r.out
      case Fail => No
      case Thrown => Threw
      case Ok(end, _) => Yes(end)
  }

  /** The store holds the builtin leaves, keyword overrides for the same word, and complete rules. */
  ghost predicate Compiled(w: Reading, rk: Ranking, st: Store)
  {
    GoodStore(EnvOf(w.gr), st) &&
    (forall n :: n in w.leaves ==> n in st.cache && st.nodes[st.cache[n]] == LeafNode(w.leaves[n])) &&
    (forall k :: k in w.gr.overrides ==>
       st.nodes[w.gr.overrides[k]].LeafNode? && st.nodes[w.gr.overrides[k]].leaf.Keyword? &&
       Lower(st.nodes[w.gr.overrides[k]].leaf.keyword) == k) &&
    (forall n :: n in st.cache ==> n in w.leaves || Built(w.gr, rk, st, n))
  }

  /** The parameter matcher stands for the arguments of the bindings. */
  ghost predicate Bound(w: Reading, rk: Ranking, st: Store, b: Bind, p: Option<nat>)
    decreases b
  {
    match b
    case NoBind => true
    case Bind(args, _, outer) =>
      p.Some? && exists lo, hi, level, q ::
        RepArg(w.gr, rk, st, lo, hi, level, q, args, p.value) && Bound(w, rk, st, outer, q)
  }

  ghost function CtxOf(w: Reading, st: Store): Ctx
  {
    Ctx(st.nodes, w.kw, w.ts)
  }

  /** What holds where element e is represented by matcher id. */
  ghost predicate At(w: Reading, rk: Ranking, st: Store, lo: nat, hi: nat, level: nat, p: Option<nat>, b: Bind,
                     param: Option<string>)
  {
    Meaningful(w) && Compiled(w, rk, st) && WfBind(w.gr, b, param) && Bound(w, rk, st, b, p)
  }

  lemma {:induction false} MeaningElem(w: Reading, rk: Ranking, st: Store, lo: nat, hi: nat, level: nat, p: Option<nat>,
                                       b: Bind, param: Option<string>, e: Elem, id: nat, i: nat, f: nat)
    requires At(w, rk, st, lo, hi, level, p, b, param) && WfElem(w.gr, param, e) &&
             Rep(w.gr, rk, st, lo, hi, level, p, e, id)
    ensures Recognised(ParseF(CtxOf(w, st), id, i, f)) == Read(w, b, param, e, i, f)
    decreases f, b, 2
  {
    hide Compiled, Bound, WfBind, LeafVerdict, Lower, Meaningful, RepAll, WfAll, ReadAll, ReadFirst, ReadPlus;
    hide ReadMore, ParseListF, ParseChoiceF, ParseMoreF, ParseLeaf, Ids;
    if f == 0 { return; }
    match e
    case Lit(text) => MeaningLit(w, rk, st, lo, hi, level, p, b, param, text, id, i, f);
    case Ref(name) => MeaningRef(w, rk, st, lo, hi, level, p, b, param, name, id, i, f);
    case Param => MeaningParam(w, rk, st, p, b, param, id, i, f);
    case Group(items) => MeaningGroup(w, rk, st, lo, hi, level, p, b, param, items, id, i, f);
    case Call(fn, args) => MeaningCall(w, rk, st, lo, hi, level, p, b, param, fn, args, id, i, f);
    case Opt(elem) =>
      CompiledClosed(w, rk, st);
      assert ChildrenOf(st.nodes[id])[0] == st.nodes[id].child;
      MeaningElem(w, rk, st, lo, hi, level, p, b, param, elem, st.nodes[id].child, i, f - 1);
    case Star(elem) =>
      CompiledClosed(w, rk, st);
      assert ChildrenOf(st.nodes[id])[0] == st.nodes[id].child;
      MeaningPlus(w, rk, st, lo, hi, level, p, b, param, elem, st.nodes[id].child, i, f - 1);
    case Plus(elem) => MeaningPlus(w, rk, st, lo, hi, level, p, b, param, elem, id, i, f);
    case Alt(first, rest) => MeaningAlt(w, rk, st, lo, hi, level, p, b, param, first, rest, id, i, f);
  }

  lemma CompiledClosed(w: Reading, rk: Ranking, st: Store)
    requires Compiled(w, rk, st)
    ensures Closed(st.nodes)
  {
  }

  lemma MeaningLit(w: Reading, rk: Ranking, st: Store, lo: nat, hi: nat, level: nat, p: Option<nat>,
                   b: Bind, param: Option<string>, text: string, id: nat, i: nat, f: nat)
    requires At(w, rk, st, lo, hi, level, p, b, param) && Rep(w.gr, rk, st, lo, hi, level, p, Lit(text), id) && f > 0
    ensures Recognised(ParseF(CtxOf(w, st), id, i, f)) == Read(w, b, param, Lit(text), i, f)
  {
    hide Bound;
    if Lower(text) in w.gr.overrides {
      assert Lower(st.nodes[id].leaf.keyword) == Lower(text);
    }
  }

  lemma {:induction false} MeaningRef(w: Reading, rk: Ranking, st: Store, lo: nat, hi: nat, level: nat, p: Option<nat>,
                                      b: Bind, param: Option<string>, name: string, id: nat, i: nat, f: nat)
    requires At(w, rk, st, lo, hi, level, p, b, param) && WfElem(w.gr, param, Ref(name)) && f > 0
    requires Rep(w.gr, rk, st, lo, hi, level, p, Ref(name), id)
    ensures Recognised(ParseF(CtxOf(w, st), id, i, f)) == Read(w, b, param, Ref(name), i, f)
    decreases f, b, 1
  {
    hide Bound, WfBind, LeafVerdict, Lower;
    if name !in w.leaves {
      MeaningRule(w, rk, st, name, b, i, f);
    }
  }

  lemma {:induction false} MeaningGroup(w: Reading, rk: Ranking, st: Store, lo: nat, hi: nat, level: nat,
                                        p: Option<nat>,
                                        b: Bind, param: Option<string>, items: seq<Elem>, id: nat, i: nat, f: nat)
    requires At(w, rk, st, lo, hi, level, p, b, param) && WfElem(w.gr, param, Group(items)) && f > 0
    requires Rep(w.gr, rk, st, lo, hi, level, p, Group(items), id)
    ensures Recognised(ParseF(CtxOf(w, st), id, i, f)) == Read(w, b, param, Group(items), i, f)
    decreases f, b, 1
  {
    hide Bound, WfBind, LeafVerdict, Lower, Meaningful;
    assert ChildrenOf(st.nodes[id]) == st.nodes[id].children;
    MeaningAll(w, rk, st, lo, hi, level, p, b, param, items, st.nodes[id].children, st.nodes[id].name, i, i, [], f - 1);
  }

  lemma {:induction false} MeaningAlt(w: Reading, rk: Ranking, st: Store, lo: nat, hi: nat, level: nat, p: Option<nat>,
                                      b: Bind, param: Option<string>, first: Elem, rest: seq<Elem>, id: nat, i: nat,
                                      f: nat)
    requires At(w, rk, st, lo, hi, level, p, b, param) && WfElem(w.gr, param, Alt(first, rest)) && f > 0
    requires Rep(w.gr, rk, st, lo, hi, level, p, Alt(first, rest), id)
    ensures Recognised(ParseF(CtxOf(w, st), id, i, f)) == Read(w, b, param, Alt(first, rest), i, f)
    decreases f, b, 1
  {
    hide Bound, WfBind, LeafVerdict, Lower, Meaningful;
    var ids := st.nodes[id].children;
    assert ChildrenOf(st.nodes[id]) == ids;
    forall k | 0 <= k < |ids| ensures Rep(w.gr, rk, st, lo, hi, level, p, ([first] + rest)[k], ids[k]) {
      if k > 0 { assert ids[k] == ids[1..][k - 1]; }
    }
    WfCons(w.gr, param, first, rest);
    MeaningFirst(w, rk, st, lo, hi, level, p, b, param, [first] + rest, ids, 0, i, f - 1);
  }

  lemma {:induction false} MeaningRule(w: Reading, rk: Ranking, st: Store, name: string, b: Bind, i: nat, f: nat)
    requires Meaningful(w) && Compiled(w, rk, st) && f > 0 && name in st.cache && name !in w.leaves
    requires Lower(name) in w.gr.rules && w.gr.rules[Lower(name)].param.None?
    ensures Recognised(ParseF(CtxOf(w, st), st.cache[name], i, f)) ==
            ReadAll(w, NoBind, None, w.gr.rules[Lower(name)].body, i, f - 1)
    decreases f, b, 0
  {
    var c, id := CtxOf(w, st), st.cache[name];
    var lo, hi :| BuiltIn(w.gr, rk, st, name, lo, hi);
    assert ChildrenOf(c.g[id]) == c.g[id].children;
    MeaningAll(w, rk, st, lo, hi, rk.top, None, NoBind, None, w.gr.rules[Lower(name)].body, c.g[id].children,
               c.g[id].name, i, i, [], f - 1);
  }

  lemma {:induction false} MeaningParam(w: Reading, rk: Ranking, st: Store, p: Option<nat>, b: Bind,
                                        param: Option<string>, id: nat, i: nat, f: nat)
    requires Meaningful(w) && Compiled(w, rk, st) && WfBind(w.gr, b, param) && Bound(w, rk, st, b, p) && param.Some? &&
             f > 0
    requires p == Some(id) && id < |st.nodes|
    ensures Recognised(ParseF(CtxOf(w, st), id, i, f)) == Read(w, b, param, Param, i, f)
    decreases f, b, 1
  {
    var c := CtxOf(w, st);
    var lo, hi, level, qid :| RepArg(w.gr, rk, st, lo, hi, level, qid, b.args, id) && Bound(w, rk, st, b.outer, qid);
    if |b.args| == 1 {
      MeaningElem(w, rk, st, lo, hi, level, qid, b.outer, b.param, b.args[0], id, i, f);
    } else {
      assert ChildrenOf(c.g[id]) == c.g[id].children;
      MeaningAll(w, rk, st, lo, hi, level, qid, b.outer, b.param, b.args, c.g[id].children, c.g[id].name, i, i, [],
                 f - 1);
    }
  }

  lemma {:induction false} MeaningCall(w: Reading, rk: Ranking, st: Store, lo: nat, hi: nat, level: nat, p: Option<nat>,
                                       b: Bind, param: Option<string>, fn: string, args: seq<Elem>, id: nat, i: nat,
                                       f: nat)
    requires At(w, rk, st, lo, hi, level, p, b, param) && WfElem(w.gr, param, Call(fn, args)) && f > 0
    requires Rep(w.gr, rk, st, lo, hi, level, p, Call(fn, args), id)
    ensures Recognised(ParseF(CtxOf(w, st), id, i, f)) == Read(w, b, param, Call(fn, args), i, f)
    decreases f, b, 1
  {
    var c, rule := CtxOf(w, st), w.gr.rules[Lower(fn)];
    var q: nat :| RepArg(w.gr, rk, st, lo, hi, level, p, args, q) &&
             RepAll(w.gr, rk, st, lo, hi, RankOf(rk, fn), Some(q), rule.body, st.nodes[id].children);
    assert WfBind(w.gr, Bind(args, param, b), rule.param);
    assert Bound(w, rk, st, Bind(args, param, b), Some(q));
    assert ChildrenOf(c.g[id]) == c.g[id].children;
    MeaningAll(w, rk, st, lo, hi, RankOf(rk, fn), Some(q), Bind(args, param, b), rule.param, rule.body,
               c.g[id].children, c.g[id].name, i, i, [], f - 1);
  }

  lemma {:induction false} MeaningAll(w: Reading, rk: Ranking, st: Store, lo: nat, hi: nat, level: nat, p: Option<nat>,
                                      b: Bind, param: Option<string>, es: seq<Elem>, ids: seq<nat>, name: string,
                                      start: nat, i: nat, acc: seq<Tree>, f: nat)
    requires At(w, rk, st, lo, hi, level, p, b, param) && WfAll(w.gr, param, es) &&
             RepAll(w.gr, rk, st, lo, hi, level, p, es, ids)
    requires Ids(st.nodes, ids)
    ensures Recognised(ParseListF(CtxOf(w, st), ids, name, start, i, acc, f)) == ReadAll(w, b, param, es, i, f)
    decreases f, b, |es| + 3
  {
    if es != [] {
      MeaningElem(w, rk, st, lo, hi, level, p, b, param, es[0], ids[0], i, f);
      var r := ParseF(CtxOf(w, st), ids[0], i, f);
      if r.Done? && r.out.Ok? {
        MeaningAll(w, rk, st, lo, hi, level, p, b, param, es[1..], ids[1..], name, start, r.out.end, acc + [r.out.tree],
                   f);
      }
    }
  }

  lemma {:induction false} MeaningFirst(w: Reading, rk: Ranking, st: Store, lo: nat, hi: nat, level: nat,
                                        p: Option<nat>, b: Bind, param: Option<string>, es: seq<Elem>,
                                        ids: seq<nat>, k: nat, i: nat, f: nat)
    requires At(w, rk, st, lo, hi, level, p, b, param) && WfAll(w.gr, param, es) &&
             RepAll(w.gr, rk, st, lo, hi, level, p, es, ids)
    requires Ids(st.nodes, ids)
    ensures Recognised(ParseChoiceF(CtxOf(w, st), ids, k, i, f)) == ReadFirst(w, b, param, es, i, f)
    decreases f, b, |es| + 3
  {
    if es != [] {
      MeaningElem(w, rk, st, lo, hi, level, p, b, param, es[0], ids[0], i, f);
      MeaningFirst(w, rk, st, lo, hi, level, p, b, param, es[1..], ids[1..], k + 1, i, f);
    }
  }

  lemma {:induction false} MeaningPlus(w: Reading, rk: Ranking, st: Store, lo: nat, hi: nat, level: nat, p: Option<nat>,
                                       b: Bind, param: Option<string>, e: Elem, id: nat, i: nat, f: nat)
    requires At(w, rk, st, lo, hi, level, p, b, param) && WfElem(w.gr, param, e)
    requires id < |st.nodes| && st.nodes[id].Repeat? && Rep(w.gr, rk, st, lo, hi, level, p, e, st.nodes[id].child)
    ensures Recognised(ParseF(CtxOf(w, st), id, i, f)) == ReadPlus(w, b, param, e, i, f)
    decreases f, b, 1
  {
    hide Compiled, Bound, WfBind, LeafVerdict, Lower, Meaningful, Rep, Read, WfElem, ReadMore, ParseMoreF;
    hide ReadAll, ReadFirst, ParseListF, ParseChoiceF, OptionalRun, ParseLeaf, Ids;
    CompiledClosed(w, rk, st);
    if f > 0 {
      var c, elem := CtxOf(w, st), st.nodes[id].child;
      assert ChildrenOf(c.g[id])[0] == elem;
      MeaningElem(w, rk, st, lo, hi, level, p, b, param, e, elem, i, f - 1);
      var r := ParseF(c, elem, i, f - 1);
      if r.Done? && r.out.Ok? {
        MeaningMore(w, rk, st, lo, hi, level, p, b, param, e, elem, i, r.out.end, [r.out.tree], f - 1);
      }
    }
  }

  /** The repeat loop, one element further. */
  lemma MoreRecognised(c: Ctx, elem: nat, start: nat, i: nat, acc: seq<Tree>, f: nat)
    requires Closed(c.g) && elem < |c.g|
    ensures Recognised(ParseMoreF(c, elem, start, i, acc, f)) ==
            if i >= |c.ts| then Yes(i)
            else if f == 0 then Unfinished
            else
              var r := ParseF(c, elem, i, f - 1);
              if Recognised(r).No? then Yes(i)
              else if r.Done? && r.out.Ok?
              then Recognised(ParseMoreF(c, elem, start, r.out.end, acc + [r.out.tree], f - 1))
              else Recognised(r)
  {
    hide ParseF;
  }

  lemma {:induction false} MeaningMore(w: Reading, rk: Ranking, st: Store, lo: nat, hi: nat, level: nat, p: Option<nat>,
                                       b: Bind, param: Option<string>, e: Elem, id: nat, start: nat, i: nat,
                                       acc: seq<Tree>, f: nat)
    requires At(w, rk, st, lo, hi, level, p, b, param) && WfElem(w.gr, param, e) &&
             Rep(w.gr, rk, st, lo, hi, level, p, e, id)
    requires id < |st.nodes|
    ensures Recognised(ParseMoreF(CtxOf(w, st), id, start, i, acc, f)) == ReadMore(w, b, param, e, i, f)
    decreases f, b, 3
  {
    hide Compiled, Bound, WfBind, LeafVerdict, Lower, Meaningful, Rep, ParseF, Read, Closed, WfElem;
    hide ReadAll, ReadFirst, ReadPlus, ParseListF, ParseChoiceF, ParseMoreF, OptionalRun, ParseLeaf, Ids, ChildrenOf;
    CompiledClosed(w, rk, st);
    MoreRecognised(CtxOf(w, st), id, start, i, acc, f);
    if i < |w.ts| && f > 0 {
      MeaningElem(w, rk, st, lo, hi, level, p, b, param, e, id, i, f - 1);
      var r := ParseF(CtxOf(w, st), id, i, f - 1);
      if r.Done? && r.out.Ok? {
        MeaningMore(w, rk, st, lo, hi, level, p, b, param, e, id, start, r.out.end, acc + [r.out.tree], f - 1);
      }
    }
  }

  /** A sparing grammar, its root, and a store in which its leaves and keyword overrides are as read. */
  ghost predicate Startable(w: Reading, rk: Ranking, st: Store, root: string)
  {
    Meaningful(w) && Sparing(w.gr, root) && Initial(w.gr, st) && Acyclic(EnvOf(w.gr), rk) &&
    (forall n :: n in w.leaves ==> st.nodes[st.cache[n]] == LeafNode(w.leaves[n])) &&
    (forall k :: k in w.gr.overrides ==>
       st.nodes[w.gr.overrides[k]].LeafNode? && st.nodes[w.gr.overrides[k]].leaf.Keyword? &&
       Lower(st.nodes[w.gr.overrides[k]].leaf.keyword) == k) &&
    root !in w.gr.builtins && Lower(root) in w.gr.rules && w.gr.rules[Lower(root)].param.None?
  }

  /** Compiling a well-formed grammar and running `MatchParseResult` on its root recognises exactly
      what the root rule's tree says, at every token of every token list and for every bound. */
  lemma CompilingPreservesMeaning(w: Reading, rk: Ranking, st: Store, root: string, i: nat, f: nat)
    returns (st': Store, id: nat)
    requires Startable(w, rk, st, root)
    ensures CreateF(EnvOf(w.gr), rk, st, root, []) == Result.Done((st', id))
    ensures Closed(st'.nodes) && id < |st'.nodes|
    ensures Recognised(ParseF(CtxOf(w, st'), id, i, f)) == Read(w, NoBind, None, Ref(root), i, f)
  {
    hide Rep, RepAll, BuiltIn, Acyclic, Closed, Lower, LeafVerdict, EnvOf, Names, ParseF;
    st', id := CompileGrammar(w.gr, rk, st, root);
    StaysCompiled(w, rk, st, st', root);
    assert Rep(w.gr, rk, st', 0, 0, 0, None, Ref(root), id) by { RepRef(w.gr, rk, st', root); }
    MeaningElem(w, rk, st', 0, 0, 0, None, NoBind, None, Ref(root), id, i, f);
  }

  lemma RepRef(gr: Grammar, rk: Ranking, st: Store, name: string)
    requires name in st.cache && st.cache[name] < |st.nodes|
    ensures Rep(gr, rk, st, 0, 0, 0, None, Ref(name), st.cache[name])
  {
  }

  lemma StaysCompiled(w: Reading, rk: Ranking, st: Store, st': Store, root: string)
    requires Startable(w, rk, st, root)
    requires CreateF(EnvOf(w.gr), rk, st, root, []).Done? && CreateF(EnvOf(w.gr), rk, st, root, []).value.0 == st'
    requires SameOn(st, st', 0, |st.nodes|) && forall n :: n in st'.cache ==>
               n in w.gr.builtins || Built(w.gr, rk, st', n)
    ensures Compiled(w, rk, st') && Closed(st'.nodes)
  {
    hide Rep, RepAll, BuiltIn, Acyclic, Closed, Lower, CreateF, Names, EnvOf, WfElem;
    assert CreatePost(EnvOf(w.gr), st, root, [], CreateF(EnvOf(w.gr), rk, st, root, []));
    assert EnvOf(w.gr).overrides == w.gr.overrides by { OverridesKept(w.gr); }
  }

  lemma OverridesKept(gr: Grammar)
    ensures EnvOf(gr).overrides == gr.overrides
  {
  }
}
