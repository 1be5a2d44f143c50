/** When a compiled grammar can be parsed with at all, read off its rule trees: no repeated element may
    match nothing, and no rule may come back to itself before a token is consumed. */
module PegRuleTermination {
  import opened Wrappers
  import opened PegGraph
  import opened PegCompiler
  import opened PegRules
  import opened PegMeaning
  import PegParse
  import PegRelation
  import PegEngine

  /** What is known of the plain rules, by name: which may match nothing, and an order that falls from a
      rule to those it may enter at its own first token. */
  datatype Analysis = Analysis(gr: Grammar, rk: Ranking, nullable: set<string>, order: map<string, nat>)

  /** What is known of an element: may it match nothing; a bound above the order of the rules it may enter
      at its first token; are its repetitions sound; and its height with all calls expanded. */
  datatype Shape = Shape(nullable: bool, left: nat, sound: bool, height: nat)

  const FIXED: Shape := Shape(false, 0, true, 1)
  const NOTHING: Shape := Shape(true, 0, true, 1)
  const UNSOUND: Shape := Shape(true, 0, false, 1)

  function OrderOf(a: Analysis, name: string): (n: nat)
  {
    if name in a.order then a.order[name] else 0
  }

  function Then(s: Shape, t: Shape): (r: Shape)
  {
    Shape(s.nullable && t.nullable, Max(s.left, if s.nullable then t.left else 0), s.sound && t.sound,
          s.height + t.height + 1)
  }

  function Or(s: Shape, t: Shape): (r: Shape)
  {
    Shape(s.nullable || t.nullable, Max(s.left, t.left), s.sound && t.sound, s.height + t.height + 1)
  }

  function Higher(s: Shape): (r: Shape)
  {
    s.(height := s.height + 1)
  }

  function Repeated(s: Shape): (r: Shape)
  {
    Higher(s.(sound := s.sound && !s.nullable))
  }

  /** The shape of an element in a rule whose parameter has shape `own` and whose calls rank below level. */
  ghost function ShapeOf(a: Analysis, level: nat, own: Shape, e: Elem): (s: Shape)
    decreases level, e, 1
  {
    match e
    case Lit(_) => FIXED
    case Ref(name) =>
      if name in a.gr.builtins then FIXED
      else Shape(Lower(name) in a.nullable, OrderOf(a, Lower(name)) + 1, true, 1)
    case Param => Higher(own)
    case Group(items) => Higher(SequenceOf(a, level, own, items))
    case Call(fn, args) =>
      if Lower(fn) in a.gr.rules && RankOf(a.rk, fn) < level
      then Higher(SequenceOf(a, RankOf(a.rk, fn), ArgumentOf(a, level, own, args), a.gr.rules[Lower(fn)].body))
      else UNSOUND
    case Opt(elem) => Higher(ShapeOf(a, level, own, elem).(nullable := true))
    case Star(elem) => Higher(Repeated(ShapeOf(a, level, own, elem)).(nullable := true))
    case Plus(elem) => Repeated(ShapeOf(a, level, own, elem))
    case Alt(first, rest) => Higher(Or(ShapeOf(a, level, own, first), AnyOf(a, level, own, rest)))
  }

  ghost function SequenceOf(a: Analysis, level: nat, own: Shape, es: seq<Elem>): (s: Shape)
    decreases level, es, 0
  {
    if es == [] then NOTHING else Then(ShapeOf(a, level, own, es[0]), SequenceOf(a, level, own, es[1..]))
  }

  ghost function AnyOf(a: Analysis, level: nat, own: Shape, es: seq<Elem>): (s: Shape)
    decreases level, es, 0
  {
    if es == [] then FIXED else Or(ShapeOf(a, level, own, es[0]), AnyOf(a, level, own, es[1..]))
  }

  ghost function ArgumentOf(a: Analysis, level: nat, own: Shape, args: seq<Elem>): (s: Shape)
    decreases level, args, 2
  {
    if |args| == 1 then ShapeOf(a, level, own, args[0]) else Higher(SequenceOf(a, level, own, args))
  }

  /** The analysis holds of the grammar: every plain rule's repetitions are sound, it is nullable only if
      it is listed, and all rules it may enter at its first token come below it. */
  ghost predicate Progressive(a: Analysis)
  {
    forall n :: n in a.gr.rules && a.gr.rules[n].param.None? ==>
      var s := SequenceOf(a, a.rk.top, UNSOUND, a.gr.rules[n].body);
      s.sound && (s.nullable ==> n in a.nullable) && s.left <= OrderOf(a, n)
  }

  /** The bindings hand over arguments of that shape. */
  ghost predicate Shaped(a: Analysis, b: Bind, own: Shape)
    decreases b
  {
    match b
    case NoBind => true
    case Bind(args, _, outer) => exists level, s :: own == ArgumentOf(a, level, s, args) && Shaped(a, outer, s)
  }

  // ----- a larger bound never changes a finished reading -----

  lemma {:induction false} ReadMono(w: Reading, b: Bind, param: Option<string>, e: Elem, i: nat, f: nat, f': nat)
    requires Meaningful(w) && WfElem(w.gr, param, e) && WfBind(w.gr, b, param) && f <= f'
    requires Read(w, b, param, e, i, f) != Unfinished
    ensures Read(w, b, param, e, i, f') == Read(w, b, param, e, i, f)
    decreases f, b, 2
  {
    match e
    case Lit(_) =>
    case Ref(name) =>
      if name !in w.leaves { ReadAllMono(w, NoBind, None, w.gr.rules[Lower(name)].body, i, f - 1, f' - 1); }
    case Param =>
      if |b.args| == 1 { ReadMono(w, b.outer, b.param, b.args[0], i, f, f'); }
      else { ReadAllMono(w, b.outer, b.param, b.args, i, f - 1, f' - 1); }
    case Group(items) => ReadAllMono(w, b, param, items, i, f - 1, f' - 1);
    case Call(fn, args) =>
      var rule := w.gr.rules[Lower(fn)];
      assert WfBind(w.gr, Bind(args, param, b), rule.param);
      ReadAllMono(w, Bind(args, param, b), rule.param, rule.body, i, f - 1, f' - 1);
    case Opt(elem) => ReadMono(w, b, param, elem, i, f - 1, f' - 1);
    case Star(elem) => ReadPlusMono(w, b, param, elem, i, f - 1, f' - 1);
    case Plus(elem) => ReadPlusMono(w, b, param, elem, i, f, f');
    case Alt(first, rest) =>
      WfCons(w.gr, param, first, rest);
      ReadFirstMono(w, b, param, [first] + rest, i, f - 1, f' - 1);
  }

  lemma {:induction false} ReadAllMono(w: Reading, b: Bind, param: Option<string>, es: seq<Elem>, i: nat, f: nat,
                                       f': nat)
    requires Meaningful(w) && WfAll(w.gr, param, es) && WfBind(w.gr, b, param) && f <= f'
    requires ReadAll(w, b, param, es, i, f) != Unfinished
    ensures ReadAll(w, b, param, es, i, f') == ReadAll(w, b, param, es, i, f)
    decreases f, b, |es| + 3
  {
    if es != [] {
      ReadMono(w, b, param, es[0], i, f, f');
      var r := Read(w, b, param, es[0], i, f);
      if r.Yes? { ReadAllMono(w, b, param, es[1..], r.end, f, f'); }
    }
  }

  lemma {:induction false} ReadFirstMono(w: Reading, b: Bind, param: Option<string>, es: seq<Elem>, i: nat, f: nat,
                                         f': nat)
    requires Meaningful(w) && WfAll(w.gr, param, es) && WfBind(w.gr, b, param) && f <= f'
    requires ReadFirst(w, b, param, es, i, f) != Unfinished
    ensures ReadFirst(w, b, param, es, i, f') == ReadFirst(w, b, param, es, i, f)
    decreases f, b, |es| + 3
  {
    if es != [] {
      ReadMono(w, b, param, es[0], i, f, f');
      if Read(w, b, param, es[0], i, f).No? { ReadFirstMono(w, b, param, es[1..], i, f, f'); }
    }
  }

  lemma {:induction false} ReadPlusMono(w: Reading, b: Bind, param: Option<string>, e: Elem, i: nat, f: nat, f': nat)
    requires Meaningful(w) && WfElem(w.gr, param, e) && WfBind(w.gr, b, param) && f <= f'
    requires ReadPlus(w, b, param, e, i, f) != Unfinished
    ensures ReadPlus(w, b, param, e, i, f') == ReadPlus(w, b, param, e, i, f)
    decreases f, b, 1
  {
    ReadMono(w, b, param, e, i, f - 1, f' - 1);
    var r := Read(w, b, param, e, i, f - 1);
    if r.Yes? { ReadMoreMono(w, b, param, e, r.end, f - 1, f' - 1); }
  }

  lemma {:induction false} ReadMoreMono(w: Reading, b: Bind, param: Option<string>, e: Elem, i: nat, f: nat, f': nat)
    requires Meaningful(w) && WfElem(w.gr, param, e) && WfBind(w.gr, b, param) && f <= f'
    requires ReadMore(w, b, param, e, i, f) != Unfinished
    ensures ReadMore(w, b, param, e, i, f') == ReadMore(w, b, param, e, i, f)
    decreases f, b, 3
  {
    if i < |w.ts| {
      ReadMono(w, b, param, e, i, f - 1, f' - 1);
      var r := Read(w, b, param, e, i, f - 1);
      if r.Yes? { ReadMoreMono(w, b, param, e, r.end, f - 1, f' - 1); }
    }
  }

  // ----- every reading finishes -----

  ghost predicate Sits(w: Reading, a: Analysis, b: Bind, param: Option<string>, own: Shape)
  {
    Meaningful(w) && a.gr == w.gr && Progressive(a) && WfBind(w.gr, b, param) && Shaped(a, b, own)
  }

  /** The reading has an outcome; a success goes forward, and stays only if that is allowed. */
  ghost predicate Ends(w: Reading, i: nat, r: Rec, nullable: bool)
  {
    r != Unfinished && (r.Yes? ==> i <= r.end <= |w.ts| && (r.end == i ==> nullable))
  }

  /** By tokens left, then the order of the rules that may still be entered, then height. */
  lemma {:induction false} ElemEnds(w: Reading, a: Analysis, b: Bind, param: Option<string>, own: Shape, level: nat,
                                    e: Elem, i: nat)
    returns (f: nat)
    requires Sits(w, a, b, param, own) && WfElem(w.gr, param, e) && i <= |w.ts| && ShapeOf(a, level, own, e).sound
    ensures Ends(w, i, Read(w, b, param, e, i, f), ShapeOf(a, level, own, e).nullable)
    decreases |w.ts| - i, ShapeOf(a, level, own, e).left, ShapeOf(a, level, own, e).height, 1
  {
    match e
    case Lit(_) => f := 1;
    case Ref(name) => f := RefEnds(w, a, b, param, own, level, name, i);
    case Param => f := ParamEnds(w, a, b, param, own, level, i);
    case Group(items) =>
      f := AllEnd(w, a, b, param, own, level, items, i);
      f := f + 1;
    case Call(fn, args) => f := CallEnds(w, a, b, param, own, level, fn, args, i);
    case Opt(elem) =>
      f := ElemEnds(w, a, b, param, own, level, elem, i);
      f := f + 1;
    case Star(elem) =>
      f := PlusEnds(w, a, b, param, own, level, elem, i);
      f := f + 1;
    case Plus(elem) => f := PlusEnds(w, a, b, param, own, level, elem, i);
    case Alt(first, rest) => f := AltEnds(w, a, b, param, own, level, first, rest, i);
  }

  lemma {:induction false} RefEnds(w: Reading, a: Analysis, b: Bind, param: Option<string>, own: Shape, level: nat,
                                   name: string, i: nat)
    returns (f: nat)
    requires Sits(w, a, b, param, own) && WfElem(w.gr, param, Ref(name)) && i <= |w.ts|
    ensures Ends(w, i, Read(w, b, param, Ref(name), i, f), ShapeOf(a, level, own, Ref(name)).nullable)
    decreases |w.ts| - i, ShapeOf(a, level, own, Ref(name)).left, 1, 0
  {
    f := 1;
    if name !in w.leaves {
      var rule := w.gr.rules[Lower(name)];
      assert WfAll(w.gr, rule.param, rule.body);
      f := AllEnd(w, a, NoBind, None, UNSOUND, a.rk.top, rule.body, i);
      f := f + 1;
    }
  }

  lemma {:induction false} ParamEnds(w: Reading, a: Analysis, b: Bind, param: Option<string>, own: Shape, level: nat,
                                     i: nat)
    returns (f: nat)
    requires Sits(w, a, b, param, own) && WfElem(w.gr, param, Param) && i <= |w.ts| && own.sound
    ensures Ends(w, i, Read(w, b, param, Param, i, f), own.nullable)
    decreases |w.ts| - i, own.left, own.height + 1, 0
  {
    var level', s :| own == ArgumentOf(a, level', s, b.args) && Shaped(a, b.outer, s);
    if |b.args| == 1 {
      f := ElemEnds(w, a, b.outer, b.param, s, level', b.args[0], i);
    } else {
      f := AllEnd(w, a, b.outer, b.param, s, level', b.args, i);
      f := f + 1;
    }
  }

  lemma {:induction false} CallEnds(w: Reading, a: Analysis, b: Bind, param: Option<string>, own: Shape, level: nat,
                                    fn: string, args: seq<Elem>, i: nat)
    returns (f: nat)
    requires Sits(w, a, b, param, own) && WfElem(w.gr, param, Call(fn, args)) && i <= |w.ts|
    requires ShapeOf(a, level, own, Call(fn, args)).sound
    ensures Ends(w, i, Read(w, b, param, Call(fn, args), i, f), ShapeOf(a, level, own, Call(fn, args)).nullable)
    decreases |w.ts| - i, ShapeOf(a, level, own, Call(fn, args)).left, ShapeOf(a, level, own, Call(fn, args)).height, 0
  {
    var rule, bind, inner := w.gr.rules[Lower(fn)], Bind(args, param, b), ArgumentOf(a, level, own, args);
    assert WfBind(w.gr, bind, rule.param) && Shaped(a, bind, inner);
    assert WfAll(w.gr, rule.param, rule.body);
    f := AllEnd(w, a, bind, rule.param, inner, RankOf(a.rk, fn), rule.body, i);
    f := f + 1;
  }

  lemma {:induction false} AltEnds(w: Reading, a: Analysis, b: Bind, param: Option<string>, own: Shape, level: nat,
                                   first: Elem, rest: seq<Elem>, i: nat)
    returns (f: nat)
    requires Sits(w, a, b, param, own) && WfElem(w.gr, param, Alt(first, rest)) && i <= |w.ts|
    requires ShapeOf(a, level, own, Alt(first, rest)).sound
    ensures Ends(w, i, Read(w, b, param, Alt(first, rest), i, f), ShapeOf(a, level, own, Alt(first, rest)).nullable)
    decreases |w.ts| - i, ShapeOf(a, level, own, Alt(first, rest)).left,
              ShapeOf(a, level, own, Alt(first, rest)).height, 0
  {
    var es := [first] + rest;
    WfCons(w.gr, param, first, rest);
    assert es[0] == first && es[1..] == rest;
    f := AnyEnds(w, a, b, param, own, level, es, i);
    f := f + 1;
  }

  lemma {:induction false} AllEnd(w: Reading, a: Analysis, b: Bind, param: Option<string>, own: Shape, level: nat,
                                  es: seq<Elem>, i: nat)
    returns (f: nat)
    requires Sits(w, a, b, param, own) && WfAll(w.gr, param, es) && i <= |w.ts| && SequenceOf(a, level, own, es).sound
    ensures Ends(w, i, ReadAll(w, b, param, es, i, f), SequenceOf(a, level, own, es).nullable)
    decreases |w.ts| - i, SequenceOf(a, level, own, es).left, SequenceOf(a, level, own, es).height, 0
  {
    f := 0;
    if es != [] {
      var f0 := ElemEnds(w, a, b, param, own, level, es[0], i);
      f := f0;
      var r := Read(w, b, param, es[0], i, f0);
      if r.Yes? {
        var f1 := AllEnd(w, a, b, param, own, level, es[1..], r.end);
        f := f0 + f1;
        ReadMono(w, b, param, es[0], i, f0, f);
        ReadAllMono(w, b, param, es[1..], r.end, f1, f);
      }
    }
  }

  lemma {:induction false} AnyEnds(w: Reading, a: Analysis, b: Bind, param: Option<string>, own: Shape, level: nat,
                                   es: seq<Elem>, i: nat)
    returns (f: nat)
    requires Sits(w, a, b, param, own) && WfAll(w.gr, param, es) && i <= |w.ts| && AnyOf(a, level, own, es).sound
    ensures Ends(w, i, ReadFirst(w, b, param, es, i, f), AnyOf(a, level, own, es).nullable)
    decreases |w.ts| - i, AnyOf(a, level, own, es).left, AnyOf(a, level, own, es).height, 0
  {
    f := 0;
    if es != [] {
      var f0 := ElemEnds(w, a, b, param, own, level, es[0], i);
      f := f0;
      if Read(w, b, param, es[0], i, f0).No? {
        var f1 := AnyEnds(w, a, b, param, own, level, es[1..], i);
        f := f0 + f1;
        ReadMono(w, b, param, es[0], i, f0, f);
        ReadFirstMono(w, b, param, es[1..], i, f1, f);
      }
    }
  }

  lemma {:induction false} PlusEnds(w: Reading, a: Analysis, b: Bind, param: Option<string>, own: Shape, level: nat,
                                    e: Elem, i: nat)
    returns (f: nat)
    requires Sits(w, a, b, param, own) && WfElem(w.gr, param, e) && i <= |w.ts| &&
             Repeated(ShapeOf(a, level, own, e)).sound
    ensures Ends(w, i, ReadPlus(w, b, param, e, i, f), false)
    decreases |w.ts| - i, ShapeOf(a, level, own, e).left, ShapeOf(a, level, own, e).height, 2
  {
    var f0 := ElemEnds(w, a, b, param, own, level, e, i);
    f := f0 + 1;
    var r := Read(w, b, param, e, i, f0);
    if r.Yes? {
      var f1 := MoreEnds(w, a, b, param, own, level, e, i, r.end);
      f := f0 + f1 + 1;
      ReadMono(w, b, param, e, i, f0, f0 + f1);
      ReadMoreMono(w, b, param, e, r.end, f1, f0 + f1);
    }
  }

  lemma {:induction false} MoreEnds(w: Reading, a: Analysis, b: Bind, param: Option<string>, own: Shape, level: nat,
                                    e: Elem, first: nat, i: nat)
    returns (f: nat)
    requires Sits(w, a, b, param, own) && WfElem(w.gr, param, e) && first < i <= |w.ts| &&
             Repeated(ShapeOf(a, level, own, e)).sound
    ensures Ends(w, i, ReadMore(w, b, param, e, i, f), true)
    decreases |w.ts| - first, 0, 0, 0
  {
    f := 0;
    if i < |w.ts| {
      var f0 := ElemEnds(w, a, b, param, own, level, e, i);
      f := f0 + 1;
      var r := Read(w, b, param, e, i, f0);
      if r.Yes? {
        var f1 := MoreEnds(w, a, b, param, own, level, e, i, r.end);
        f := f0 + f1 + 1;
        ReadMono(w, b, param, e, i, f0, f0 + f1);
        ReadMoreMono(w, b, param, e, r.end, f1, f0 + f1);
      }
    }
  }

  // ----- parsing with a compiled grammar -----

  /** On every token list the interpreter finishes on a compiled progressive grammar, with what its rule
      trees mean. */
  lemma CompiledGrammarTerminates(w: Reading, a: Analysis, st: Store, root: string, i: nat)
    returns (st': Store, id: nat, f: nat)
    requires a.gr == w.gr && Startable(w, a.rk, st, root) && Progressive(a) && i <= |w.ts|
    ensures CreateF(EnvOf(w.gr), a.rk, st, root, []) == Result.Done((st', id)) && Closed(st'.nodes) && id < |st'.nodes|
    ensures PegParse.ParseF(CtxOf(w, st'), id, i, f).Done?
    ensures Recognised(PegParse.ParseF(CtxOf(w, st'), id, i, f)) == Read(w, NoBind, None, Ref(root), i, f)
  {
    hide ShapeOf, Progressive;
    RefIsSound(a, root);
    f := ElemEnds(w, a, NoBind, None, UNSOUND, a.rk.top, Ref(root), i);
    st', id := CompilingPreservesMeaning(w, a.rk, st, root, i, f);
  }

  lemma RefIsSound(a: Analysis, name: string)
    ensures ShapeOf(a, a.rk.top, UNSOUND, Ref(name)).sound
  {
  }

  /** Parsing with a compiled grammar is total: for every progressive grammar and token list the result is
      the PEG relation's only outcome on the compiled graph, and is what the rule trees mean; a success
      has a tree over exactly the tokens passed, a failure leaves the token index. */
  method ParseWithGrammar(c: Ctx, id: nat, state: PegEngine.MatchState,
                          ghost w: Reading, ghost a: Analysis, ghost st: Store, ghost root: string)
    returns (out: PegParse.Outcome)
    requires a.gr == w.gr && Startable(w, a.rk, st, root) && Progressive(a) && state.tokenIndex <= |c.ts| &&
             c.ts == w.ts && c.kw == w.kw
    requires CreateF(EnvOf(w.gr), a.rk, st, root, []).Done?
    requires var made := CreateF(EnvOf(w.gr), a.rk, st, root, []).value; c.g == made.0.nodes && id == made.1
    modifies state`tokenIndex, state.shared`maxTokenIndex
    ensures Closed(c.g) && id < |c.g| && forall o :: PegRelation.Peg(c, id, old(state.tokenIndex), o) <==> o == out
    ensures exists f :: Recognised(PegParse.Done(out, 0)) == Read(w, NoBind, None, Ref(root), old(state.tokenIndex), f)
    ensures out.Ok? ==> old(state.tokenIndex) <= state.tokenIndex == out.end <= |c.ts| &&
                        PegParse.Yield(out.tree) == PegParse.Offsets(c.ts, old(state.tokenIndex), out.end)
    ensures out.Fail? ==> state.tokenIndex == old(state.tokenIndex)
  {
    hide Startable, Progressive, CreateF, Read;
    ghost var st', id', f := CompiledGrammarTerminates(w, a, st, root, state.tokenIndex);
    out := PegEngine.ParseFinishing(c, id, state, f);
  }
}
