/** `Sparing` is exactly the condition under which every rule is built as its tree says: a choice that the
    compiler makes never begins with another choice, and a tree that is not sparing would ask for one. */
module PegSparing {
  import opened Wrappers
  import opened PegGraph
  import opened PegCompiler
  import opened PegRules
  import opened PegRuleProofs

  // ----- no choice begins with a choice -----

  ghost predicate FlatAt(g: Graph, k: nat)
  {
    k < |g| && g[k].Choice? ==>
      g[k].children != [] && g[k].children[0] < |g| && !g[g[k].children[0]].Choice?
  }

  ghost predicate Flat(g: Graph)
  {
    forall k: nat :: FlatAt(g, k)
  }

  /** Choices have only gained alternatives. */
  ghost predicate ChoicesExtend(a: Store, b: Store)
  {
    forall k :: 0 <= k < |a.nodes| && k < |b.nodes| && b.nodes[k].Choice? && a.nodes[k].Choice? ==>
      a.nodes[k].children <= b.nodes[k].children
  }

  lemma FlatGrows(a: Store, b: Store)
    requires Flat(a.nodes) && Grows(a, b) && ChoicesExtend(a, b)
    requires forall k: nat :: |a.nodes| <= k < |b.nodes| ==> FlatAt(b.nodes, k)
    ensures Flat(b.nodes)
  {
    forall k: nat ensures FlatAt(b.nodes, k) {
      if k < |a.nodes| {
        assert FlatAt(a.nodes, k) && SameKind(a.nodes[k], b.nodes[k]);
        if a.nodes[k].Choice? {
          var first := a.nodes[k].children[0];
          assert b.nodes[k].children[0] == first && SameKind(a.nodes[first], b.nodes[first]);
        }
      }
    }
  }

  lemma FlatAlloc(env: Env, st: Store, n: Node)
    requires GoodStore(env, st) && Flat(st.nodes) && Ids(st.nodes, ChildrenOf(n))
    requires n.Choice? ==> n.children != [] && n.children[0] < |st.nodes| && !st.nodes[n.children[0]].Choice?
    ensures Flat(Alloc(st, n).0.nodes)
  {
    AllocGood(env, st, n);
    FlatGrows(st, Alloc(st, n).0);
  }

  lemma FlatSet(env: Env, st: Store, id: nat, children: seq<nat>)
    requires GoodStore(env, st) && Flat(st.nodes) && id < |st.nodes| && HasChildren(st.nodes[id])
    requires Ids(st.nodes, children) && (st.nodes[id].Choice? ==> st.nodes[id].children <= children)
    ensures Flat(SetChildren(st, id, children).nodes)
  {
    SetChildrenGood(env, st, id, children);
    FlatGrows(st, SetChildren(st, id, children));
  }

  lemma FlatAdd(env: Env, m: Machine, id: nat)
    requires GoodStore(env, m.st) && GoodStack(m.st, m.stack) && Flat(m.st.nodes) && id < |m.st.nodes|
    ensures AddMatcher(m, id).Done? ==> Flat(AddMatcher(m, id).value.st.nodes)
  {
    var top := m.stack[|m.stack| - 1].id;
    ChildrenFit(env, m.st, top);
    FlatSet(env, m.st, top, m.st.nodes[top].children + [id]);
  }

  lemma FlatPostfix(env: Env, m: Machine, op: char)
    requires GoodStore(env, m.st) && GoodStack(m.st, m.stack) && Flat(m.st.nodes)
    ensures Postfix(m, op).Done? ==> Flat(Postfix(m, op).value.st.nodes)
  {
    hide GoodStore, Flat;
    var top := m.stack[|m.stack| - 1].id;
    if Postfix(m, op).Done? {
      var children := m.st.nodes[top].children;
      ChildrenFit(env, m.st, top);
      var last := children[|children| - 1];
      WrapGood(env, m.st, op, last);
      var (st1, inner) := if op == '?' then (m.st, last) else Alloc(m.st, Repeat(last));
      FlatAlloc(env, m.st, Repeat(last));
      AllocGood(env, m.st, Repeat(last));
      FlatAlloc(env, st1, Optional(inner));
      var (st2, outer) := Wrap(m.st, op, last);
      assert st2.nodes[top] == st2.nodes[..|m.st.nodes|][top];
      FlatSet(env, st2, top, children[..|children| - 1] + [outer]);
    }
  }

  lemma FlatOr(env: Env, m: Machine)
    requires GoodStore(env, m.st) && GoodStack(m.st, m.stack) && Flat(m.st.nodes)
    ensures OrOperator(m).Done? ==> Flat(OrOperator(m).value.st.nodes)
  {
    hide Flat;
    var top := m.stack[|m.stack| - 1].id;
    if OrOperator(m).Done? {
      var children := m.st.nodes[top].children;
      ChildrenFit(env, m.st, top);
      var last := children[|children| - 1];
      if !m.st.nodes[last].Choice? {
        FlatAlloc(env, m.st, Choice([last]));
        AllocGood(env, m.st, Choice([last]));
        var (st1, choice) := Alloc(m.st, Choice([last]));
        FlatSet(env, st1, top, children[..|children| - 1] + [choice]);
      }
    }
  }

  /** Compiling any tokens keeps choices flat: by the compiler's own recursion. */
  lemma {:induction false} FlatCreate(env: Env, rk: Ranking, st: Store, name: string, args: seq<nat>)
    requires Acyclic(env, rk) && GoodStore(env, st) && Ids(st.nodes, args) && Flat(st.nodes)
    ensures var r := CreateF(env, rk, st, name, args); r.Done? ==> Flat(r.value.0.nodes)
    decreases if args == [] then Uncached(env, st) + ({name} - st.cache.Keys) else Uncached(env, st),
              if args == [] then 0 else RankOf(rk, name),
              if args == [] then 0 else 3 + |TokensOf(env, name)|, 0
  {
    hide Flat, RunF, RankOf;
    if !(args == [] && name in st.cache) && Lower(name) in env.rules {
      var rule := env.rules[Lower(name)];
      var st1, root := StartRule(env, st, name, args), |st.nodes|;
      FlatAlloc(env, st, List([], "", false));
      if |args| == |rule.params| <= 1 {
        assert args == [] ==> Uncached(env, st1) < Uncached(env, st) + ({name} - st.cache.Keys) by {
          if args == [] { assert name in Uncached(env, st) + ({name} - st.cache.Keys) && name !in Uncached(env, st1); }
        }
        assert args != [] ==> Uncached(env, st1) == Uncached(env, st);
        var m := Machine(st1, [Entry(root, "")]);
        FlatRun(env, rk, rule, args, LevelOf(rk, name, rule), m, rule.tokens);
        var r := RunF(env, rk, rule, args, LevelOf(rk, name, rule), m, rule.tokens);
        if r.Done? {
          FlatNamed(env, r.value.st, root, name);
        }
      }
    }
  }

  lemma FlatNamed(env: Env, st: Store, root: nat, name: string)
    requires GoodStore(env, st) && Flat(st.nodes) && root < |st.nodes| && st.nodes[root].List?
    ensures Flat(st.nodes[root := st.nodes[root].(name := name, suppress := name in env.silent)])
  {
    var nodes := st.nodes[root := st.nodes[root].(name := name, suppress := name in env.silent)];
    FinishGood(env, st, root, name);
    FlatGrows(st, st.(nodes := nodes));
  }

  lemma {:induction false} FlatRun(env: Env, rk: Ranking, rule: PegRule, args: seq<nat>, level: nat, m: Machine,
                                   tokens: seq<PegToken>)
    requires RunPre(env, rk, rule, args, level, m, tokens) && Flat(m.st.nodes)
    ensures var r := RunF(env, rk, rule, args, level, m, tokens); r.Done? ==> Flat(r.value.st.nodes)
    decreases Uncached(env, m.st), level, 1 + |tokens|, 1
  {
    hide Flat, StepF, RunPre, Acyclic;
    if tokens != [] {
      RunStep(env, rk, rule, args, level, m, tokens);
      FlatStep(env, rk, rule, args, level, m, tokens[0], |tokens|);
      var s := StepF(env, rk, rule, args, level, m, tokens[0], |tokens|);
      if s.Done? {
        assert Uncached(env, s.value.st) == Uncached(env, m.st) || Uncached(env, s.value.st) < Uncached(env, m.st);
        FlatRun(env, rk, rule, args, level, s.value, tokens[1..]);
      }
    }
  }

  lemma {:induction false} FlatStep(env: Env, rk: Ranking, rule: PegRule, args: seq<nat>, level: nat, m: Machine,
                                    t: PegToken, left: nat)
    requires RunPre(env, rk, rule, args, level, m, [t]) && Flat(m.st.nodes) && left > 0
    ensures var r := StepF(env, rk, rule, args, level, m, t, left); r.Done? ==> Flat(r.value.st.nodes)
    decreases Uncached(env, m.st), level, 1 + left, 0
  {
    hide Flat, CreateF, CloseF, Acyclic;
    assert t in [t];
    match t
    case Literal(text) =>
      FlatAlloc(env, m.st, LeafNode(Keyword(text)));
      AllocGood(env, m.st, LeafNode(Keyword(text)));
      var (st1, id) := KeywordMatcher(env, m.st, text);
      FlatAddTo(env, m, st1, id, m.stack);
    case Reference(name) =>
      if name in rule.params {
        FlatAddTo(env, m, m.st, args[IndexOf(rule.params, name)], m.stack);
      } else {
        assert name in Names(env) by { ReferenceIsNamed(env, rule, [t]); assert name in ReferencesIn([t]); }
        assert Uncached(env, m.st) + ({name} - m.st.cache.Keys) == Uncached(env, m.st);
        FlatCreate(env, rk, m.st, name, []);
        var r := CreateF(env, rk, m.st, name, []);
        if r.Done? { FlatAddTo(env, m, r.value.0, r.value.1, m.stack); }
      }
    case FunctionCall(fn) => FlatAlloc(env, m.st, List([], "", false));
    case Regex =>
    case Op(op) =>
      FlatPostfix(env, m, op);
      FlatOr(env, m);
      FlatAlloc(env, m.st, List([], "", false));
      FlatClose(env, rk, level, m, left);
  }

  lemma FlatAddTo(env: Env, m: Machine, st1: Store, id: nat, stack: seq<Entry>)
    requires GoodStore(env, m.st) && GoodStack(m.st, m.stack) && GoodStore(env, st1) && Grows(m.st, st1)
    requires Flat(st1.nodes) && id < |st1.nodes| && 0 < |stack| && stack <= m.stack
    ensures stack[|stack| - 1].id < |st1.nodes|
    ensures var r := AddMatcher(Machine(st1, stack), id); r.Done? ==> Flat(r.value.st.nodes)
  {
    hide Flat;
    GoodStackGrows(m.st, st1, m.stack);
    assert GoodStack(st1, stack);
    FlatAdd(env, Machine(st1, stack), id);
  }

  lemma {:induction false} FlatClose(env: Env, rk: Ranking, level: nat, m: Machine, left: nat)
    requires Acyclic(env, rk) && GoodStore(env, m.st) && GoodStack(m.st, m.stack) && OpenCallsBelow(rk, level, m.stack)
    requires left > 0 && Flat(m.st.nodes)
    ensures var r := CloseF(env, rk, level, m, left); r.Done? ==> Flat(r.value.st.nodes)
    decreases Uncached(env, m.st), level, left, 0
  {
    hide Flat, CreateF, Acyclic;
    if |m.stack| > 1 {
      var top, below := m.stack[|m.stack| - 1], m.stack[..|m.stack| - 1];
      if top.fn == "" {
        FlatAddTo(env, m, m.st, top.id, below);
      } else {
        CallParameterGood(env, m.st, top.id);
        ChildrenFit(env, m.st, top.id);
        FlatAlloc(env, m.st, List(m.st.nodes[top.id].children, "", false));
        var (st1, p) := CallParameter(m.st, top.id);
        assert Uncached(env, st1) == Uncached(env, m.st);
        FlatCreate(env, rk, st1, top.fn, [p]);
        var r := CreateF(env, rk, st1, top.fn, [p]);
        if r.Done? { FlatAddTo(env, m, r.value.0, r.value.1, below); }
      }
    }
  }

  // ----- what is built shows its usage -----

  /** Somewhere the body of rule n is built with parameter p. */
  ghost predicate Instance(gr: Grammar, rk: Ranking, st: Store, n: string, p: Option<nat>)
  {
    n in gr.rules && exists lo, hi, level, ids :: RepAll(gr, rk, st, lo, hi, level, p, gr.rules[n].body, ids)
  }

  ghost predicate IsChoice(st: Store, p: Option<nat>)
  {
    p.Some? && p.value < |st.nodes| && st.nodes[p.value].Choice?
  }

  /** The rules that are built, and those that are never built with a choice for a parameter. */
  ghost function UsageOf(gr: Grammar, rk: Ranking, st: Store): Usage
  {
    Usage(set n | n in gr.rules && exists p :: Instance(gr, rk, st, n, p),
          set n | n in gr.rules && forall p :: Instance(gr, rk, st, n, p) ==> !IsChoice(st, p))
  }

  /** On flat choices an element that is built is firm; where the enclosing rule's parameter is not known to
      be no choice (`own`), it is built with one that is. */
  lemma {:induction false} RepIsFirm(gr: Grammar, rk: Ranking, st: Store, lo: nat, hi: nat, level: nat,
                                     p: Option<nat>, own: bool, e: Elem, id: nat)
    requires Flat(st.nodes) && (own || IsChoice(st, p)) && Rep(gr, rk, st, lo, hi, level, p, e, id)
    requires forall n :: n in st.cache ==> n in gr.builtins || Built(gr, rk, st, n)
    ensures FirmElem(gr, UsageOf(gr, rk, st), own, e)
    decreases e, 1
  {
    hide Flat, UsageOf, Instance, Built;
    match e
    case Lit(_) =>
    case Ref(name) => CachedIsLive(gr, rk, st, name);
    case Param =>
    case Group(items) => RepAllIsFirm(gr, rk, st, lo, hi, level, p, own, items, st.nodes[id].children);
    case Call(fn, args) =>
      var q: nat :| RepArg(gr, rk, st, lo, hi, level, p, args, q) &&
                    RepAll(gr, rk, st, lo, hi, RankOf(rk, fn), Some(q), gr.rules[Lower(fn)].body,
                           st.nodes[id].children);
      CalledIsLive(gr, rk, st, lo, hi, RankOf(rk, fn), Some(q), Lower(fn), st.nodes[id].children);
      if |args| == 1 {
        RepIsFirm(gr, rk, st, lo, hi, level, p, own, args[0], q);
      } else {
        RepAllIsFirm(gr, rk, st, lo, hi, level, p, own, args, st.nodes[q].children);
      }
    case Opt(elem) => RepIsFirm(gr, rk, st, lo, hi, level, p, own, elem, st.nodes[id].child);
    case Star(elem) => RepIsFirm(gr, rk, st, lo, hi, level, p, own, elem, st.nodes[st.nodes[id].child].child);
    case Plus(elem) => RepIsFirm(gr, rk, st, lo, hi, level, p, own, elem, st.nodes[id].child);
    case Alt(first, rest) =>
      FlatFirst(st.nodes, id);
      RepIsFirm(gr, rk, st, lo, hi, level, p, own, first, st.nodes[id].children[0]);
      RepAllIsFirm(gr, rk, st, lo, hi, level, p, own, rest, st.nodes[id].children[1..]);
  }

  lemma FlatFirst(g: Graph, k: nat)
    requires Flat(g)
    ensures FlatAt(g, k)
  {
  }

  lemma {:induction false} RepAllIsFirm(gr: Grammar, rk: Ranking, st: Store, lo: nat, hi: nat, level: nat,
                                        p: Option<nat>, own: bool, es: seq<Elem>, ids: seq<nat>)
    requires Flat(st.nodes) && (own || IsChoice(st, p)) && RepAll(gr, rk, st, lo, hi, level, p, es, ids)
    requires forall n :: n in st.cache ==> n in gr.builtins || Built(gr, rk, st, n)
    ensures FirmAll(gr, UsageOf(gr, rk, st), own, es)
    decreases es, 0
  {
    hide Flat, UsageOf, IsChoice, Built, Rep, FirmElem;
    forall k | 0 <= k < |es| ensures FirmElem(gr, UsageOf(gr, rk, st), own, es[k]) {
      RepIsFirm(gr, rk, st, lo, hi, level, p, own, es[k], ids[k]);
    }
  }

  lemma CachedIsLive(gr: Grammar, rk: Ranking, st: Store, name: string)
    requires name in st.cache && (name in gr.builtins || Built(gr, rk, st, name))
    ensures name in gr.builtins || Lower(name) in UsageOf(gr, rk, st).live
  {
    hide RepAll, Lower;
    if name !in gr.builtins {
      assert Instance(gr, rk, st, Lower(name), None);
    }
  }

  lemma CalledIsLive(gr: Grammar, rk: Ranking, st: Store, lo: nat, hi: nat, level: nat, p: Option<nat>, n: string,
                     ids: seq<nat>)
    requires n in gr.rules && RepAll(gr, rk, st, lo, hi, level, p, gr.rules[n].body, ids)
    ensures var u := UsageOf(gr, rk, st); n in u.live && (IsChoice(st, p) ==> n !in u.firm)
  {
    hide RepAll;
    assert Instance(gr, rk, st, n, p);
  }

  /** All rules that are built are firm. */
  lemma BuiltIsFirm(gr: Grammar, rk: Ranking, st: Store)
    requires Flat(st.nodes) && forall n :: n in st.cache ==> n in gr.builtins || Built(gr, rk, st, n)
    ensures Firm(gr, UsageOf(gr, rk, st))
  {
    hide Flat, RepAll, FirmAll, Built;
    var u := UsageOf(gr, rk, st);
    forall n | n in gr.rules && n in u.live ensures FirmAll(gr, u, n in u.firm, gr.rules[n].body) {
      var p :| Instance(gr, rk, st, n, p) && (n in u.firm || IsChoice(st, p));
      var lo, hi, level, ids :| RepAll(gr, rk, st, lo, hi, level, p, gr.rules[n].body, ids);
      RepAllIsFirm(gr, rk, st, lo, hi, level, p, n in u.firm, gr.rules[n].body, ids);
    }
  }

  // ----- main result -----

  /** Compiling the root succeeds, and every cached rule is a builtin or built as its tree says. */
  ghost predicate BuiltAsWritten(gr: Grammar, rk: Ranking, st: Store, root: string)
    requires Acyclic(EnvOf(gr), rk) && GoodStore(EnvOf(gr), st)
  {
    var r := CreateF(EnvOf(gr), rk, st, root, []);
    r.Done? && forall n :: n in r.value.0.cache ==> n in gr.builtins || Built(gr, rk, r.value.0, n)
  }

  /** For every well-formed grammar: the rules are built as written if and only if, among
      the rules that the root leads to, none that has a `/` after its parameter is handed a choice. */
  lemma BuiltAsWrittenIff(gr: Grammar, rk: Ranking, st: Store, root: string)
    requires WfGrammar(gr) && Initial(gr, st) && Flat(st.nodes) && Acyclic(EnvOf(gr), rk)
    requires root in gr.builtins || (Lower(root) in gr.rules && gr.rules[Lower(root)].param.None?)
    ensures BuiltAsWritten(gr, rk, st, root) <==> Sparing(gr, root)
  {
    hide Flat, Acyclic, CreateF, Built, WfGrammar, Firm, Lower;
    if Sparing(gr, root) {
      var st', id := CompileGrammar(gr, rk, st, root);
    }
    if BuiltAsWritten(gr, rk, st, root) {
      FlatCreate(EnvOf(gr), rk, st, root, []);
      var st' := CreateF(EnvOf(gr), rk, st, root, []).value.0;
      assert CreatePost(EnvOf(gr), st, root, [], CreateF(EnvOf(gr), rk, st, root, []));
      BuiltIsFirm(gr, rk, st');
      CachedIsLive(gr, rk, st', root);
      assert Starts(gr, UsageOf(gr, rk, st'), root);
    }
  }
}
