/** The proof that compiling a printed grammar rebuilds it. Each lemma follows one construct through
    the stack machine; all of them share the compiler's own termination measure. */
module PegRuleProofs {
  import opened Wrappers
  import opened PegGraph
  import opened PegCompiler
  import opened PegRules

  /** The body being compiled: its rule, the parameter given to it, the rank bound of its calls, the
      rules in use, and whether this one's is known to be none. */
  datatype Job = Job(gr: Grammar, rk: Ranking, rule: RuleTree, args: seq<nat>, level: nat, use: Usage, own: bool)

  ghost predicate Fits(j: Job, e: Elem)
  {
    WfElem(j.gr, j.rule.param, e) && FirmElem(j.gr, j.use, j.own, e)
  }

  ghost predicate FitsAll(j: Job, es: seq<Elem>)
  {
    WfAll(j.gr, j.rule.param, es) && FirmAll(j.gr, j.use, j.own, es)
  }

  ghost function ParamId(j: Job): Option<nat>
  {
    if j.args == [] then None else Some(j.args[0])
  }

  /** Leaves and rule lists are never choices, so `/` after them opens a new choice. */
  ghost predicate Ready(gr: Grammar, st: Store)
  {
    GoodStore(EnvOf(gr), st) && gr.builtins <= st.cache.Keys &&
    (forall n :: n in st.cache ==> !st.nodes[st.cache[n]].Choice?) &&
    (forall k :: k in gr.overrides ==> !st.nodes[gr.overrides[k]].Choice?)
  }

  lemma ReadyAfter(gr: Grammar, rk: Ranking, st: Store, st': Store)
    ensures Ready(gr, st) && GoodStore(EnvOf(gr), st') && Grows(st, st') && NewBuilt(gr, rk, st, st') ==> Ready(gr, st')
  {
  }

  ghost predicate Pre(j: Job, m: Machine, tokens: seq<PegToken>)
  {
    RunPre(EnvOf(j.gr), j.rk, TokenRule(j.rule), j.args, j.level, m, tokens)
  }

  ghost function Run(j: Job, m: Machine, tokens: seq<PegToken>): (r: Result<Machine>)
    requires Pre(j, m, tokens)
    ensures RunPost(EnvOf(j.gr), j.rk, j.level, m, r)
  {
    RunF(EnvOf(j.gr), j.rk, TokenRule(j.rule), j.args, j.level, m, tokens)
  }

  ghost function Rest(j: Job, st: Store): set<string>
  {
    Uncached(EnvOf(j.gr), st)
  }

  lemma RestShrinks(j: Job, st: Store, st': Store)
    requires Extends(st, st')
    ensures Rest(j, st') == Rest(j, st) || Rest(j, st') < Rest(j, st)
  {
    assert Rest(j, st') <= Rest(j, st);
  }

  /** The count of tokens left only serves termination. */
  lemma StepLeft(j: Job, m: Machine, t: PegToken, left: nat, left': nat)
    requires Pre(j, m, [t]) && left > 0 && left' > 0
    ensures StepF(EnvOf(j.gr), j.rk, TokenRule(j.rule), j.args, j.level, m, t, left)
         == StepF(EnvOf(j.gr), j.rk, TokenRule(j.rule), j.args, j.level, m, t, left')
  {
    if t.Op? {
      OperatorLeft(EnvOf(j.gr), j.rk, j.level, m, t.op, left, left');
    }
  }

  lemma OperatorLeft(env: Env, rk: Ranking, level: nat, m: Machine, op: char, left: nat, left': nat)
    requires Acyclic(env, rk) && GoodStore(env, m.st) && GoodStack(m.st, m.stack) && OpenCallsBelow(rk, level, m.stack)
    requires left > 0 && left' > 0
    ensures OperatorF(env, rk, level, m, op, left) == OperatorF(env, rk, level, m, op, left')
  {
    hide CreateF, GoodStore, GoodStack, Acyclic;
    assert CloseF(env, rk, level, m, left) == CloseF(env, rk, level, m, left');
  }

  lemma OneStep(j: Job, m: Machine, t: PegToken)
    requires Pre(j, m, [t])
    ensures Run(j, m, [t]) == StepF(EnvOf(j.gr), j.rk, TokenRule(j.rule), j.args, j.level, m, t, 1)
  {
    var r := StepF(EnvOf(j.gr), j.rk, TokenRule(j.rule), j.args, j.level, m, t, 1);
    assert [t][1..] == [];
    if r.Done? {
      assert Pre(j, r.value, []);
      assert RunF(EnvOf(j.gr), j.rk, TokenRule(j.rule), j.args, j.level, r.value, []) == Done(r.value);
    }
  }

  lemma PreNext(j: Job, m: Machine, a: seq<PegToken>, b: seq<PegToken>)
    requires Pre(j, m, a + b)
    ensures Pre(j, m, a)
    ensures Run(j, m, a).Done? ==> Pre(j, Run(j, m, a).value, b)
  {
    forall t | t in a || t in b ensures t in a + b {}
  }

  lemma {:induction false} RunAppend(j: Job, m: Machine, a: seq<PegToken>, b: seq<PegToken>)
    requires Pre(j, m, a + b) && Pre(j, m, a)
    requires Run(j, m, a).Done? && Pre(j, Run(j, m, a).value, b)
    ensures Run(j, m, a + b) == Run(j, Run(j, m, a).value, b)
    decreases |a|
  {
    hide StepF, RunPre;
    if a == [] {
      assert a + b == b;
    } else {
      assert (a + b)[0] == a[0] && (a + b)[1..] == a[1..] + b;
      var env, rule := EnvOf(j.gr), TokenRule(j.rule);
      RunStep(env, j.rk, rule, j.args, j.level, m, a);
      RunStep(env, j.rk, rule, j.args, j.level, m, a + b);
      StepLeft(j, m, a[0], |a|, |a + b|);
      var s := StepF(env, j.rk, rule, j.args, j.level, m, a[0], |a|);
      RunAppend(j, s.value, a[1..], b);
    }
  }

  /** The compiler passes over `!`: rule tokens with and without it compile alike, errors included. */
  lemma {:induction false} BangIsIgnored(j: Job, m: Machine, a: seq<PegToken>, b: seq<PegToken>)
    requires Pre(j, m, a + [Op('!')] + b) && Pre(j, m, a + b)
    ensures Run(j, m, a + [Op('!')] + b) == Run(j, m, a + b)
    decreases |a|
  {
    hide StepF, RunPre;
    var env, rule, with, without := EnvOf(j.gr), TokenRule(j.rule), a + [Op('!')] + b, a + b;
    RunStep(env, j.rk, rule, j.args, j.level, m, with);
    if a == [] {
      assert with[0] == Op('!') && with[1..] == b == without;
      BangStep(j, m, |with|);
    } else {
      assert with[0] == without[0] == a[0];
      assert with[1..] == a[1..] + [Op('!')] + b && without[1..] == a[1..] + b;
      RunStep(env, j.rk, rule, j.args, j.level, m, without);
      StepLeft(j, m, a[0], |with|, |without|);
      var s := StepF(env, j.rk, rule, j.args, j.level, m, a[0], |with|);
      if s.Done? { BangIsIgnored(j, s.value, a[1..], b); }
    }
  }

  lemma BangStep(j: Job, m: Machine, left: nat)
    requires Pre(j, m, [Op('!')]) && left > 0
    ensures StepF(EnvOf(j.gr), j.rk, TokenRule(j.rule), j.args, j.level, m, Op('!'), left) == Done(m)
  {
  }

  // ----- the effect of compiling one element -----

  /** Only matcher `top` changed, and it gained the children `ids`. */
  ghost predicate Appended(st: Store, st': Store, top: nat, ids: seq<nat>)
  {
    |st.nodes| <= |st'.nodes| && top < |st.nodes| && HasChildren(st.nodes[top]) &&
    (forall k :: 0 <= k < |st.nodes| && k != top ==> st'.nodes[k] == st.nodes[k]) &&
    SameKind(st.nodes[top], st'.nodes[top]) &&
    ChildrenOf(st'.nodes[top]) == ChildrenOf(st.nodes[top]) + ids &&
    (st.nodes[top].List? ==>
     st'.nodes[top].name == st.nodes[top].name && st'.nodes[top].suppress == st.nodes[top].suppress)
  }

  ghost predicate Sane(j: Job, st: Store)
  {
    WfGrammar(j.gr) && Firm(j.gr, j.use) && Ready(j.gr, st) && OwnFirm(j, st)
  }

  /** The parameter's matcher is no choice where the job says so. */
  ghost predicate OwnFirm(j: Job, st: Store)
  {
    j.own && j.args != [] ==> j.args[0] < |st.nodes| && !st.nodes[j.args[0]].Choice?
  }

  /** From st to st' the store only grew, and every rule cached since is fully built. */
  ghost predicate Steady(j: Job, st: Store, st': Store)
  {
    Sane(j, st') && |st.nodes| <= |st'.nodes| && Extends(st, st') && Grows(st, st') && NewBuilt(j.gr, j.rk, st, st')
  }

  ghost predicate RepIn(j: Job, st: Store, st': Store, e: Elem, id: nat)
  {
    Rep(j.gr, j.rk, st', |st.nodes|, |st'.nodes|, j.level, ParamId(j), e, id)
  }

  ghost predicate RepAllIn(j: Job, st: Store, st': Store, es: seq<Elem>, ids: seq<nat>)
  {
    RepAll(j.gr, j.rk, st', |st.nodes|, |st'.nodes|, j.level, ParamId(j), es, ids)
  }

  ghost function Top(m: Machine): nat
    requires |m.stack| > 0
  {
    m.stack[|m.stack| - 1].id
  }

  // ----- moving facts along a run -----

  lemma SteadyTrans(j: Job, a: Store, b: Store, c: Store)
    requires Steady(j, a, b) && Steady(j, b, c) && SameOn(b, c, |a.nodes|, |b.nodes|)
    ensures Steady(j, a, c)
  {
    NewBuiltTrans(j.gr, j.rk, a, b, c);
  }

  lemma SameOnTrans(a: Store, b: Store, c: Store, lo: nat, hi: nat)
    requires |a.nodes| <= |b.nodes| <= |c.nodes| && SameOn(a, b, lo, hi) && SameOn(b, c, lo, hi)
    ensures SameOn(a, c, lo, hi)
  {
    assert forall k :: lo <= k < hi && k < |a.nodes| ==> b.nodes[k] == a.nodes[k];
  }

  lemma RepMove(j: Job, a: Store, b: Store, c: Store, e: Elem, id: nat)
    requires Steady(j, b, c) && |a.nodes| <= |b.nodes| && SameOn(b, c, |a.nodes|, |b.nodes|) && RepIn(j, a, b, e, id)
    ensures RepIn(j, a, c, e, id)
  {
    RepFrame(j.gr, j.rk, b, c, |a.nodes|, |b.nodes|, |a.nodes|, |c.nodes|, j.level, ParamId(j), e, id);
  }

  lemma RepWiden(j: Job, a: Store, b: Store, c: Store, es: seq<Elem>, ids: seq<nat>)
    requires |a.nodes| <= |b.nodes| <= |c.nodes| && RepAllIn(j, b, c, es, ids)
    ensures RepAllIn(j, a, c, es, ids)
  {
    RepAllFrame(j.gr, j.rk, c, c, |b.nodes|, |c.nodes|, |a.nodes|, |c.nodes|, j.level, ParamId(j), es, ids);
  }

  lemma RepCons(j: Job, a: Store, c: Store, es: seq<Elem>, id: nat, ids: seq<nat>)
    requires es != [] && RepIn(j, a, c, es[0], id) && RepAllIn(j, a, c, es[1..], ids)
    ensures RepAllIn(j, a, c, es, [id] + ids)
  {
    forall k | 0 <= k < |es| ensures RepIn(j, a, c, es[k], ([id] + ids)[k]) {
      if k > 0 { assert es[k] == es[1..][k - 1] && ([id] + ids)[k] == ids[k - 1]; }
    }
  }

  lemma AppendedTwice(a: Store, b: Store, c: Store, top: nat, ids: seq<nat>, more: seq<nat>)
    requires Appended(a, b, top, ids) && Appended(b, c, top, more)
    ensures Appended(a, c, top, ids + more)
  {
    assert ChildrenOf(c.nodes[top]) == ChildrenOf(a.nodes[top]) + (ids + more);
  }

  lemma AppendedSame(a: Store, b: Store, top: nat, ids: seq<nat>, lo: nat, hi: nat)
    requires Appended(a, b, top, ids) && (top < lo || hi <= top)
    ensures SameOn(a, b, lo, hi)
  {
  }

  lemma RepIsNoChoice(j: Job, a: Store, c: Store, e: Elem, id: nat)
    ensures Sane(j, c) && RepIn(j, a, c, e, id) && NoChoice(j.own, e) ==> id < |c.nodes| && !c.nodes[id].Choice?
  {
  }

  /** Adding the matcher to what is open disturbs nothing that was just built. */
  lemma AddBuilt(j: Job, m: Machine, st1: Store, e: Elem, id: nat, tokens: seq<PegToken>) returns (m': Machine)
    requires Sane(j, m.st) && Pre(j, m, tokens)
    requires Steady(j, m.st, st1) && SameOn(m.st, st1, 0, |m.st.nodes|) && id < |st1.nodes| &&
             RepIn(j, m.st, st1, e, id)
    ensures AddMatcher(Machine(st1, m.stack), id) == Done(m')
    ensures Steady(j, m.st, m'.st) && Appended(m.st, m'.st, Top(m), [id]) && RepIn(j, m.st, m'.st, e, id)
    ensures |m'.st.nodes| == |st1.nodes| && SameKind(st1.nodes[id], m'.st.nodes[id])
    ensures m'.stack == if m.st.nodes[Top(m)].List? then m.stack else m.stack[..|m.stack| - 1]
  {
    hide Pre, RunPre, Rep, NewBuilt, RankOf, Closed, GoodStore, GoodStack, Grows, Extends, Ready, Sane;
    PreGood(j, m, tokens);
    TopKind(m.st, m.stack);
    SaneGood(j, st1);
    GoodStackGrows(m.st, st1, m.stack);
    AddMatcherGood(EnvOf(j.gr), Machine(st1, m.stack), id);
    m' := AddMatcher(Machine(st1, m.stack), id).value;
    SameCacheSteady(j, st1, m'.st);
    SteadyTrans(j, m.st, st1, m'.st);
    RepMove(j, m.st, st1, m'.st, e, id);
  }

  lemma SaneGood(j: Job, st: Store)
    ensures Sane(j, st) ==> GoodStore(EnvOf(j.gr), st)
  {
  }

  lemma TopKind(st: Store, stack: seq<Entry>)
    requires GoodStack(st, stack) && |stack| > 0 && stack[|stack| - 1].id < |st.nodes|
    ensures HasChildren(st.nodes[stack[|stack| - 1].id])
  {
  }

  /** A step that caches no rule leaves everything built. */
  lemma SameCacheSteady(j: Job, st: Store, st': Store)
    requires Sane(j, st) && GoodStore(EnvOf(j.gr), st') && Grows(st, st') && st'.cache == st.cache
    ensures Steady(j, st, st')
  {
    NoNewBuilt(j.gr, j.rk, st, st');
    ReadyAfter(j.gr, j.rk, st, st');
  }

  lemma NoNewBuilt(gr: Grammar, rk: Ranking, st: Store, st': Store)
    ensures st'.cache.Keys == st.cache.Keys ==> NewBuilt(gr, rk, st, st')
  {
  }

  lemma PreGood(j: Job, m: Machine, tokens: seq<PegToken>)
    ensures Pre(j, m, tokens) ==>
              GoodStore(EnvOf(j.gr), m.st) && GoodStack(m.st, m.stack) &&
              |m.stack| > 0 && Top(m) < |m.st.nodes| && Closed(m.st.nodes)
  {
  }

  // ----- single steps -----

  lemma StepOpen(j: Job, m: Machine, t: PegToken, rest: seq<PegToken>) returns (m1: Machine)
    requires Sane(j, m.st) && Pre(j, m, [t] + rest) && (t == Op('(') || t.FunctionCall?)
    ensures m1 == OpenList(m, if t.Op? then "" else t.name)
    ensures Pre(j, m1, rest) && Run(j, m, [t] + rest) == Run(j, m1, rest)
    ensures Steady(j, m.st, m1.st) && Rest(j, m1.st) == Rest(j, m.st)
  {
    hide Run, Pre, RunPre, RunF, StepF, GoodStack, GoodStore, Closed, Grows, Extends, Ready, NewBuilt;
    var fn := if t.Op? then "" else t.name;
    PreGood(j, m, [t] + rest);
    PreNext(j, m, [t], rest);
    StepOpens(j, m, t);
    OpenListGood(EnvOf(j.gr), m, fn);
    m1 := OpenList(m, fn);
    RunAppend(j, m, [t], rest);
    SameCacheSteady(j, m.st, m1.st);
  }

  lemma StepOpens(j: Job, m: Machine, t: PegToken)
    requires Pre(j, m, [t]) && (t == Op('(') || t.FunctionCall?)
    ensures Run(j, m, [t]) == Done(OpenList(m, if t.Op? then "" else t.name))
  {
    OneStep(j, m, t);
  }

  lemma StepOperator(j: Job, m: Machine, op: char)
    requires Pre(j, m, [Op(op)]) && |m.stack| > 0 && Top(m) < |m.st.nodes| && Closed(m.st.nodes)
    ensures op == '?' || op == '*' || op == '+' ==> Run(j, m, [Op(op)]) == Postfix(m, op)
    ensures op == '/' ==> Run(j, m, [Op(op)]) == OrOperator(m)
  {
    OneStep(j, m, Op(op));
  }

  lemma StepClose(j: Job, m: Machine, below: seq<Entry>)
    requires Pre(j, m, [Op(')')]) && |m.stack| > 1 && m.stack[|m.stack| - 1].fn == "" &&
             below == m.stack[..|m.stack| - 1]
    ensures Run(j, m, [Op(')')]) == AddMatcher(Machine(m.st, below), Top(m))
  {
    hide CloseF, Run, GoodStore, GoodStack, Acyclic, RankOf, CreateF, AddMatcher, RunPre;
    PreCalls(j, m, [Op(')')]);
    CloseStep(j, m);
    ClosePlain(EnvOf(j.gr), j.rk, j.level, m, below);
  }

  lemma CloseStep(j: Job, m: Machine)
    requires Pre(j, m, [Op(')')])
    ensures Acyclic(EnvOf(j.gr), j.rk) && GoodStore(EnvOf(j.gr), m.st) && GoodStack(m.st, m.stack)
    ensures OpenCallsBelow(j.rk, j.level, m.stack)
    ensures Run(j, m, [Op(')')]) == CloseF(EnvOf(j.gr), j.rk, j.level, m, 1)
  {
    hide CloseF, Run, StepF, OperatorF, RunPre, GoodStore, GoodStack, Acyclic, RankOf, CreateF;
    PreCalls(j, m, [Op(')')]);
    OneStep(j, m, Op(')'));
    StepIsOperator(EnvOf(j.gr), j.rk, TokenRule(j.rule), j.args, j.level, m, ')');
    OperatorIsClose(EnvOf(j.gr), j.rk, j.level, m);
  }

  lemma StepIsOperator(env: Env, rk: Ranking, rule: PegRule, args: seq<nat>, level: nat, m: Machine, op: char)
    requires RunPre(env, rk, rule, args, level, m, [Op(op)])
    ensures Acyclic(env, rk) && GoodStore(env, m.st) && GoodStack(m.st, m.stack) && OpenCallsBelow(rk, level, m.stack)
    ensures StepF(env, rk, rule, args, level, m, Op(op), 1) == OperatorF(env, rk, level, m, op, 1)
  {
    hide OperatorF, GoodStore, GoodStack, Acyclic, RankOf, CreateF;
  }

  lemma OperatorIsClose(env: Env, rk: Ranking, level: nat, m: Machine)
    requires Acyclic(env, rk) && GoodStore(env, m.st) && GoodStack(m.st, m.stack) && OpenCallsBelow(rk, level, m.stack)
    ensures OperatorF(env, rk, level, m, ')', 1) == CloseF(env, rk, level, m, 1)
  {
    hide CloseF, GoodStore, GoodStack, Acyclic, RankOf;
  }

  lemma ClosePlain(env: Env, rk: Ranking, level: nat, m: Machine, below: seq<Entry>)
    requires Acyclic(env, rk) && GoodStore(env, m.st) && GoodStack(m.st, m.stack) && OpenCallsBelow(rk, level, m.stack)
    requires |m.stack| > 1 && m.stack[|m.stack| - 1].fn == "" && below == m.stack[..|m.stack| - 1]
    ensures below[|below| - 1].id < |m.st.nodes|
    ensures CloseF(env, rk, level, m, 1) == AddMatcher(Machine(m.st, below), Top(m))
  {
    hide CreateF, Closed, RankOf;
  }

  lemma StepCloseCall(j: Job, m: Machine, below: seq<Entry>, fn: string, st3: Store, p: nat)
    requires Pre(j, m, [Op(')')]) && |m.stack| > 1 && m.stack[|m.stack| - 1].fn == fn != "" &&
             below == m.stack[..|m.stack| - 1]
    requires Top(m) < |m.st.nodes| && m.st.nodes[Top(m)].List? && (st3, p) == CallParameter(m.st, Top(m))
    ensures Acyclic(EnvOf(j.gr), j.rk) && GoodStore(EnvOf(j.gr), st3) && Ids(st3.nodes, [p])
    ensures var r := CreateF(EnvOf(j.gr), j.rk, st3, fn, [p]);
            r.Done? ==> Run(j, m, [Op(')')]) == AddMatcher(Machine(r.value.0, below), r.value.1)
    ensures RankOf(j.rk, fn) < j.level
  {
    hide CloseF, Run, GoodStore, GoodStack, Acyclic, CallParameter, RankOf, CreateF;
    CloseStep(j, m);
    CloseCall(EnvOf(j.gr), j.rk, j.level, m, below, fn, st3, p);
  }

  lemma PreCalls(j: Job, m: Machine, tokens: seq<PegToken>)
    ensures Pre(j, m, tokens) ==>
            Acyclic(EnvOf(j.gr), j.rk) && GoodStore(EnvOf(j.gr), m.st) && GoodStack(m.st, m.stack) &&
            OpenCallsBelow(j.rk, j.level, m.stack)
  {
  }

  lemma CloseCall(env: Env, rk: Ranking, level: nat, m: Machine, below: seq<Entry>, fn: string, st3: Store, p: nat)
    requires Acyclic(env, rk) && GoodStore(env, m.st) && GoodStack(m.st, m.stack) && OpenCallsBelow(rk, level, m.stack)
    requires |m.stack| > 1 && m.stack[|m.stack| - 1].fn == fn != "" && below == m.stack[..|m.stack| - 1]
    requires Top(m) < |m.st.nodes| && m.st.nodes[Top(m)].List? && (st3, p) == CallParameter(m.st, Top(m))
    ensures GoodStore(env, st3) && Ids(st3.nodes, [p]) && RankOf(rk, fn) < level
    ensures var r := CreateF(env, rk, st3, fn, [p]);
            r.Done? ==> CloseF(env, rk, level, m, 1) == AddMatcher(Machine(r.value.0, below), r.value.1)
  {
    hide CreateF, Closed, RankOf;
    CallParameterGood(env, m.st, Top(m));
  }

  // ----- the constructs -----

  /** A single-token or bracketed element: one matcher is made, everything old is left as it was,
      and that matcher is added to whatever is open. */
  lemma {:induction false} CompileAtom(j: Job, m: Machine, e: Elem) returns (st1: Store, id: nat)
    requires Sane(j, m.st) && Atom(e) && Fits(j, e)
    requires Pre(j, m, Print(j.rule.param, e))
    ensures Steady(j, m.st, st1) && SameOn(m.st, st1, 0, |m.st.nodes|)
    ensures id < |st1.nodes| && RepIn(j, m.st, st1, e, id)
    ensures Run(j, m, Print(j.rule.param, e)) == AddMatcher(Machine(st1, m.stack), id)
    decreases Rest(j, m.st), j.level, Size(e), 0
  {
    match e
    case Lit(text) => st1, id := CompileLit(j, m, text);
    case Ref(name) => st1, id := CompileRef(j, m, name);
    case Param =>
      OneStep(j, m, Reference(j.rule.param.value));
      st1, id := m.st, j.args[0];
    case Group(items) => st1, id := CompileGroup(j, m, items);
    case Call(fn, args) => st1, id := CompileCall(j, m, fn, args);
  }

  lemma CompileLit(j: Job, m: Machine, text: string) returns (st1: Store, id: nat)
    requires Sane(j, m.st) && Pre(j, m, [Literal(text)])
    ensures Steady(j, m.st, st1) && SameOn(m.st, st1, 0, |m.st.nodes|)
    ensures id < |st1.nodes| && RepIn(j, m.st, st1, Lit(text), id) && !st1.nodes[id].Choice?
    ensures Run(j, m, [Literal(text)]) == AddMatcher(Machine(st1, m.stack), id)
  {
    hide Run, RunPre, StepF, Closed, GoodStack, NewBuilt, WfGrammar, Firm, AddMatcher;
    StepLiteral(j, m, text);
    AllocGood(EnvOf(j.gr), m.st, LeafNode(Keyword(text)));
    var r := KeywordMatcher(EnvOf(j.gr), m.st, text);
    st1, id := r.0, r.1;
    SameCacheSteady(j, m.st, st1);
  }

  lemma StepLiteral(j: Job, m: Machine, text: string)
    requires Pre(j, m, [Literal(text)])
    ensures GoodStore(EnvOf(j.gr), m.st) && |m.stack| > 0
    ensures var (st1, id) := KeywordMatcher(EnvOf(j.gr), m.st, text);
            Top(m) < |st1.nodes| && Run(j, m, [Literal(text)]) == AddMatcher(Machine(st1, m.stack), id)
  {
    hide Run, Closed, Acyclic, RankOf;
    OneStep(j, m, Literal(text));
  }

  lemma {:induction false} CompileRef(j: Job, m: Machine, name: string) returns (st1: Store, id: nat)
    requires Sane(j, m.st) && Fits(j, Ref(name)) && Pre(j, m, [Reference(name)])
    ensures Steady(j, m.st, st1) && SameOn(m.st, st1, 0, |m.st.nodes|)
    ensures id < |st1.nodes| && RepIn(j, m.st, st1, Ref(name), id) && !st1.nodes[id].Choice?
    ensures Run(j, m, [Reference(name)]) == AddMatcher(Machine(st1, m.stack), id)
    decreases Rest(j, m.st), j.level, 1, -1
  {
    OneStep(j, m, Reference(name));
    assert name !in TokenRule(j.rule).params;
    assert name in Names(EnvOf(j.gr)) by {
      ReferenceIsNamed(EnvOf(j.gr), TokenRule(j.rule), [Reference(name)]);
      assert Reference(name) in [Reference(name)];
      assert name in ReferencesIn([Reference(name)]);
    }
    assert Rest(j, m.st) + ({name} - m.st.cache.Keys) == Rest(j, m.st);
    st1, id := CompileRule(j, m.st, name, []);
  }

  lemma {:induction false} CompileGroup(j: Job, m: Machine, items: seq<Elem>) returns (st1: Store, id: nat)
    requires Sane(j, m.st) && FitsAll(j, items)
    requires Pre(j, m, Print(j.rule.param, Group(items)))
    ensures Steady(j, m.st, st1) && SameOn(m.st, st1, 0, |m.st.nodes|)
    ensures id < |st1.nodes| && RepIn(j, m.st, st1, Group(items), id) && !st1.nodes[id].Choice?
    ensures Run(j, m, Print(j.rule.param, Group(items))) == AddMatcher(Machine(st1, m.stack), id)
    decreases Rest(j, m.st), j.level, 1 + SizeAll(items), 1
  {
    hide Run, Pre, RunPre, StepF, RunF, GoodStore, GoodStack, Ready, NewBuilt, Grows, Extends, Sane;
    var body, close := PrintAll(j.rule.param, items), [Op(')')];
    assert Print(j.rule.param, Group(items)) == [Op('(')] + (body + close);
    PreGood(j, m, [Op('(')] + (body + close));
    var m1 := StepOpen(j, m, Op('('), body + close);
    PreNext(j, m1, body, close);
    var m2, ids := CompileAll(j, m1, items);
    RunAppend(j, m1, body, close);
    StepClose(j, m2, m.stack);
    st1, id := m2.st, Top(m1);
    AppendedSame(m1.st, st1, id, ids, 0, |m.st.nodes|);
    SameOnTrans(m.st, m1.st, st1, 0, |m.st.nodes|);
    SteadyGroup(j, m.st, m1.st, st1, id, ids);
    RepWiden(j, m.st, m1.st, st1, items, ids);
    assert st1.nodes[id].children == ids by { assert ChildrenOf(m1.st.nodes[id]) == []; }
  }

  /** A freshly opened list may be filled without upsetting what was built meanwhile. */
  lemma SteadyGroup(j: Job, a: Store, b: Store, c: Store, id: nat, ids: seq<nat>)
    requires Steady(j, a, b) && Steady(j, b, c) && Appended(b, c, id, ids)
    requires b.cache == a.cache && |b.nodes| == |a.nodes| + 1
    ensures Steady(j, a, c)
  {
    forall n | n in c.cache && n !in a.cache ensures BuiltIn(j.gr, j.rk, c, n, |a.nodes|, |c.nodes|) {
      BuiltFrame(j.gr, j.rk, c, c, n, |b.nodes|, |c.nodes|, |a.nodes|, |c.nodes|);
    }
  }

  lemma {:induction false} CompileCall(j: Job, m: Machine, fn: string, args: seq<Elem>) returns (st1: Store, id: nat)
    requires Sane(j, m.st) && Fits(j, Call(fn, args))
    requires Pre(j, m, Print(j.rule.param, Call(fn, args)))
    ensures Steady(j, m.st, st1) && SameOn(m.st, st1, 0, |m.st.nodes|)
    ensures id < |st1.nodes| && RepIn(j, m.st, st1, Call(fn, args), id) && !st1.nodes[id].Choice?
    ensures Run(j, m, Print(j.rule.param, Call(fn, args))) == AddMatcher(Machine(st1, m.stack), id)
    decreases Rest(j, m.st), j.level, 1 + SizeAll(args), 1
  {
    hide Run, Pre, RunPre, StepF, RunF, GoodStore, GoodStack, NewBuilt, Acyclic, CallParameter, RankOf, Ready;
    hide Grows, Sane, Rep;
    hide Print;
    var m2, st3, p := CompileArguments(j, m, fn, args);
    StepCloseCall(j, m2, m.stack, fn, st3, p);
    RestShrinks(j, m.st, st3);
    ArgumentIsNoChoice(j, m.st, st3, fn, args, p);
    st1, id := CompileRule(j, st3, fn, [p]);
    SteadyTrans(j, m.st, st3, st1);
    SameOnTrans(m.st, st3, st1, 0, |m.st.nodes|);
    RepCall(j, m.st, st3, st1, fn, args, p, id);
  }

  /** A call up to its closing bracket: the arguments are compiled into the open list, and make up the
      parameter. */
  lemma {:induction false} CompileArguments(j: Job, m: Machine, fn: string, args: seq<Elem>)
    returns (m2: Machine, st3: Store, p: nat)
    requires Sane(j, m.st) && FitsAll(j, args)
    requires Pre(j, m, Print(j.rule.param, Call(fn, args)))
    ensures Pre(j, m2, [Op(')')]) && Run(j, m, Print(j.rule.param, Call(fn, args))) == Run(j, m2, [Op(')')])
    ensures 0 < |m.stack| && |m2.stack| == |m.stack| + 1 && m2.stack[..|m.stack|] == m.stack &&
            m2.stack[|m.stack|].fn == fn
    ensures Top(m2) < |m2.st.nodes| && m2.st.nodes[Top(m2)].List? && (st3, p) == CallParameter(m2.st, Top(m2))
    ensures Steady(j, m.st, st3) && SameOn(m.st, st3, 0, |m.st.nodes|) && p < |st3.nodes|
    ensures RepArg(j.gr, j.rk, st3, |m.st.nodes|, |st3.nodes|, j.level, ParamId(j), args, p)
    decreases Rest(j, m.st), j.level, 1 + SizeAll(args), 0
  {
    hide Run, Pre, RunPre, StepF, RunF, GoodStore, GoodStack, NewBuilt, Acyclic, CallParameter, RankOf, Ready;
    hide Grows, Extends, Sane, Rep;
    var body, close := PrintAll(j.rule.param, args), [Op(')')];
    assert Print(j.rule.param, Call(fn, args)) == [FunctionCall(fn)] + (body + close);
    PreGood(j, m, [FunctionCall(fn)] + (body + close));
    var m1 := StepOpen(j, m, FunctionCall(fn), body + close);
    PreNext(j, m1, body, close);
    var ids;
    m2, ids := CompileAll(j, m1, args);
    RunAppend(j, m1, body, close);
    var open := Top(m1);
    AppendedSame(m1.st, m2.st, open, ids, 0, |m.st.nodes|);
    SameOnTrans(m.st, m1.st, m2.st, 0, |m.st.nodes|);
    SteadyGroup(j, m.st, m1.st, m2.st, open, ids);
    assert m2.st.nodes[open].children == ids by { assert ChildrenOf(m1.st.nodes[open]) == []; }
    st3, p := CompileParameter(j, m.st, m1.st, m2.st, open, args, ids);
  }

  /** A rule that must not be handed a choice is not. */
  lemma ArgumentIsNoChoice(j: Job, a: Store, c: Store, fn: string, args: seq<Elem>, p: nat)
    requires Sane(j, c) && Fits(j, Call(fn, args)) && Lower(fn) in j.gr.rules
    requires RepArg(j.gr, j.rk, c, |a.nodes|, |c.nodes|, j.level, ParamId(j), args, p)
    ensures p < |c.nodes| && (Lower(fn) in j.use.firm ==> !c.nodes[p].Choice?)
  {
    hide Rep;
    if Lower(fn) in j.use.firm && |args| == 1 {
      RepIsNoChoice(j, a, c, args[0], p);
    }
    if |args| == 1 { RepExists(j, a, c, args[0], p); }
  }

  lemma RepExists(j: Job, a: Store, c: Store, e: Elem, id: nat)
    ensures RepIn(j, a, c, e, id) ==> id < |c.nodes|
  {
  }

  lemma RepCall(j: Job, a: Store, b: Store, c: Store, fn: string, args: seq<Elem>, p: nat, id: nat)
    requires Steady(j, a, b) && Steady(j, b, c) && SameOn(b, c, 0, |b.nodes|) && RankOf(j.rk, fn) < j.level
    requires RepArg(j.gr, j.rk, b, |a.nodes|, |b.nodes|, j.level, ParamId(j), args, p)
    requires Lower(fn) in j.gr.rules && BodyBuilt(j, b, c, fn, p, id)
    ensures RepIn(j, a, c, Call(fn, args), id)
  {
    RepArgFrame(j.gr, j.rk, b, c, |a.nodes|, |b.nodes|, |a.nodes|, |c.nodes|, j.level, ParamId(j), args, p);
    RepAllFrame(j.gr, j.rk, c, c, |b.nodes|, |c.nodes|, |a.nodes|, |c.nodes|, RankOf(j.rk, fn), Some(p),
                j.gr.rules[Lower(fn)].body, c.nodes[id].children);
  }

  /** Matcher id is the body of the parameterised rule fn, built since b with parameter p. */
  ghost predicate BodyBuilt(j: Job, b: Store, c: Store, fn: string, p: nat, id: nat)
    requires Lower(fn) in j.gr.rules
  {
    |b.nodes| <= id < |c.nodes| && c.nodes[id].List? && c.nodes[id].name == fn &&
    c.nodes[id].suppress == (fn in j.gr.silent) &&
    RepAll(j.gr, j.rk, c, |b.nodes|, |c.nodes|, RankOf(j.rk, fn), Some(p), j.gr.rules[Lower(fn)].body,
           c.nodes[id].children)
  }

  /** The parameter handed to a call, out of the arguments compiled into the open list. */
  lemma CompileParameter(j: Job, a: Store, b: Store, c: Store, open: nat, args: seq<Elem>, ids: seq<nat>)
    returns (st3: Store, p: nat)
    requires Steady(j, a, c) && SameOn(a, c, 0, |a.nodes|)
    requires open == |a.nodes| && |b.nodes| == |a.nodes| + 1 && |b.nodes| <= |c.nodes|
    requires c.nodes[open].List? && c.nodes[open].children == ids && RepAllIn(j, b, c, args, ids)
    ensures (st3, p) == CallParameter(c, open)
    ensures Steady(j, a, st3) && SameOn(a, st3, 0, |a.nodes|) && p < |st3.nodes|
    ensures RepArg(j.gr, j.rk, st3, |a.nodes|, |st3.nodes|, j.level, ParamId(j), args, p)
  {
    CallParameterGood(EnvOf(j.gr), c, open);
    var r := CallParameter(c, open);
    st3, p := r.0, r.1;
    SameCacheSteady(j, c, st3);
    SteadyTrans(j, a, c, st3);
    RepAllFrame(j.gr, j.rk, c, st3, |b.nodes|, |c.nodes|, |a.nodes|, |st3.nodes|, j.level, ParamId(j), args, ids);
  }

  /** Any element, inside an open list: the list gains one matcher that stands for the element. */
  lemma {:induction false} CompileElem(j: Job, m: Machine, e: Elem) returns (m': Machine, id: nat)
    requires Sane(j, m.st) && Fits(j, e)
    requires Pre(j, m, Print(j.rule.param, e)) && m.st.nodes[Top(m)].List?
    ensures Run(j, m, Print(j.rule.param, e)) == Done(m') && m'.stack == m.stack
    ensures Steady(j, m.st, m'.st) && Appended(m.st, m'.st, Top(m), [id])
    ensures id < |m'.st.nodes| && RepIn(j, m.st, m'.st, e, id)
    decreases Rest(j, m.st), j.level, Size(e), 1
  {
    hide Run, Pre, RunPre, StepF, RunF, GoodStore, GoodStack, Ready, NewBuilt, Grows, Extends, Sane, Rep;
    hide Steady, AddMatcher;
    match e
    case Opt(elem) => m', id := CompilePostfix(j, m, e, elem, '?');
    case Star(elem) => m', id := CompilePostfix(j, m, e, elem, '*');
    case Plus(elem) => m', id := CompilePostfix(j, m, e, elem, '+');
    case Alt(first, rest) => m', id := CompileAlt(j, m, first, rest);
    case _ =>
      var st1;
      st1, id := CompileAtom(j, m, e);
      m' := AddBuilt(j, m, st1, e, id, Print(j.rule.param, e));
  }

  lemma {:induction false} CompilePostfix(j: Job, m: Machine, e: Elem, elem: Elem, op: char)
    returns (m': Machine, id: nat)
    requires (op == '?' && e == Opt(elem)) || (op == '*' && e == Star(elem)) || (op == '+' && e == Plus(elem))
    requires Sane(j, m.st) && Fits(j, e)
    requires Pre(j, m, Print(j.rule.param, e)) && m.st.nodes[Top(m)].List?
    ensures Run(j, m, Print(j.rule.param, e)) == Done(m') && m'.stack == m.stack
    ensures Steady(j, m.st, m'.st) && Appended(m.st, m'.st, Top(m), [id])
    ensures id < |m'.st.nodes| && RepIn(j, m.st, m'.st, e, id) && !m'.st.nodes[id].Choice?
    decreases Rest(j, m.st), j.level, 1 + Size(elem), 0
  {
    hide Run, Pre, RunPre, StepF, RunF, GoodStore, GoodStack, Ready, NewBuilt, Grows, Extends, Sane;
    var body := Print(j.rule.param, elem);
    assert Print(j.rule.param, e) == body + [Op(op)];
    PreGood(j, m, body + [Op(op)]);
    PreNext(j, m, body, [Op(op)]);
    var m1, x := CompileElem(j, m, elem);
    RunAppend(j, m, body, [Op(op)]);
    m', id := StepPostfix(j, m, m1, op, x);
    RepMove(j, m.st, m1.st, m'.st, elem, x);
    SteadyTrans(j, m.st, m1.st, m'.st);
  }

  /** The postfix operator wraps the matcher just added to the open list. */
  lemma StepPostfix(j: Job, m: Machine, m1: Machine, op: char, x: nat) returns (m': Machine, id: nat)
    requires op == '?' || op == '*' || op == '+'
    requires |m.stack| > 0 && m1.stack == m.stack && Appended(m.st, m1.st, Top(m), [x]) && m.st.nodes[Top(m)].List?
    requires Sane(j, m1.st) && Pre(j, m1, [Op(op)])
    ensures Run(j, m1, [Op(op)]) == Done(m') && m'.stack == m.stack
    ensures Steady(j, m1.st, m'.st) && Appended(m.st, m'.st, Top(m), [id])
    ensures SameOn(m1.st, m'.st, |m.st.nodes|, |m1.st.nodes|)
    ensures |m1.st.nodes| <= id < |m'.st.nodes|
    ensures op == '?' ==> m'.st.nodes[id] == Optional(x)
    ensures op == '+' ==> m'.st.nodes[id] == Repeat(x)
    ensures op == '*' ==> |m1.st.nodes| < id && m'.st.nodes[id] == Optional(id - 1) && m'.st.nodes[id - 1] == Repeat(x)
  {
    hide Run, Pre, RunPre, RunF, Rep, RankOf, Closed, GoodStore, GoodStack, Grows, Extends, Ready, NewBuilt, Sane;
    PreGood(j, m1, [Op(op)]);
    StepOperator(j, m1, op);
    PostfixGood(EnvOf(j.gr), m1, op);
    var children := m1.st.nodes[Top(m)].children;
    assert ChildrenOf(m1.st.nodes[Top(m)]) == children == m.st.nodes[Top(m)].children + [x];
    assert children[..|children| - 1] == m.st.nodes[Top(m)].children && children[|children| - 1] == x;
    m' := Postfix(m1, op).value;
    id := |m'.st.nodes| - 1;
    SameCacheSteady(j, m1.st, m'.st);
  }

  lemma {:induction false} CompileAlt(j: Job, m: Machine, first: Elem, rest: seq<Elem>) returns (m': Machine, id: nat)
    requires Sane(j, m.st) && Fits(j, Alt(first, rest))
    requires Pre(j, m, Print(j.rule.param, Alt(first, rest))) && m.st.nodes[Top(m)].List?
    ensures Run(j, m, Print(j.rule.param, Alt(first, rest))) == Done(m') && m'.stack == m.stack
    ensures Steady(j, m.st, m'.st) && Appended(m.st, m'.st, Top(m), [id])
    ensures id < |m'.st.nodes| && RepIn(j, m.st, m'.st, Alt(first, rest), id)
    decreases Rest(j, m.st), j.level, 1 + Size(first) + SizeAll(rest), 0
  {
    hide Run, Pre, RunPre, StepF, RunF, GoodStore, GoodStack, Ready, NewBuilt, Grows, Sane, Rep, RankOf, AddMatcher;
    hide Fits, FitsAll, Print, PrintAlts;
    FitsAlt(j, first, rest);
    AltTokens(j.rule.param, first, rest);
    var next := Print(j.rule.param, rest[0]) + PrintAlts(j.rule.param, rest[1..]);
    var body, alts := Print(j.rule.param, first), [Op('/')] + next;
    PreGood(j, m, body + alts);
    PreNext(j, m, body, alts);
    var m1, x := CompileElem(j, m, first);
    RunAppend(j, m, body, alts);
    RepIsNoChoice(j, m.st, m1.st, first, x);
    var m2 := StepNewChoice(j, m, m1, x, next);
    id := |m1.st.nodes|;
    SteadyTrans(j, m.st, m1.st, m2.st);
    RestShrinks(j, m.st, m2.st);
    var ids;
    m', ids := CompileAlts(j, m2, m.stack, rest);
    AppendedSame(m2.st, m'.st, id, ids, |m.st.nodes|, |m1.st.nodes|);
    SameOnTrans(m1.st, m2.st, m'.st, |m.st.nodes|, |m1.st.nodes|);
    SteadyAlt(j, m.st, m1.st, m2.st, m'.st, id, ids);
    RepMove(j, m.st, m1.st, m'.st, first, x);
    assert ChildrenOf(m2.st.nodes[id]) == [x] && ChildrenOf(m'.st.nodes[id]) == [x] + ids;
    RepWiden(j, m.st, m2.st, m'.st, rest, ids);
    RepAlt(j, m.st, m'.st, first, rest, x, ids, id);
  }

  lemma FitsAlt(j: Job, first: Elem, rest: seq<Elem>)
    requires Fits(j, Alt(first, rest))
    ensures Fits(j, first) && NoChoice(j.own, first) && FitsAll(j, rest) && rest != []
    ensures forall k :: 0 <= k < |rest| ==> Atom(rest[k])
  {
    hide WfAll, FirmAll;
  }

  lemma AltTokens(param: Option<string>, first: Elem, rest: seq<Elem>)
    requires rest != []
    ensures Print(param, Alt(first, rest)) ==
            Print(param, first) + ([Op('/')] + (Print(param, rest[0]) + PrintAlts(param, rest[1..])))
  {
    var alts := PrintAlts(param, rest);
    assert Print(param, Alt(first, rest)) == Print(param, first) + alts;
    hide Print;
  }

  lemma FitsCons(j: Job, es: seq<Elem>)
    ensures FitsAll(j, es) && es != [] ==> Fits(j, es[0]) && FitsAll(j, es[1..])
  {
  }

  lemma RepAlt(j: Job, a: Store, c: Store, first: Elem, rest: seq<Elem>, x: nat, ids: seq<nat>, id: nat)
    requires RepIn(j, a, c, first, x) && RepAllIn(j, a, c, rest, ids)
    requires |a.nodes| <= id < |c.nodes| && c.nodes[id].Choice? && c.nodes[id].children == [x] + ids
    ensures RepIn(j, a, c, Alt(first, rest), id)
  {
    assert c.nodes[id].children[1..] == ids;
  }

  /** Filling a freshly opened choice keeps everything built before and since. */
  lemma SteadyAlt(j: Job, a: Store, b: Store, c: Store, d: Store, id: nat, ids: seq<nat>)
    requires Steady(j, a, b) && Steady(j, b, c) && Steady(j, c, d) && Appended(c, d, id, ids)
    requires c.cache == b.cache && id == |b.nodes| && |c.nodes| == id + 1 && SameOn(b, c, |a.nodes|, |b.nodes|)
    ensures Steady(j, b, d) && Steady(j, a, d)
  {
    SteadyGroup(j, b, c, d, id, ids);
    AppendedSame(c, d, id, ids, |a.nodes|, |b.nodes|);
    SameOnTrans(b, c, d, |a.nodes|, |b.nodes|);
    SteadyTrans(j, a, b, d);
  }

  /** `/` after an element that is not a choice opens a fresh choice over it. */
  lemma StepNewChoice(j: Job, m: Machine, m1: Machine, x: nat, next: seq<PegToken>) returns (m2: Machine)
    requires |m.stack| > 0 && m1.stack == m.stack && Appended(m.st, m1.st, Top(m), [x]) && m.st.nodes[Top(m)].List?
    requires x < |m1.st.nodes| && !m1.st.nodes[x].Choice?
    requires Sane(j, m1.st) && Pre(j, m1, [Op('/')] + next)
    ensures Pre(j, m2, next) && Run(j, m1, [Op('/')] + next) == Run(j, m2, next)
    ensures m2.stack == m.stack + [Entry(|m1.st.nodes|, "")] && Steady(j, m1.st, m2.st) && m2.st.cache == m1.st.cache
    ensures |m2.st.nodes| == |m1.st.nodes| + 1 && m2.st.nodes[|m1.st.nodes|] == Choice([x])
    ensures Appended(m.st, m2.st, Top(m), [|m1.st.nodes|]) && SameOn(m1.st, m2.st, |m.st.nodes|, |m1.st.nodes|)
  {
    hide Run, Pre, RunPre, RunF, Rep, RankOf, GoodStack, Grows, Extends, Ready, NewBuilt, Sane;
    PreGood(j, m1, [Op('/')] + next);
    PreNext(j, m1, [Op('/')], next);
    StepOperator(j, m1, '/');
    OrOperatorGood(EnvOf(j.gr), m1);
    var children := m1.st.nodes[Top(m)].children;
    assert ChildrenOf(m1.st.nodes[Top(m)]) == children == m.st.nodes[Top(m)].children + [x];
    assert children[..|children| - 1] == m.st.nodes[Top(m)].children && children[|children| - 1] == x;
    m2 := OrOperator(m1).value;
    RunAppend(j, m1, [Op('/')], next);
    SameCacheSteady(j, m1.st, m2.st);
  }

  /** `/` after a choice reopens it. */
  lemma StepReopen(j: Job, m: Machine, choice: nat, next: seq<PegToken>) returns (m2: Machine)
    requires Pre(j, m, [Op('/')] + next) && |m.stack| > 0 && Top(m) < |m.st.nodes| && m.st.nodes[Top(m)].List?
    requires var cs := m.st.nodes[Top(m)].children; |cs| > 0 && cs[|cs| - 1] == choice
    requires choice < |m.st.nodes| && m.st.nodes[choice].Choice?
    ensures m2 == m.(stack := m.stack + [Entry(choice, "")])
    ensures Pre(j, m2, next) && Run(j, m, [Op('/')] + next) == Run(j, m2, next)
  {
    hide Run, Pre, RunPre, RunF, StepF, GoodStack, GoodStore, Closed;
    PreGood(j, m, [Op('/')] + next);
    PreNext(j, m, [Op('/')], next);
    StepOperator(j, m, '/');
    m2 := m.(stack := m.stack + [Entry(choice, "")]);
    RunAppend(j, m, [Op('/')], next);
  }

  /** With the choice open on top, the alternatives after the first `/` are appended to it. */
  lemma {:induction false} CompileAlts(j: Job, m: Machine, stack: seq<Entry>, es: seq<Elem>)
    returns (m': Machine, ids: seq<nat>)
    requires Sane(j, m.st) && FitsAll(j, es) && es != [] && forall k :: 0 <= k < |es| ==> Atom(es[k])
    requires |stack| > 0 && |m.stack| == |stack| + 1 && m.stack[..|stack|] == stack && m.stack[|stack|].fn == ""
    requires Pre(j, m, Print(j.rule.param, es[0]) + PrintAlts(j.rule.param, es[1..]))
    requires Top(m) < |m.st.nodes| && m.st.nodes[Top(m)].Choice?
    requires stack[|stack| - 1].id < |m.st.nodes| && m.st.nodes[stack[|stack| - 1].id].List?
    requires var cs := m.st.nodes[stack[|stack| - 1].id].children; |cs| > 0 && cs[|cs| - 1] == Top(m)
    ensures Run(j, m, Print(j.rule.param, es[0]) + PrintAlts(j.rule.param, es[1..])) == Done(m') && m'.stack == stack
    ensures Steady(j, m.st, m'.st) && Appended(m.st, m'.st, Top(m), ids)
    ensures RepAllIn(j, m.st, m'.st, es, ids)
    decreases Rest(j, m.st), j.level, SizeAll(es), 0
  {
    hide Run, Pre, RunPre, StepF, RunF, GoodStore, GoodStack, Ready, NewBuilt, Grows, Sane, Rep, AddMatcher;
    hide RankOf, Print, Fits, FitsAll;
    FitsCons(j, es);
    var next, alts := Print(j.rule.param, es[0]), PrintAlts(j.rule.param, es[1..]);
    PreNext(j, m, next, alts);
    var st1, id := CompileAtom(j, m, es[0]);
    var m1 := AddBuilt(j, m, st1, es[0], id, next);
    RunAppend(j, m, next, alts);
    if es[1..] == [] {
      m', ids := m1, [id];
      assert es == [es[0]];
      EmptyRun(j, m1);
    } else {
      var rest := Print(j.rule.param, es[1..][0]) + PrintAlts(j.rule.param, es[1..][1..]);
      assert alts == [Op('/')] + rest;
      var m2 := StepReopen(j, m1, Top(m), rest);
      RestShrinks(j, m.st, m2.st);
      assert m2.stack[..|stack|] == stack;
      var more;
      m', more := CompileAlts(j, m2, stack, es[1..]);
      ids := [id] + more;
      Joined(j, m.st, m1.st, m'.st, Top(m), es, id, more);
    }
  }

  /** The first element and the others, appended one after the other. */
  lemma Joined(j: Job, a: Store, b: Store, c: Store, top: nat, es: seq<Elem>, id: nat, more: seq<nat>)
    requires Steady(j, a, b) && Steady(j, b, c) && Appended(a, b, top, [id]) && Appended(b, c, top, more)
    requires es != [] && RepIn(j, a, b, es[0], id) && RepAllIn(j, b, c, es[1..], more)
    ensures Steady(j, a, c) && Appended(a, c, top, [id] + more) && RepAllIn(j, a, c, es, [id] + more)
  {
    hide Ready, NewBuilt, Grows, Sane, Rep, RankOf;
    AppendedTwice(a, b, c, top, [id], more);
    AppendedSame(b, c, top, more, |a.nodes|, |b.nodes|);
    SteadyTrans(j, a, b, c);
    RepMove(j, a, b, c, es[0], id);
    RepWiden(j, a, b, c, es[1..], more);
    RepCons(j, a, c, es, id, more);
  }

  lemma EmptyRun(j: Job, m: Machine)
    requires Pre(j, m, [])
    ensures Run(j, m, []) == Done(m)
  {
  }

  /** A sequence of elements inside an open list. */
  lemma {:induction false} CompileAll(j: Job, m: Machine, es: seq<Elem>) returns (m': Machine, ids: seq<nat>)
    requires Sane(j, m.st) && FitsAll(j, es)
    requires Pre(j, m, PrintAll(j.rule.param, es)) && m.st.nodes[Top(m)].List?
    ensures Run(j, m, PrintAll(j.rule.param, es)) == Done(m') && m'.stack == m.stack
    ensures Steady(j, m.st, m'.st) && Appended(m.st, m'.st, Top(m), ids)
    ensures RepAllIn(j, m.st, m'.st, es, ids)
    decreases Rest(j, m.st), j.level, SizeAll(es), 0
  {
    if es == [] {
      m', ids := m, [];
    } else {
      m', ids := CompileCons(j, m, es);
    }
  }

  lemma {:induction false} CompileCons(j: Job, m: Machine, es: seq<Elem>) returns (m': Machine, ids: seq<nat>)
    requires Sane(j, m.st) && FitsAll(j, es) && es != []
    requires Pre(j, m, PrintAll(j.rule.param, es)) && m.st.nodes[Top(m)].List?
    ensures Run(j, m, PrintAll(j.rule.param, es)) == Done(m') && m'.stack == m.stack
    ensures Steady(j, m.st, m'.st) && Appended(m.st, m'.st, Top(m), ids)
    ensures RepAllIn(j, m.st, m'.st, es, ids)
    decreases Rest(j, m.st), j.level, SizeAll(es), -1
  {
    hide Run, Pre, RunPre, StepF, RunF, GoodStore, GoodStack, Ready, NewBuilt, Grows, Sane, Rep, RankOf;
    var a, b := Print(j.rule.param, es[0]), PrintAll(j.rule.param, es[1..]);
    PreGood(j, m, a + b);
    PreNext(j, m, a, b);
    var m1, id := CompileElem(j, m, es[0]);
    RunAppend(j, m, a, b);
    RestShrinks(j, m.st, m1.st);
    var more;
    m', more := CompileAll(j, m1, es[1..]);
    ids := [id] + more;
    Joined(j, m.st, m1.st, m'.st, Top(m), es, id, more);
  }

  /** Creating a rule, plain or with a parameter: every rule cached on the way is fully built. */
  lemma {:induction false} CompileRule(j: Job, st: Store, name: string, args: seq<nat>) returns (st': Store, id: nat)
    requires Sane(j, st) && Acyclic(EnvOf(j.gr), j.rk) && |args| <= 1 && Ids(st.nodes, args)
    requires args == [] ==> name in j.gr.builtins || (Lower(name) in j.gr.rules && j.gr.rules[Lower(name)].param.None?)
    requires args != [] ==> Lower(name) in j.gr.rules && j.gr.rules[Lower(name)].param.Some? &&
                            Lower(name) in j.use.live
    requires Starts(j.gr, j.use, name)
    requires args != [] && Lower(name) in j.use.firm ==> !st.nodes[args[0]].Choice?
    ensures CreateF(EnvOf(j.gr), j.rk, st, name, args) == Done((st', id))
    ensures Steady(j, st, st') && SameOn(st, st', 0, |st.nodes|) && id < |st'.nodes| && !st'.nodes[id].Choice?
    ensures args == [] ==> name in st'.cache && st'.cache[name] == id
    ensures args != [] ==> BodyBuilt(j, st, st', name, args[0], id)
    decreases if args == [] then Uncached(EnvOf(j.gr), st) + ({name} - st.cache.Keys) else Uncached(EnvOf(j.gr), st),
              if args == [] then 0 else RankOf(j.rk, name),
              if args == [] then 0 else 3 + SizeAll(j.gr.rules[Lower(name)].body), 0
  {
    if args == [] && name in st.cache {
      st', id := st, st.cache[name];
    } else {
      st', id := CompileNewRule(j, st, name, args);
    }
  }

  lemma {:induction false} CompileNewRule(j: Job, st: Store, name: string, args: seq<nat>) returns (st': Store, id: nat)
    requires Sane(j, st) && GoodStore(EnvOf(j.gr), st) && Acyclic(EnvOf(j.gr), j.rk) && |args| <= 1 &&
             Ids(st.nodes, args)
    requires Lower(name) in j.gr.rules && j.gr.rules[Lower(name)].param.None? == (args == []) &&
             (args == [] ==> name !in st.cache) && Lower(name) in j.use.live
    requires args != [] && Lower(name) in j.use.firm ==> !st.nodes[args[0]].Choice?
    ensures CreateF(EnvOf(j.gr), j.rk, st, name, args) == Done((st', id))
    ensures Steady(j, st, st') && SameOn(st, st', 0, |st.nodes|) && id == |st.nodes| < |st'.nodes| &&
            st'.nodes[id].List?
    ensures args == [] ==> name in st'.cache && st'.cache[name] == id
    ensures args != [] ==> BodyBuilt(j, st, st', name, args[0], id)
    decreases if args == [] then Uncached(EnvOf(j.gr), st) + ({name} - st.cache.Keys) else Uncached(EnvOf(j.gr), st),
              if args == [] then 0 else RankOf(j.rk, name),
              if args == [] then 0 else 3 + SizeAll(j.gr.rules[Lower(name)].body), -1
  {
    hide RunF, StepF, Rep, NewBuilt, Ready, Acyclic, Closed, GoodStore, GoodStack, RankOf, Grows, Extends, Sane, RunPre;
    var env, rule := EnvOf(j.gr), j.gr.rules[Lower(name)];
    var st1 := StartRule(env, st, name, args);
    id := |st.nodes|;
    var inner := Job(j.gr, j.rk, rule, args, LevelOf(j.rk, name, TokenRule(rule)), j.use, Lower(name) in j.use.firm);
    var m := Machine(st1, [Entry(id, "")]);
    InnerSane(j, inner, st);
    StartReady(inner, st, st1, name);
    assert args == [] ==> Uncached(env, st1) < Uncached(env, st) + ({name} - st.cache.Keys) by {
      if args == [] { assert name in Uncached(env, st) + ({name} - st.cache.Keys) && name !in Uncached(env, st1); }
    }
    assert args != [] ==> Uncached(env, st1) == Uncached(env, st);
    var m2, ids := CompileAll(inner, m, rule.body);
    st' := FinishRule(inner, st, st1, m2.st, name, ids);
    SteadySame(inner, j, st, st');
    CreateUnfolds(inner, st, name, m2);
  }

  lemma SteadySame(j: Job, j': Job, st: Store, st': Store)
    requires j'.gr == j.gr && j'.rk == j.rk && j'.use == j.use && Steady(j, st, st') && Sane(j', st)
    ensures Steady(j', st, st')
  {
  }

  /** The rule's list gets its name once its body is complete. */
  ghost function Named(gr: Grammar, st: Store, id: nat, name: string): Store
    requires id < |st.nodes| && st.nodes[id].List?
  {
    st.(nodes := st.nodes[id := st.nodes[id].(name := name, suppress := name in gr.silent)])
  }

  lemma CreateUnfolds(j: Job, st: Store, name: string, m2: Machine)
    requires Acyclic(EnvOf(j.gr), j.rk) && GoodStore(EnvOf(j.gr), st) && |j.args| <= 1 && Ids(st.nodes, j.args)
    requires Lower(name) in j.gr.rules && j.rule == j.gr.rules[Lower(name)] && j.rule.param.None? == (j.args == [])
    requires j.args == [] ==> name !in st.cache
    requires j.level == LevelOf(j.rk, name, TokenRule(j.rule))
    requires var m := Machine(StartRule(EnvOf(j.gr), st, name, j.args), [Entry(|st.nodes|, "")]);
             Pre(j, m, PrintAll(j.rule.param, j.rule.body)) &&
             Run(j, m, PrintAll(j.rule.param, j.rule.body)) == Done(m2) && m2.stack == m.stack
    ensures |st.nodes| < |m2.st.nodes| && m2.st.nodes[|st.nodes|].List?
    ensures CreateF(EnvOf(j.gr), j.rk, st, name, j.args) == Done((Named(j.gr, m2.st, |st.nodes|, name), |st.nodes|))
  {
    hide RunF, StepF, RunPre, Acyclic;
    assert EnvOf(j.gr).rules[Lower(name)] == TokenRule(j.rule);
  }

  lemma FinishRule(j: Job, st: Store, st1: Store, st2: Store, name: string, ids: seq<nat>) returns (st': Store)
    requires Sane(j, st) && GoodStore(EnvOf(j.gr), st) && |j.args| <= 1
    requires Lower(name) in j.gr.rules && j.rule == j.gr.rules[Lower(name)] && j.rule.param.None? == (j.args == [])
    requires j.args == [] ==> name !in st.cache
    requires j.level == LevelOf(j.rk, name, TokenRule(j.rule)) && st1 == StartRule(EnvOf(j.gr), st, name, j.args)
    requires Steady(j, st1, st2) && Appended(st1, st2, |st.nodes|, ids) && RepAllIn(j, st1, st2, j.rule.body, ids)
    ensures st2.nodes[|st.nodes|].List? && st' == Named(j.gr, st2, |st.nodes|, name)
    ensures Steady(j, st, st') && SameOn(st, st', 0, |st.nodes|)
    ensures j.args == [] ==> name in st'.cache && st'.cache[name] == |st.nodes|
    ensures j.args != [] ==> BodyBuilt(j, st, st', name, j.args[0], |st.nodes|)
  {
    hide Rep, NewBuilt, Closed, RankOf, GoodStore, Ready, Sane, Acyclic;
    var id := |st.nodes|;
    st' := Named(j.gr, st2, id, name);
    assert st2.nodes[id].children == ids by { assert ChildrenOf(st1.nodes[id]) == []; }
    FinishStore(j, st, st1, st2, st', name);
    RepAllFrame(j.gr, j.rk, st2, st', |st1.nodes|, |st2.nodes|, |st.nodes|, |st'.nodes|, j.level, ParamId(j),
                j.rule.body, ids);
    RuleBuilt(j.gr, j.rk, st, st1, st2, st', name, j.args);
    SteadyIntro(j, st, st');
  }

  lemma SteadyIntro(j: Job, st: Store, st': Store)
    requires Sane(j, st) && GoodStore(EnvOf(j.gr), st') && Grows(st, st') && NewBuilt(j.gr, j.rk, st, st')
    ensures Steady(j, st, st')
  {
    ReadyAfter(j.gr, j.rk, st, st');
  }

  lemma FinishStore(j: Job, st: Store, st1: Store, st2: Store, st': Store, name: string)
    requires GoodStore(EnvOf(j.gr), st) && (j.args == [] ==> name !in st.cache) &&
             st1 == StartRule(EnvOf(j.gr), st, name, j.args)
    requires Steady(j, st1, st2) && st2.nodes[|st.nodes|].List? && st' == Named(j.gr, st2, |st.nodes|, name)
    ensures GoodStore(EnvOf(j.gr), st') && Grows(st, st') && Extends(st2, st') &&
            SameOn(st2, st', |st1.nodes|, |st2.nodes|)
  {
    FinishGood(EnvOf(j.gr), st2, |st.nodes|, name);
  }

  lemma InnerSane(j: Job, inner: Job, st: Store)
    requires Sane(j, st) && inner.gr == j.gr && inner.use == j.use && Ids(st.nodes, inner.args)
    requires inner.own && inner.args != [] ==> !st.nodes[inner.args[0]].Choice?
    ensures Sane(inner, st)
  {
  }

  lemma StartReady(j: Job, st: Store, st1: Store, name: string)
    requires Sane(j, st) && Acyclic(EnvOf(j.gr), j.rk) && |j.args| <= 1 && Ids(st.nodes, j.args)
    requires Lower(name) in j.gr.rules && j.rule == j.gr.rules[Lower(name)] && j.rule.param.None? == (j.args == [])
    requires Lower(name) in j.use.live && j.own == (Lower(name) in j.use.firm) && (j.args == [] ==> name !in st.cache)
    requires j.level == LevelOf(j.rk, name, TokenRule(j.rule)) && st1 == StartRule(EnvOf(j.gr), st, name, j.args)
    ensures FitsAll(j, j.rule.body)
    ensures Sane(j, st1) && Pre(j, Machine(st1, [Entry(|st.nodes|, "")]), PrintAll(j.rule.param, j.rule.body))
  {
    hide WfAll, FirmAll, RunPre, Acyclic, Closed;
    StartStack(st1, |st.nodes|);
    assert EnvOf(j.gr).rules[Lower(name)] == TokenRule(j.rule);
    StartPre(EnvOf(j.gr), j.rk, j.args, st1, |st.nodes|, name);
  }

  lemma StartStack(st: Store, root: nat)
    requires root < |st.nodes| && st.nodes[root].List?
    ensures GoodStack(st, [Entry(root, "")])
  {
  }

  lemma StartPre(env: Env, rk: Ranking, args: seq<nat>, st: Store, root: nat, name: string)
    requires Acyclic(env, rk) && GoodStore(env, st) && GoodStack(st, [Entry(root, "")]) && Ids(st.nodes, args)
    requires Lower(name) in env.rules && |args| == |env.rules[Lower(name)].params| <= 1
    ensures var rule := env.rules[Lower(name)];
            RunPre(env, rk, rule, args, LevelOf(rk, name, rule), Machine(st, [Entry(root, "")]), rule.tokens)
  {
    hide GoodStore, GoodStack, RankOf;
  }

  lemma RuleBuilt(gr: Grammar, rk: Ranking, st: Store, st1: Store, st2: Store, st': Store, name: string, args: seq<nat>)
    requires Extends(st, st1) && Extends(st1, st2) && |st1.nodes| == |st.nodes| + 1 && NewBuilt(gr, rk, st1, st2)
    requires |st'.nodes| == |st2.nodes| && st'.cache == st2.cache && SameOn(st2, st', |st1.nodes|, |st2.nodes|)
    requires forall n :: n in st1.cache && n !in st.cache ==> n == name && args == []
    requires args == [] ==> BuiltIn(gr, rk, st', name, |st.nodes|, |st'.nodes|)
    ensures NewBuilt(gr, rk, st, st')
  {
    forall n | n in st'.cache && n !in st.cache ensures BuiltIn(gr, rk, st', n, |st.nodes|, |st'.nodes|) {
      if n !in st1.cache {
        BuiltFrame(gr, rk, st2, st', n, |st1.nodes|, |st2.nodes|, |st.nodes|, |st'.nodes|);
      }
    }
  }

  // ----- main result -----

  /** The factory before any rule is created: the builtin names, each a leaf. */
  ghost predicate Initial(gr: Grammar, st: Store)
  {
    Ready(gr, st) && st.cache.Keys == gr.builtins
  }

  /** Rule n is cached, and complete: its list holds exactly the matchers its tree asks for. */
  ghost predicate Built(gr: Grammar, rk: Ranking, st: Store, n: string)
  {
    exists lo, hi :: BuiltIn(gr, rk, st, n, lo, hi)
  }

  /** A reference that occurs in an element, outside the bodies of the rules it calls. */
  predicate Mentions(e: Elem, name: string)
    decreases e, 1
  {
    match e
    case Ref(n) => n == name
    case Group(items) => MentionedIn(items, name)
    case Call(_, args) => MentionedIn(args, name)
    case Opt(elem) => Mentions(elem, name)
    case Star(elem) => Mentions(elem, name)
    case Plus(elem) => Mentions(elem, name)
    case Alt(first, rest) => Mentions(first, name) || MentionedIn(rest, name)
    case _ => false
  }

  predicate MentionedIn(es: seq<Elem>, name: string)
    decreases es, 0
  {
    exists k :: 0 <= k < |es| && Mentions(es[k], name)
  }

  /** Compiling the root of a well-formed grammar succeeds, leaves the old matchers alone, and on
      return every cached rule is a builtin or fully built - also the mutually recursive rules that
      were handed out while half filled - and every rule it refers to is cached too. */
  lemma CompileGrammar(gr: Grammar, rk: Ranking, st: Store, root: string) returns (st': Store, id: nat)
    requires WfGrammar(gr) && Sparing(gr, root) && Initial(gr, st) && Acyclic(EnvOf(gr), rk)
    requires root in gr.builtins || (Lower(root) in gr.rules && gr.rules[Lower(root)].param.None?)
    ensures CreateF(EnvOf(gr), rk, st, root, []) == Done((st', id))
    ensures root in st'.cache && st'.cache[root] == id && SameOn(st, st', 0, |st.nodes|)
    ensures forall n :: n in st'.cache ==> n in gr.builtins || Built(gr, rk, st', n)
    ensures forall n :: n in st'.cache ==> n in gr.builtins || RefersToCached(gr, st', n)
  {
    hide Rep, RepAll, Acyclic, CreateF, GoodStore, Grows, Closed, Print, Names, Lower, WfElem, WfGrammar, RankOf;
    var use :| Starts(gr, use, root) && Firm(gr, use);
    var j := Job(gr, rk, RuleTree(None, []), [], 0, use, false);
    st', id := CompileRule(j, st, root, []);
    forall n | n in st'.cache && n !in gr.builtins ensures Built(gr, rk, st', n) && RefersToCached(gr, st', n) {
      assert BuiltIn(gr, rk, st', n, |st.nodes|, |st'.nodes|);
      BuiltRefersToCached(gr, rk, st', n, |st.nodes|, |st'.nodes|);
    }
  }

  /** Every rule that rule n refers to is cached. */
  ghost predicate RefersToCached(gr: Grammar, st: Store, n: string)
  {
    Lower(n) in gr.rules && forall name :: MentionedIn(gr.rules[Lower(n)].body, name) ==> name in st.cache
  }

  lemma BuiltRefersToCached(gr: Grammar, rk: Ranking, st: Store, n: string, lo: nat, hi: nat)
    requires BuiltIn(gr, rk, st, n, lo, hi)
    ensures RefersToCached(gr, st, n)
  {
    forall name | MentionedIn(gr.rules[Lower(n)].body, name) ensures name in st.cache {
      MentionsCached(gr, rk, st, lo, hi, rk.top, None, gr.rules[Lower(n)].body, st.nodes[st.cache[n]].children, name);
    }
  }

  lemma {:induction false} MentionsCached(gr: Grammar, rk: Ranking, st: Store, lo: nat, hi: nat, level: nat,
                                          param: Option<nat>, es: seq<Elem>, ids: seq<nat>, name: string)
    requires RepAll(gr, rk, st, lo, hi, level, param, es, ids) && MentionedIn(es, name)
    ensures name in st.cache
    decreases es, 0
  {
    var k :| 0 <= k < |es| && Mentions(es[k], name);
    MentionCached(gr, rk, st, lo, hi, level, param, es[k], ids[k], name);
  }

  lemma {:induction false} MentionCached(gr: Grammar, rk: Ranking, st: Store, lo: nat, hi: nat, level: nat,
                                         param: Option<nat>, e: Elem, id: nat, name: string)
    requires Rep(gr, rk, st, lo, hi, level, param, e, id) && Mentions(e, name)
    ensures name in st.cache
    decreases e, 1
  {
    match e
    case Group(items) => MentionsCached(gr, rk, st, lo, hi, level, param, items, st.nodes[id].children, name);
    case Call(fn, args) =>
      var p: nat :| RepArg(gr, rk, st, lo, hi, level, param, args, p) &&
               RepAll(gr, rk, st, lo, hi, RankOf(rk, fn), Some(p), gr.rules[Lower(fn)].body, st.nodes[id].children);
      if |args| == 1 {
        MentionCached(gr, rk, st, lo, hi, level, param, args[0], p, name);
      } else {
        MentionsCached(gr, rk, st, lo, hi, level, param, args, st.nodes[p].children, name);
      }
    case Opt(elem) => MentionCached(gr, rk, st, lo, hi, level, param, elem, st.nodes[id].child, name);
    case Star(elem) => MentionCached(gr, rk, st, lo, hi, level, param, elem, st.nodes[st.nodes[id].child].child, name);
    case Plus(elem) => MentionCached(gr, rk, st, lo, hi, level, param, elem, st.nodes[id].child, name);
    case Alt(first, rest) =>
      if Mentions(first, name) {
        MentionCached(gr, rk, st, lo, hi, level, param, first, st.nodes[id].children[0], name);
      } else {
        MentionsCached(gr, rk, st, lo, hi, level, param, rest, st.nodes[id].children[1..], name);
      }
    case _ =>
  }
}
