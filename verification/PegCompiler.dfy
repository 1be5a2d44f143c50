/** The rule compiler: `MatcherFactory::CreateMatcher` turns the tokens of a rule into matchers with
    a stack of open brackets and choices, creating the rules it refers to on the way. The functions
    here are its specification; `PegFactory` is the code. */
module PegCompiler {
  import opened PegGraph

  datatype PegToken =
    | Literal(text: string)
    | Reference(name: string)
    | FunctionCall(name: string)
    | Op(op: char)
    | Regex

  datatype PegRule = PegRule(params: seq<string>, tokens: seq<PegToken>)

  /** The grammar and the factory's tables. Rule and keyword lookups ignore case. */
  datatype Env = Env(rules: map<string, PegRule>, overrides: map<string, nat>, silent: set<string>)

  /** What the factory changes: the matcher arena and the cache of plain rules by name. */
  datatype Store = Store(nodes: Graph, cache: map<string, nat>)

  /** A stack entry: an open list or choice, with the function name of an open call (or ""). */
  datatype Entry = Entry(id: nat, fn: string)

  datatype Machine = Machine(st: Store, stack: seq<Entry>)

  datatype Error =
    | MissingRule | TooManyParameters | ParameterMismatch
    | TooManyCloseBrackets | UnclosedBracket
    | ExpectedList | OperatorFirst
    | RegexToken | UnknownOperator
    | ChoiceAtRoot | CannotAdd | BadCast // internal: proved unreachable

  predicate Internal(e: Error)
  {
    e.ChoiceAtRoot? || e.CannotAdd? || e.BadCast?
  }

  datatype Result<+T> = Done(value: T) | Failed(error: Error)

  // ----- the acyclicity of parameterised rules -----

  /** A rank for rule names (in lower case) that drops along calls of parameterised rules. */
  datatype Ranking = Ranking(top: nat, rank: map<string, nat>)

  ghost function RankOf(rk: Ranking, name: string): nat
  {
    if Lower(name) in rk.rank then rk.rank[Lower(name)] else 0
  }

  /** The rank that bounds the calls in a rule's body. */
  ghost function LevelOf(rk: Ranking, name: string, rule: PegRule): nat
  {
    if rule.params == [] then rk.top else RankOf(rk, name)
  }

  ghost predicate CallsBelow(rk: Ranking, level: nat, tokens: seq<PegToken>)
  {
    forall t :: t in tokens && t.FunctionCall? ==> RankOf(rk, t.name) < level
  }

  ghost predicate Acyclic(env: Env, rk: Ranking)
  {
    forall name :: Lower(name) in env.rules ==>
      CallsBelow(rk, LevelOf(rk, name, env.rules[Lower(name)]), env.rules[Lower(name)].tokens)
  }

  // ----- names a grammar refers to -----

  ghost function ReferencesIn(tokens: seq<PegToken>): (r: set<string>)
  {
    set t | t in tokens && t.Reference? :: t.name
  }

  ghost function Names(env: Env): (r: set<string>)
  {
    set n, t | n in env.rules && t in env.rules[n].tokens && t.Reference? :: t.name
  }

  ghost predicate KnownRule(env: Env, rule: PegRule)
  {
    exists n :: n in env.rules && env.rules[n] == rule
  }

  lemma ReferenceIsNamed(env: Env, rule: PegRule, tokens: seq<PegToken>)
    requires KnownRule(env, rule) && forall t :: t in tokens ==> t in rule.tokens
    ensures ReferencesIn(tokens) <= Names(env)
  {
  }

  // ----- well-formed stores and stacks -----

  ghost predicate GoodStore(env: Env, st: Store)
  {
    Closed(st.nodes) &&
    (forall n :: n in st.cache ==> st.cache[n] < |st.nodes|) &&
    (forall k :: k in env.overrides ==> env.overrides[k] < |st.nodes|)
  }

  ghost predicate SameKind(a: Node, b: Node)
  {
    (a.List? <==> b.List?) && (a.Choice? <==> b.Choice?)
  }

  /** Matchers and cache entries are only added; no matcher changes its kind. */
  ghost predicate Grows(st: Store, st': Store)
  {
    |st.nodes| <= |st'.nodes| &&
    (forall k :: 0 <= k < |st.nodes| ==> SameKind(st.nodes[k], st'.nodes[k])) &&
    (forall n :: n in st.cache ==> n in st'.cache && st'.cache[n] == st.cache[n])
  }

  /** A list at the bottom, only lists and choices, no two adjacent choices, calls are lists. */
  ghost predicate GoodStack(st: Store, stack: seq<Entry>)
  {
    |stack| > 0 &&
    (forall k :: 0 <= k < |stack| ==> stack[k].id < |st.nodes|) &&
    (forall k :: 0 <= k < |stack| ==> st.nodes[stack[k].id].List? || st.nodes[stack[k].id].Choice?) &&
    (forall k :: 0 <= k < |stack| && stack[k].fn != "" ==> st.nodes[stack[k].id].List?) &&
    st.nodes[stack[0].id].List? &&
    (forall k {:trigger stack[k]} :: 0 < k < |stack| && st.nodes[stack[k].id].Choice? ==>
       st.nodes[stack[k - 1].id].List?)
  }

  ghost predicate OpenCallsBelow(rk: Ranking, level: nat, stack: seq<Entry>)
  {
    forall k :: 0 <= k < |stack| && stack[k].fn != "" ==> RankOf(rk, stack[k].fn) < level
  }

  lemma GoodStackGrows(st: Store, st': Store, stack: seq<Entry>)
    requires GoodStack(st, stack) && Grows(st, st')
    ensures GoodStack(st', stack)
  {
  }

  /** A choice may be opened on a list, a list on anything. */
  lemma PushGood(st: Store, stack: seq<Entry>, e: Entry)
    requires GoodStack(st, stack) && e.id < |st.nodes|
    requires st.nodes[e.id].List? || (st.nodes[e.id].Choice? && e.fn == "" && st.nodes[stack[|stack| - 1].id].List?)
    ensures GoodStack(st, stack + [e])
  {
  }

  // ----- primitive operations -----

  function Alloc(st: Store, n: Node): (r: (Store, nat))
  {
    (st.(nodes := st.nodes + [n]), |st.nodes|)
  }

  lemma AllocGood(env: Env, st: Store, n: Node)
    requires GoodStore(env, st) && Ids(st.nodes, ChildrenOf(n))
    ensures GoodStore(env, Alloc(st, n).0) && Grows(st, Alloc(st, n).0) && Alloc(st, n).1 < |Alloc(st, n).0.nodes|
    ensures Alloc(st, n).0.nodes[Alloc(st, n).1] == n
  {
    var st' := Alloc(st, n).0;
    forall id, k | 0 <= id < |st'.nodes| && 0 <= k < |ChildrenOf(st'.nodes[id])|
      ensures ChildrenOf(st'.nodes[id])[k] < |st'.nodes|
    {
      if id < |st.nodes| { assert st'.nodes[id] == st.nodes[id]; }
    }
  }

  predicate HasChildren(n: Node)
  {
    n.List? || n.Choice?
  }

  function SetChildren(st: Store, id: nat, children: seq<nat>): (r: Store)
    requires id < |st.nodes| && HasChildren(st.nodes[id])
  {
    var n := st.nodes[id];
    st.(nodes := st.nodes[id := if n.List? then n.(children := children) else Choice(children)])
  }

  lemma SetChildrenGood(env: Env, st: Store, id: nat, children: seq<nat>)
    requires GoodStore(env, st) && id < |st.nodes| && HasChildren(st.nodes[id]) && Ids(st.nodes, children)
    ensures GoodStore(env, SetChildren(st, id, children)) && Grows(st, SetChildren(st, id, children))
  {
    var st' := SetChildren(st, id, children);
    forall a, k | 0 <= a < |st'.nodes| && 0 <= k < |ChildrenOf(st'.nodes[a])|
      ensures ChildrenOf(st'.nodes[a])[k] < |st'.nodes|
    {
      if a != id { assert st'.nodes[a] == st.nodes[a]; }
    }
  }

  /** MatcherList::AddMatcher. */
  function AddMatcher(m: Machine, id: nat): (r: Result<Machine>)
    requires |m.stack| > 0 && m.stack[|m.stack| - 1].id < |m.st.nodes|
  {
    var top := m.stack[|m.stack| - 1].id;
    match m.st.nodes[top]
    case List(children, _, _) => Done(Machine(SetChildren(m.st, top, children + [id]), m.stack))
    case Choice(children) =>
      if |m.stack| <= 1 then Failed(ChoiceAtRoot)
      else Done(Machine(SetChildren(m.st, top, children + [id]), m.stack[..|m.stack| - 1]))
    case _ => Failed(CannotAdd)
  }

  lemma AddMatcherGood(env: Env, m: Machine, id: nat)
    requires GoodStore(env, m.st) && GoodStack(m.st, m.stack) && id < |m.st.nodes|
    ensures var r := AddMatcher(m, id);
            r.Done? && GoodStore(env, r.value.st) && Grows(m.st, r.value.st) && GoodStack(r.value.st, r.value.stack)
    ensures var r := AddMatcher(m, id);
            r.value.stack <= m.stack && |m.stack| - 1 <= |r.value.stack| && r.value.st.cache == m.st.cache
  {
    var top := m.stack[|m.stack| - 1].id;
    var children := ChildrenOf(m.st.nodes[top]);
    forall k | 0 <= k < |children| ensures children[k] < |m.st.nodes| {
      assert ChildrenOf(m.st.nodes[top])[k] < |m.st.nodes|;
    }
    SetChildrenGood(env, m.st, top, children + [id]);
    var st' := SetChildren(m.st, top, children + [id]);
    GoodStackGrows(m.st, st', m.stack);
  }

  /** MatcherFactory::Keyword. */
  function KeywordMatcher(env: Env, st: Store, text: string): (r: (Store, nat))
  {
    if Lower(text) in env.overrides then (st, env.overrides[Lower(text)])
    else Alloc(st, LeafNode(Keyword(text)))
  }

  /** `?`, `+` and `*` around a matcher; a starred matcher is an optional repeat. */
  function Wrap(st: Store, op: char, last: nat): (r: (Store, nat))
    ensures |st.nodes| <= |r.0.nodes| && r.0.nodes[..|st.nodes|] == st.nodes
  {
    var (st1, inner) := if op == '?' then (st, last) else Alloc(st, Repeat(last));
    if op == '+' then (st1, inner) else Alloc(st1, Optional(inner))
  }

  lemma GrowsTrans(a: Store, b: Store, c: Store)
    requires Grows(a, b) && Grows(b, c)
    ensures Grows(a, c)
  {
    forall k | 0 <= k < |a.nodes| ensures SameKind(a.nodes[k], c.nodes[k]) {
      assert SameKind(a.nodes[k], b.nodes[k]) && SameKind(b.nodes[k], c.nodes[k]);
    }
  }

  lemma WrapGood(env: Env, st: Store, op: char, last: nat)
    requires GoodStore(env, st) && last < |st.nodes|
    ensures var (st', outer) := Wrap(st, op, last);
            GoodStore(env, st') && Grows(st, st') && outer < |st'.nodes| && st'.cache == st.cache
  {
    hide GoodStore, Grows;
    var (st1, inner) := if op == '?' then (st, last) else Alloc(st, Repeat(last));
    GrowsSelf(st);
    AllocGood(env, st, Repeat(last));
    AllocGood(env, st1, Optional(inner));
    GrowsTrans(st, st1, Alloc(st1, Optional(inner)).0);
  }

  lemma GrowsSelf(st: Store)
    ensures Grows(st, st)
  {
  }

  /** The postfix operators: the last matcher of the open list is wrapped. */
  function Postfix(m: Machine, op: char): (r: Result<Machine>)
    requires |m.stack| > 0 && m.stack[|m.stack| - 1].id < |m.st.nodes|
  {
    var top := m.stack[|m.stack| - 1].id;
    if !m.st.nodes[top].List? then Failed(ExpectedList)
    else
      var children := m.st.nodes[top].children;
      if children == [] then Failed(OperatorFirst)
      else
        var (st2, outer) := Wrap(m.st, op, children[|children| - 1]);
        Done(Machine(SetChildren(st2, top, children[..|children| - 1] + [outer]), m.stack))
  }

  lemma PostfixGood(env: Env, m: Machine, op: char)
    requires GoodStore(env, m.st) && GoodStack(m.st, m.stack)
    ensures var r := Postfix(m, op);
            if r.Done? then GoodStore(env, r.value.st) && Grows(m.st, r.value.st)
                            && GoodStack(r.value.st, r.value.stack)
                            && r.value.stack == m.stack && r.value.st.cache == m.st.cache
            else !Internal(r.error)
  {
    hide GoodStore, Grows, Wrap;
    var top := m.stack[|m.stack| - 1].id;
    if m.st.nodes[top].List? && m.st.nodes[top].children != [] {
      var children := m.st.nodes[top].children;
      ChildrenFit(env, m.st, top);
      var last := children[|children| - 1];
      var (st2, outer) := Wrap(m.st, op, last);
      WrapGood(env, m.st, op, last);
      assert st2.nodes[top] == st2.nodes[..|m.st.nodes|][top];
      SetChildrenGood(env, st2, top, children[..|children| - 1] + [outer]);
      GrowsTrans(m.st, st2, Postfix(m, op).value.st);
      GoodStackGrows(m.st, Postfix(m, op).value.st, m.stack);
    }
  }

  lemma ChildrenFit(env: Env, st: Store, id: nat)
    requires GoodStore(env, st) && id < |st.nodes| && HasChildren(st.nodes[id])
    ensures Ids(st.nodes, st.nodes[id].children)
  {
    assert ChildrenOf(st.nodes[id]) == st.nodes[id].children;
    forall k | 0 <= k < |st.nodes[id].children| ensures st.nodes[id].children[k] < |st.nodes| {
      assert ChildrenOf(st.nodes[id])[k] < |st.nodes|;
    }
  }

  /** `/`: open a choice between the last matcher and the next; a choice just built is reopened. */
  function OrOperator(m: Machine): (r: Result<Machine>)
    requires |m.stack| > 0 && m.stack[|m.stack| - 1].id < |m.st.nodes| && Closed(m.st.nodes)
  {
    var top := m.stack[|m.stack| - 1].id;
    if !m.st.nodes[top].List? then Failed(ExpectedList)
    else
      var children := m.st.nodes[top].children;
      assert ChildrenOf(m.st.nodes[top]) == children;
      if children == [] then Failed(OperatorFirst)
      else
        var last := children[|children| - 1];
        if m.st.nodes[last].Choice? then Done(m.(stack := m.stack + [Entry(last, "")]))
        else
          var (st1, choice) := Alloc(m.st, Choice([last]));
          Done(Machine(SetChildren(st1, top, children[..|children| - 1] + [choice]), m.stack + [Entry(choice, "")]))
  }

  lemma OpenChoiceGood(env: Env, m: Machine, top: nat, last: nat)
    requires GoodStore(env, m.st) && GoodStack(m.st, m.stack) && last < |m.st.nodes|
    requires top == m.stack[|m.stack| - 1].id && m.st.nodes[top].List? && m.st.nodes[top].children != []
    ensures var children := m.st.nodes[top].children;
            var (st1, choice) := Alloc(m.st, Choice([last]));
            var st2 := SetChildren(st1, top, children[..|children| - 1] + [choice]);
            GoodStore(env, st2) && Grows(m.st, st2) && GoodStack(st2, m.stack + [Entry(choice, "")])
  {
    var children := m.st.nodes[top].children;
    assert ChildrenOf(m.st.nodes[top]) == children;
    var (st1, choice) := Alloc(m.st, Choice([last]));
    AllocGood(env, m.st, Choice([last]));
    SetChildrenGood(env, st1, top, children[..|children| - 1] + [choice]);
    var st2 := SetChildren(st1, top, children[..|children| - 1] + [choice]);
    GoodStackGrows(m.st, st2, m.stack);
    PushGood(st2, m.stack, Entry(choice, ""));
  }

  lemma OrOperatorGood(env: Env, m: Machine)
    requires GoodStore(env, m.st) && GoodStack(m.st, m.stack)
    ensures var r := OrOperator(m);
            if r.Done? then GoodStore(env, r.value.st) && Grows(m.st, r.value.st)
                            && GoodStack(r.value.st, r.value.stack)
                            && |r.value.stack| == |m.stack| + 1 && m.stack <= r.value.stack
                            && r.value.stack[|m.stack|].fn == "" && r.value.st.cache == m.st.cache
            else !Internal(r.error)
  {
    var top := m.stack[|m.stack| - 1].id;
    if m.st.nodes[top].List? && m.st.nodes[top].children != [] {
      var children := m.st.nodes[top].children;
      ChildrenFit(env, m.st, top);
      GrowsSelf(m.st);
      hide Grows, Closed;
      var last := children[|children| - 1];
      if m.st.nodes[last].Choice? {
        PushGood(m.st, m.stack, Entry(last, ""));
      } else {
        OpenChoiceGood(env, m, top, last);
      }
    }
  }

  /** Open a list on top of the stack: a bracket (fn empty) or the parameters of a call. */
  function OpenList(m: Machine, fn: string): (r: Machine)
  {
    var (st1, id) := Alloc(m.st, List([], "", false));
    Machine(st1, m.stack + [Entry(id, fn)])
  }

  lemma OpenListGood(env: Env, m: Machine, fn: string)
    requires GoodStore(env, m.st) && GoodStack(m.st, m.stack)
    ensures GoodStore(env, OpenList(m, fn).st) && Grows(m.st, OpenList(m, fn).st)
    ensures GoodStack(OpenList(m, fn).st, OpenList(m, fn).stack)
  {
    AllocGood(env, m.st, List([], "", false));
    GoodStackGrows(m.st, OpenList(m, fn).st, m.stack);
    PushGood(OpenList(m, fn).st, m.stack, Entry(|m.st.nodes|, fn));
  }

  /** The single parameter of a call: the one matcher given, or a list of the several. */
  function CallParameter(st: Store, open: nat): (r: (Store, nat))
    requires open < |st.nodes| && st.nodes[open].List?
  {
    var children := st.nodes[open].children;
    if |children| == 1 then (st, children[0]) else Alloc(st, List(children, "", false))
  }

  lemma CallParameterGood(env: Env, st: Store, open: nat)
    requires GoodStore(env, st) && open < |st.nodes| && st.nodes[open].List?
    ensures var (st', p) := CallParameter(st, open);
            GoodStore(env, st') && Grows(st, st') && p < |st'.nodes| && st'.cache == st.cache
  {
    assert ChildrenOf(st.nodes[open]) == st.nodes[open].children;
    AllocGood(env, st, List(st.nodes[open].children, "", false));
  }

  function IndexOf(params: seq<string>, name: string): (i: nat)
    requires name in params
    ensures i < |params| && params[i] == name
  {
    if params[0] == name then 0 else 1 + IndexOf(params[1..], name)
  }

  // ----- the recursive compiler -----

  /** What compiling leaves: a well-formed, grown store and a matcher in it, or a user error. */
  ghost predicate CreatePost(env: Env, st: Store, name: string, args: seq<nat>, r: Result<(Store, nat)>)
  {
    if r.Failed? then !Internal(r.error)
    else GoodStore(env, r.value.0) && Grows(st, r.value.0) && r.value.1 < |r.value.0.nodes| &&
         (args == [] ==> name in r.value.0.cache && r.value.0.cache[name] == r.value.1)
  }

  ghost predicate RunPost(env: Env, rk: Ranking, level: nat, m: Machine, r: Result<Machine>)
    requires |m.stack| > 0
  {
    if r.Failed? then !Internal(r.error)
    else GoodStore(env, r.value.st) && Grows(m.st, r.value.st) && GoodStack(r.value.st, r.value.stack) &&
         OpenCallsBelow(rk, level, r.value.stack) &&
         r.value.stack[0] == m.stack[0]
  }

  ghost predicate RunPre(env: Env, rk: Ranking, rule: PegRule, args: seq<nat>, level: nat, m: Machine,
                         tokens: seq<PegToken>)
  {
    Acyclic(env, rk) && GoodStore(env, m.st) && GoodStack(m.st, m.stack) &&
    KnownRule(env, rule) && (forall t :: t in tokens ==> t in rule.tokens) &&
    |args| == |rule.params| <= 1 && Ids(m.st.nodes, args) &&
    CallsBelow(rk, level, tokens) && OpenCallsBelow(rk, level, m.stack)
  }

  ghost function TokensOf(env: Env, name: string): seq<PegToken>
  {
    if Lower(name) in env.rules then env.rules[Lower(name)].tokens else []
  }

  /** The unvisited rules: what plain-rule creation uses up. */
  ghost function Uncached(env: Env, st: Store): set<string>
  {
    Names(env) - st.cache.Keys
  }

  /** CreateMatcher for one rule: plain when args is empty, else a call with that parameter. */
  ghost function CreateF(env: Env, rk: Ranking, st: Store, name: string, args: seq<nat>): (r: Result<(Store, nat)>)
    requires Acyclic(env, rk) && GoodStore(env, st) && Ids(st.nodes, args)
    ensures CreatePost(env, st, name, args, r)
    decreases if args == [] then Uncached(env, st) + ({name} - st.cache.Keys) else Uncached(env, st),
              if args == [] then 0 else RankOf(rk, name),
              if args == [] then 0 else 3 + |TokensOf(env, name)|, 0
  {
    if args == [] && name in st.cache then Done((st, st.cache[name]))
    else if Lower(name) !in env.rules then Failed(MissingRule)
    else
      var rule := env.rules[Lower(name)];
      var root := |st.nodes|;
      var st1 := StartRule(env, st, name, args);
      assert GoodStore(env, st1) && Grows(st, st1) && st1.nodes[root].List?;
      if |rule.params| > 1 then Failed(TooManyParameters)
      else if |args| != |rule.params| then Failed(ParameterMismatch)
      else
        assert args == [] ==> Uncached(env, st1) < Uncached(env, st) + ({name} - st.cache.Keys) by {
          if args == [] { assert name in Uncached(env, st) + ({name} - st.cache.Keys) && name !in Uncached(env, st1); }
        }
        assert args != [] ==> Uncached(env, st1) == Uncached(env, st);
        var r := RunF(env, rk, rule, args, LevelOf(rk, name, rule), Machine(st1, [Entry(root, "")]), rule.tokens);
        if r.Failed? then Failed(r.error)
        else if |r.value.stack| != 1 then Failed(UnclosedBracket)
        else
          assert r.value.st.nodes[root].List?;
          var n := r.value.st.nodes[root];
          var done := r.value.st.(nodes := r.value.st.nodes[root := n.(name := name, suppress := name in env.silent)]);
          FinishGood(env, r.value.st, root, name);
          Done((done, root))
  }

  lemma FinishGood(env: Env, st: Store, root: nat, name: string)
    requires GoodStore(env, st) && root < |st.nodes| && st.nodes[root].List?
    ensures var done := st.(nodes := st.nodes[root := st.nodes[root].(name := name, suppress := name in env.silent)]);
            GoodStore(env, done) && Grows(st, done)
  {
    var done := st.(nodes := st.nodes[root := st.nodes[root].(name := name, suppress := name in env.silent)]);
    forall a, k | 0 <= a < |done.nodes| && 0 <= k < |ChildrenOf(done.nodes[a])|
      ensures ChildrenOf(done.nodes[a])[k] < |done.nodes|
    {
      assert ChildrenOf(done.nodes[a]) == ChildrenOf(st.nodes[a]);
    }
  }

  /** The rule's empty list is cached before its body is compiled: rules may be recursive. */
  ghost function StartRule(env: Env, st: Store, name: string, args: seq<nat>): (r: Store)
    requires GoodStore(env, st)
    requires args == [] ==> name !in st.cache
    ensures GoodStore(env, r) && Grows(st, r)
    ensures r.nodes == st.nodes + [List([], "", false)]
    ensures r.cache == if args == [] then st.cache[name := |st.nodes|] else st.cache
  {
    AllocGood(env, st, List([], "", false));
    var (st1, root) := Alloc(st, List([], "", false));
    if args == [] then st1.(cache := st.cache[name := root]) else st1
  }

  /** The token loop. */
  ghost function RunF(env: Env, rk: Ranking, rule: PegRule, args: seq<nat>, level: nat, m: Machine,
                      tokens: seq<PegToken>): (r: Result<Machine>)
    requires RunPre(env, rk, rule, args, level, m, tokens)
    ensures RunPost(env, rk, level, m, r)
    decreases Uncached(env, m.st), level, 1 + |tokens|, 1
  {
    if tokens == [] then Done(m)
    else
      var r := StepF(env, rk, rule, args, level, m, tokens[0], |tokens|);
      if r.Failed? then r
      else
        assert Uncached(env, r.value.st) <= Uncached(env, m.st);
        assert Uncached(env, r.value.st) == Uncached(env, m.st) || Uncached(env, r.value.st) < Uncached(env, m.st);
        RunF(env, rk, rule, args, level, r.value, tokens[1..])
  }

  /** The token loop, one token further. */
  lemma RunStep(env: Env, rk: Ranking, rule: PegRule, args: seq<nat>, level: nat, m: Machine, tokens: seq<PegToken>)
    requires RunPre(env, rk, rule, args, level, m, tokens) && tokens != []
    ensures RunPre(env, rk, rule, args, level, m, [tokens[0]])
    ensures var s, r := StepF(env, rk, rule, args, level, m, tokens[0], |tokens|),
            RunF(env, rk, rule, args, level, m, tokens);
            if s.Failed? then r == s
            else RunPre(env, rk, rule, args, level, s.value, tokens[1..]) &&
                 Uncached(env, s.value.st) <= Uncached(env, m.st) &&
                 r == RunF(env, rk, rule, args, level, s.value, tokens[1..])
  {
    hide StepF, Closed, GoodStack;
  }

  ghost function StepF(env: Env, rk: Ranking, rule: PegRule, args: seq<nat>, level: nat, m: Machine, t: PegToken,
                       left: nat): (r: Result<Machine>)
    requires RunPre(env, rk, rule, args, level, m, [t]) && left > 0
    ensures RunPost(env, rk, level, m, r)
    decreases Uncached(env, m.st), level, 1 + left, 0
  {
    assert t in [t];
    match t
    case Literal(text) =>
      AllocGood(env, m.st, LeafNode(Keyword(text)));
      var (st1, id) := KeywordMatcher(env, m.st, text);
      AddF(env, rk, level, m, st1, id, m.stack)
    case Reference(name) =>
      if name in rule.params then AddF(env, rk, level, m, m.st, args[IndexOf(rule.params, name)], m.stack)
      else
        assert name in Names(env) by { ReferenceIsNamed(env, rule, [t]); assert name in ReferencesIn([t]); }
        assert Uncached(env, m.st) + ({name} - m.st.cache.Keys) == Uncached(env, m.st);
        var r := CreateF(env, rk, m.st, name, []);
        if r.Failed? then Failed(r.error) else AddF(env, rk, level, m, r.value.0, r.value.1, m.stack)
    case FunctionCall(fn) =>
      OpenListGood(env, m, fn);
      Done(OpenList(m, fn))
    case Regex => Failed(RegexToken)
    case Op(op) => OperatorF(env, rk, level, m, op, left)
  }

  ghost function OperatorF(env: Env, rk: Ranking, level: nat, m: Machine, op: char, left: nat): (r: Result<Machine>)
    requires Acyclic(env, rk) && GoodStore(env, m.st) && GoodStack(m.st, m.stack) && OpenCallsBelow(rk, level, m.stack)
    requires left > 0
    ensures RunPost(env, rk, level, m, r)
    decreases Uncached(env, m.st), level, left, 1
  {
    if op == '?' || op == '*' || op == '+' then
      PostfixGood(env, m, op);
      Postfix(m, op)
    else if op == '/' then
      OrOperatorGood(env, m);
      OrOperator(m)
    else if op == '(' then
      OpenListGood(env, m, "");
      Done(OpenList(m, ""))
    else if op == ')' then CloseF(env, rk, level, m, left)
    else if op == '!' then Done(m)
    else Failed(UnknownOperator)
  }

  /** Add a matcher of the grown store st1 to the stack. */
  ghost function AddF(env: Env, rk: Ranking, level: nat, m: Machine, st1: Store, id: nat,
                      stack: seq<Entry>): (r: Result<Machine>)
    requires GoodStore(env, m.st) && GoodStack(m.st, m.stack) && OpenCallsBelow(rk, level, m.stack)
    requires GoodStore(env, st1) && Grows(m.st, st1) && id < |st1.nodes|
    requires 0 < |stack| && stack <= m.stack
    ensures RunPost(env, rk, level, m, r) && r.Done?
    ensures r == AddMatcher(Machine(st1, stack), id)
  {
    GoodStackGrows(m.st, st1, m.stack);
    assert GoodStack(st1, stack);
    AddMatcherGood(env, Machine(st1, stack), id);
    AddMatcher(Machine(st1, stack), id)
  }

  /** MatcherList::CloseBracket. */
  ghost function CloseF(env: Env, rk: Ranking, level: nat, m: Machine, left: nat): (r: Result<Machine>)
    requires Acyclic(env, rk) && GoodStore(env, m.st) && GoodStack(m.st, m.stack) && OpenCallsBelow(rk, level, m.stack)
    requires left > 0
    ensures RunPost(env, rk, level, m, r)
    decreases Uncached(env, m.st), level, left, 0
  {
    if |m.stack| <= 1 then Failed(TooManyCloseBrackets)
    else
      var top := m.stack[|m.stack| - 1];
      var below := m.stack[..|m.stack| - 1];
      if top.fn == "" then AddF(env, rk, level, m, m.st, top.id, below)
      else
        assert m.st.nodes[top.id].List?;
        CallParameterGood(env, m.st, top.id);
        var (st1, p) := CallParameter(m.st, top.id);
        assert Uncached(env, st1) == Uncached(env, m.st);
        var r := CreateF(env, rk, st1, top.fn, [p]);
        if r.Failed? then Failed(r.error) else AddF(env, rk, level, m, r.value.0, r.value.1, below)
  }

  /** `/` and the next matcher leave the matcher before `/` as it was exactly when that is neither a choice
      nor the open list itself. A choice passed in as a parameter is therefore extended in place. */
  lemma OrSparesItsOperand(env: Env, m: Machine, id: nat)
    requires GoodStore(env, m.st) && GoodStack(m.st, m.stack) && id < |m.st.nodes|
    requires var top := m.st.nodes[m.stack[|m.stack| - 1].id]; top.List? && top.children != []
    ensures var top := m.stack[|m.stack| - 1].id;
            var children := m.st.nodes[top].children;
            var last := children[|children| - 1];
            var after := OrOperator(m);
            after.Done? && |after.value.stack| > 0 &&
            after.value.stack[|after.value.stack| - 1].id < |after.value.st.nodes| &&
            var done := AddMatcher(after.value, id);
            last < |m.st.nodes| && done.Done? && |m.st.nodes| <= |done.value.st.nodes| &&
            (done.value.st.nodes[last] == m.st.nodes[last] <==> !m.st.nodes[last].Choice? && last != top)
  {
    var top := m.stack[|m.stack| - 1].id;
    ChildrenFit(env, m.st, top);
    OrOperatorGood(env, m);
    AddMatcherGood(env, OrOperator(m).value, id);
    hide GoodStore, GoodStack, Grows;
    OrReopens(m, top, id);
    OrOpens(m, top, id);
  }

  lemma OrReopens(m: Machine, top: nat, id: nat)
    requires |m.stack| > 0 && top == m.stack[|m.stack| - 1].id < |m.st.nodes| && Closed(m.st.nodes)
    requires m.st.nodes[top].List? && m.st.nodes[top].children != [] && Ids(m.st.nodes, m.st.nodes[top].children)
    ensures var children := m.st.nodes[top].children;
            var last := children[|children| - 1];
            m.st.nodes[last].Choice? ==>
              OrOperator(m).Done? && AddMatcher(OrOperator(m).value, id).Done? &&
              AddMatcher(OrOperator(m).value, id).value.st.nodes[last] != m.st.nodes[last]
  {
    hide Closed;
    var children := m.st.nodes[top].children;
    var last := children[|children| - 1];
    if m.st.nodes[last].Choice? {
      var options := m.st.nodes[last].children;
      assert AddMatcher(OrOperator(m).value, id).value.st.nodes[last] == Choice(options + [id]);
      assert |options + [id]| != |options|;
    }
  }

  lemma OrOpens(m: Machine, top: nat, id: nat)
    requires |m.stack| > 0 && top == m.stack[|m.stack| - 1].id < |m.st.nodes| && Closed(m.st.nodes)
    requires m.st.nodes[top].List? && m.st.nodes[top].children != [] && Ids(m.st.nodes, m.st.nodes[top].children)
    ensures var children := m.st.nodes[top].children;
            var last := children[|children| - 1];
            !m.st.nodes[last].Choice? ==>
              OrOperator(m).Done? && AddMatcher(OrOperator(m).value, id).Done? &&
              |m.st.nodes| < |AddMatcher(OrOperator(m).value, id).value.st.nodes| &&
              (AddMatcher(OrOperator(m).value, id).value.st.nodes[last] == m.st.nodes[last] <==> last != top)
  {
    hide Closed;
    var children := m.st.nodes[top].children;
    var last, n := children[|children| - 1], |m.st.nodes|;
    if !m.st.nodes[last].Choice? {
      var after := OrOperator(m).value;
      var changed := m.st.nodes[top].(children := children[..|children| - 1] + [n]);
      assert after.st.nodes[top] == changed && after.st.nodes[n] == Choice([last]);
      assert changed.children[|children| - 1] == n;
      assert AddMatcher(after, id).value.st.nodes == after.st.nodes[n := Choice([last] + [id])];
    }
  }
}
