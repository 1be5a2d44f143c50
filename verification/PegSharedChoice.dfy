/** What happens when a choice is handed to a rule in which a `/` follows the parameter: the argument's
    own choice is extended, wherever it is used. */
module PegSharedChoice {
  import opened Wrappers
  import opened PegGraph
  import PegParse
  import opened PegCompiler
  import opened PegRules
  import opened PegRuleProofs
  import opened PegMeaning

  /** The grammar  f(D) <- D D / x   r <- f(a / b)  for three keywords. */
  function Sharing(a: string, b: string, x: string): (gr: Grammar)
  {
    Grammar(map["f" := RuleTree(Some("D"), [Param, Alt(Param, [Lit(x)])]),
                "r" := RuleTree(None, [Call("f", [Alt(Lit(a), [Lit(b)])])])],
            {}, map[], {})
  }

  const RANKS: Ranking := Ranking(1, map["f" := 0])
  const EMPTY: Store := Store([], map[])

  lemma Letters()
    ensures Lower("f") == "f" && Lower("r") == "r" && "f" != "r" && "f" != "" && "D" != "f"
  {
    assert "f"[0] != "r"[0];
  }

  lemma SharingIsWellFormed(a: string, b: string, x: string)
    ensures WfGrammar(Sharing(a, b, x)) && Initial(Sharing(a, b, x), EMPTY) && Acyclic(EnvOf(Sharing(a, b, x)), RANKS)
  {
    hide Acyclic, WfGrammar;
    SharingWf(a, b, x);
    SharingAcyclic(a, b, x);
  }

  lemma SharingWf(a: string, b: string, x: string)
    ensures WfGrammar(Sharing(a, b, x))
  {
    Letters();
    var gr := Sharing(a, b, x);
    var f, r := gr.rules["f"], gr.rules["r"];
    assert WfElem(gr, f.param, Alt(Param, [Lit(x)])) by { assert WfAll(gr, f.param, [Lit(x)]) && Atom(Lit(x)); }
    assert WfElem(gr, r.param, Call("f", [Alt(Lit(a), [Lit(b)])])) by {
      assert WfElem(gr, r.param, Alt(Lit(a), [Lit(b)])) by { assert WfAll(gr, r.param, [Lit(b)]) && Atom(Lit(b)); }
      assert WfAll(gr, r.param, [Alt(Lit(a), [Lit(b)])]);
    }
    assert WfAll(gr, f.param, f.body) && WfAll(gr, r.param, r.body);
  }

  lemma SharingAcyclic(a: string, b: string, x: string)
    ensures Acyclic(EnvOf(Sharing(a, b, x)), RANKS)
  {
    hide Sharing;
    Letters();
    TokensOfSharing(a, b, x);
  }

  /** It is not sparing: f is handed a choice, and a slash follows its parameter. */
  lemma SharingIsNotSparing(a: string, b: string, x: string)
    ensures !Sparing(Sharing(a, b, x), "r")
  {
    Letters();
    var gr := Sharing(a, b, x);
    var f, r := gr.rules["f"], gr.rules["r"];
    forall u: Usage | Starts(gr, u, "r") ensures !Firm(gr, u) {
      if "f" !in u.live || "f" in u.firm {
        assert !FirmElem(gr, u, "r" in u.firm, r.body[0]);
      } else {
        assert !FirmElem(gr, u, false, f.body[1]);
      }
    }
  }

  lemma PrintOne(param: Option<string>, e: Elem)
    ensures PrintAll(param, [e]) == Print(param, e)
  {
    assert PrintAll(param, [e][1..]) == [];
  }

  lemma PrintAltOne(param: Option<string>, first: Elem, e: Elem)
    ensures Print(param, Alt(first, [e])) == Print(param, first) + [Op('/')] + Print(param, e)
  {
    assert PrintAlts(param, [e][1..]) == [];
    assert PrintAlts(param, [e]) == [Op('/')] + Print(param, e);
  }

  lemma TokensOfSharing(a: string, b: string, x: string)
    ensures EnvOf(Sharing(a, b, x)).rules == map["f" := BodyOfF(x), "r" := BodyOfR(a, b)]
  {
    Letters();
    var d: Option<string>, n: Option<string> := Some("D"), None;
    var slash, arg := Alt(Param, [Lit(x)]), Alt(Lit(a), [Lit(b)]);
    PrintAltOne(d, Param, Lit(x));
    PrintOne(d, slash);
    assert [Param, slash][1..] == [slash];
    assert PrintAll(d, [Param, slash]) == BodyOfF(x).tokens;
    PrintAltOne(n, Lit(a), Lit(b));
    PrintOne(n, arg);
    PrintOne(n, Call("f", [arg]));
    assert PrintAll(n, [Call("f", [arg])]) == BodyOfR(a, b).tokens;
  }

  function BodyOfF(x: string): PegRule
  {
    PegRule(["D"], [Reference("D"), Reference("D"), Op('/'), Literal(x)])
  }

  function BodyOfR(a: string, b: string): PegRule
  {
    PegRule([], [FunctionCall("f"), Literal(a), Op('/'), Literal(b), Op(')')])
  }

  // ----- compiling it -----

  /** One token of a body. */
  lemma Follow(j: Job, m: Machine, t: PegToken, rest: seq<PegToken>, m1: Machine)
    requires Pre(j, m, [t] + rest)
    requires Pre(j, m, [t]) ==> Run(j, m, [t]) == Result.Done(m1)
    ensures Pre(j, m1, rest) && Run(j, m, [t] + rest) == Run(j, m1, rest)
  {
    hide Run, Pre;
    PreNext(j, m, [t], rest);
    RunAppend(j, m, [t], rest);
  }

  lemma FollowLiteral(j: Job, m: Machine, text: string, rest: seq<PegToken>, m1: Machine)
    requires Pre(j, m, [Literal(text)] + rest) && j.gr.overrides == map[] && |m.stack| > 0 && Top(m) < |m.st.nodes|
    requires AddMatcher(Machine(m.st.(nodes := m.st.nodes + [LeafNode(Keyword(text))]), m.stack), |m.st.nodes|) ==
             Result.Done(m1)
    ensures Pre(j, m1, rest) && Run(j, m, [Literal(text)] + rest) == Run(j, m1, rest)
  {
    hide Run, Pre, AddMatcher;
    if Pre(j, m, [Literal(text)]) { StepLiteral(j, m, text); }
    Follow(j, m, Literal(text), rest, m1);
  }

  lemma FollowParameter(j: Job, m: Machine, rest: seq<PegToken>, m1: Machine)
    requires j.rule.param.Some? && |j.args| == 1 && |m.stack| > 0 && Top(m) < |m.st.nodes|
    requires Pre(j, m, [Reference(j.rule.param.value)] + rest)
    requires AddMatcher(m, j.args[0]) == Result.Done(m1)
    ensures Pre(j, m1, rest) && Run(j, m, [Reference(j.rule.param.value)] + rest) == Run(j, m1, rest)
  {
    hide Run, AddMatcher, Closed, Acyclic, GoodStore, GoodStack, RankOf;
    var t := Reference(j.rule.param.value);
    if Pre(j, m, [t]) { OneStep(j, m, t); }
    Follow(j, m, t, rest, m1);
  }

  lemma FollowSlash(j: Job, m: Machine, rest: seq<PegToken>, m1: Machine)
    requires Pre(j, m, [Op('/')] + rest) && |m.stack| > 0 && Top(m) < |m.st.nodes| && Closed(m.st.nodes)
    requires OrOperator(m) == Result.Done(m1)
    ensures Pre(j, m1, rest) && Run(j, m, [Op('/')] + rest) == Run(j, m1, rest)
  {
    hide Run, Pre, OrOperator;
    if Pre(j, m, [Op('/')]) { StepOperator(j, m, '/'); }
    Follow(j, m, Op('/'), rest, m1);
  }

  lemma AddToList(m: Machine, id: nat, m1: Machine)
    requires |m.stack| > 0 && Top(m) < |m.st.nodes| && m.st.nodes[Top(m)].List?
    requires m1.stack == m.stack && m1.st.cache == m.st.cache
    requires var n := m.st.nodes[Top(m)];
             m1.st.nodes == m.st.nodes[Top(m) := List(n.children + [id], n.name, n.suppress)]
    ensures AddMatcher(m, id) == Result.Done(m1)
  {
  }

  lemma AddToChoice(m: Machine, id: nat, m1: Machine)
    requires |m.stack| > 1 && Top(m) < |m.st.nodes| && m.st.nodes[Top(m)].Choice?
    requires m1.stack == m.stack[..|m.stack| - 1] && m1.st.cache == m.st.cache
    requires m1.st.nodes == m.st.nodes[Top(m) := Choice(m.st.nodes[Top(m)].children + [id])]
    ensures AddMatcher(m, id) == Result.Done(m1)
  {
  }

  lemma Reopen(m: Machine, m1: Machine)
    requires |m.stack| > 0 && Top(m) < |m.st.nodes| && Closed(m.st.nodes) && m.st.nodes[Top(m)].List?
    requires var cs := m.st.nodes[Top(m)].children;
             |cs| > 0 && cs[|cs| - 1] < |m.st.nodes| && m.st.nodes[cs[|cs| - 1]].Choice? &&
             m1 == m.(stack := m.stack + [Entry(cs[|cs| - 1], "")])
    ensures OrOperator(m) == Result.Done(m1)
  {
  }

  lemma OpenNew(m: Machine, m1: Machine)
    requires |m.stack| > 0 && Top(m) < |m.st.nodes| && Closed(m.st.nodes) && m.st.nodes[Top(m)].List?
    requires var cs, n := m.st.nodes[Top(m)].children, |m.st.nodes|;
             |cs| > 0 && cs[|cs| - 1] < |m.st.nodes| && !m.st.nodes[cs[|cs| - 1]].Choice? &&
             m1.stack == m.stack + [Entry(n, "")] && m1.st.cache == m.st.cache &&
             m1.st.nodes ==
                 (m.st.nodes +
                  [Choice([cs[|cs| - 1]])])[Top(m) := m.st.nodes[Top(m)].(children := cs[..|cs| - 1] + [n])]
    ensures OrOperator(m) == Result.Done(m1)
  {
  }

  const NEW: Node := List([], "", false)

  function ListOf(ids: seq<nat>): Node
  {
    List(ids, "", false)
  }

  function Key(text: string): Node
  {
    LeafNode(Keyword(text))
  }

  const CACHE: map<string, nat> := map["r" := 0]

  /** The matchers while f(a / b) is being compiled; the choice is matcher 3. */
  function Before(a: string, b: string): Graph
  {
    [NEW, ListOf([3]), Key(a), Choice([2, 4]), Key(b)]
  }

  /** The matchers in the end: the rule f has extended the choice it was handed. */
  function After(a: string, b: string, x: string, root: Node, f: Node): Graph
  {
    [root, ListOf([3]), Key(a), Choice([2, 4, 6]), Key(b), f, Key(x)]
  }

  function JobF(a: string, b: string, x: string): Job
  {
    Job(Sharing(a, b, x), RANKS, Sharing(a, b, x).rules["f"], [3], 0, Usage({}, {}), false)
  }

  function MachineF(nodes: Graph, stack: seq<Entry>): Machine
  {
    Machine(Store(nodes, CACHE), stack)
  }

  lemma BodyF(a: string, b: string, x: string)
    requires Pre(JobF(a, b, x), MachineF(Before(a, b) + [NEW], [Entry(5, "")]), BodyOfF(x).tokens)
    ensures Run(JobF(a, b, x), MachineF(Before(a, b) + [NEW], [Entry(5, "")]), BodyOfF(x).tokens)
            == Result.Done(MachineF(After(a, b, x, NEW, ListOf([3, 3])), [Entry(5, "")]))
  {
    hide Run, Pre, AddMatcher, OrOperator, Sharing, Closed, JobF;
    var j, n, open := JobF(a, b, x), Before(a, b), [Entry(5, "")];
    JobFIs(a, b, x);
    var d, slash, lit := Reference("D"), Op('/'), Literal(x);
    var m0, m1 := MachineF(n + [NEW], open), MachineF(n + [ListOf([3])], open);
    assert [d] + [d, slash, lit] == BodyOfF(x).tokens;
    assert [] + [3] == [3];
    AddToList(m0, 3, m1);
    FollowParameter(j, m0, [d, slash, lit], m1);
    var m2 := MachineF(n + [ListOf([3, 3])], open);
    assert [d] + [slash, lit] == [d, slash, lit];
    assert [3] + [3] == [3, 3];
    AddToList(m1, 3, m2);
    FollowParameter(j, m1, [slash, lit], m2);
    var m3 := MachineF(n + [ListOf([3, 3])], open + [Entry(3, "")]);
    assert [slash] + [lit] == [slash, lit];
    PreGood(j, m2, [slash, lit]);
    Reopen(m2, m3);
    FollowSlash(j, m2, [lit], m3);
    var m4 := MachineF(After(a, b, x, NEW, ListOf([3, 3])), open);
    assert [lit] + [] == [lit];
    var added := MachineF(n + [ListOf([3, 3])] + [Key(x)], open + [Entry(3, "")]);
    assert [2, 4] + [6] == [2, 4, 6];
    AddToChoice(added, 6, m4);
    FollowLiteral(j, m3, x, [], m4);
    EmptyRun(j, m4);
  }

  lemma JobFIs(a: string, b: string, x: string)
    ensures var j := JobF(a, b, x); j.gr.overrides == map[] && j.rule.param == Some("D") && j.args == [3]
  {
    Letters();
  }

  /** Creating the rule f with matcher 3 for its parameter. */
  lemma CreateCall(a: string, b: string, x: string)
    ensures var env, st := EnvOf(Sharing(a, b, x)), Store(Before(a, b), CACHE);
            Acyclic(env, RANKS) && GoodStore(env, st) && Ids(st.nodes, [3]) &&
            CreateF(env, RANKS, st, "f", [3]) ==
                Result.Done((Store(After(a, b, x, NEW, List([3, 3], "f", false)), CACHE), 5))
  {
    hide CreateF, Run, Acyclic, WfGrammar, Sharing;
    Letters();
    SharingIsWellFormed(a, b, x);
    TokensOfSharing(a, b, x);
    var j, st := JobF(a, b, x), Store(Before(a, b), CACHE);
    JobFReady(a, b, x);
    BodyF(a, b, x);
    var done, named := MachineF(After(a, b, x, NEW, ListOf([3, 3])), [Entry(5, "")]), List([3, 3], "f", false);
    CreateUnfolds(j, st, "f", done);
    assert done.st.nodes[5 := named] == After(a, b, x, NEW, named);
    assert Named(j.gr, done.st, 5, "f") == Store(After(a, b, x, NEW, named), CACHE);
  }

  lemma JobFReady(a: string, b: string, x: string)
    requires Acyclic(EnvOf(Sharing(a, b, x)), RANKS)
    ensures var j, st := JobF(a, b, x), Store(Before(a, b), CACHE);
            GoodStore(EnvOf(j.gr), st) && Lower("f") in j.gr.rules && j.rule == j.gr.rules[Lower("f")] &&
            j.rule.param.Some? && j.level == LevelOf(RANKS, "f", TokenRule(j.rule)) &&
            PrintAll(j.rule.param, j.rule.body) == BodyOfF(x).tokens &&
            StartRule(EnvOf(j.gr), st, "f", [3]) == Store(Before(a, b) + [NEW], CACHE) && j.gr.silent == {}
    ensures Pre(JobF(a, b, x), MachineF(Before(a, b) + [NEW], [Entry(5, "")]), BodyOfF(x).tokens)
  {
    Letters();
    TokensOfSharing(a, b, x);
    var j, env := JobF(a, b, x), EnvOf(Sharing(a, b, x));
    assert env.rules["f"] == TokenRule(j.rule) == BodyOfF(x) && KnownRule(env, BodyOfF(x));
    assert GoodStore(env, Store(Before(a, b), CACHE)) by { StoreIsGood(env, a, b, []); }
    assert GoodStore(env, Store(Before(a, b) + [NEW], CACHE)) by { StoreIsGood(env, a, b, [NEW]); }
    assert CallsBelow(RANKS, 0, BodyOfF(x).tokens);
    hide Acyclic, GoodStore, Sharing;
  }

  lemma StoreIsGood(env: Env, a: string, b: string, more: Graph)
    requires env.overrides == map[] && (more == [] || more == [NEW])
    ensures GoodStore(env, Store(Before(a, b) + more, CACHE))
    ensures Before(a, b) + [] == Before(a, b)
  {
    var nodes := Before(a, b) + more;
    forall id, k | 0 <= id < |nodes| && 0 <= k < |ChildrenOf(nodes[id])| ensures ChildrenOf(nodes[id])[k] < |nodes| {
      if id == 1 { assert nodes[id] == ListOf([3]); }
      if id == 3 { assert nodes[id] == Choice([2, 4]); }
    }
  }

  function JobR(a: string, b: string, x: string): Job
  {
    Job(Sharing(a, b, x), RANKS, Sharing(a, b, x).rules["r"], [], 1, Usage({}, {}), false)
  }

  lemma JobRReady(a: string, b: string, x: string)
    requires Acyclic(EnvOf(Sharing(a, b, x)), RANKS)
    ensures var j := JobR(a, b, x);
            GoodStore(EnvOf(j.gr), EMPTY) && Lower("r") in j.gr.rules && j.rule == j.gr.rules[Lower("r")] &&
            j.rule.param.None? &&
            j.level == LevelOf(RANKS, "r", TokenRule(j.rule)) &&
            PrintAll(j.rule.param, j.rule.body) == BodyOfR(a, b).tokens &&
            StartRule(EnvOf(j.gr), EMPTY, "r", []) == Store([NEW], CACHE) && j.gr.silent == {} &&
            j.gr.overrides == map[] &&
            Pre(j, MachineF([NEW], [Entry(0, "")]), BodyOfR(a, b).tokens)
  {
    Letters();
    TokensOfSharing(a, b, x);
    var j := JobR(a, b, x);
    assert EnvOf(j.gr).rules["r"] == TokenRule(j.rule);
    assert KnownRule(EnvOf(j.gr), TokenRule(j.rule));
  }

  lemma FollowCall(j: Job, m: Machine, fn: string, rest: seq<PegToken>, m1: Machine)
    requires Pre(j, m, [FunctionCall(fn)] + rest) && m1 == OpenList(m, fn)
    ensures Pre(j, m1, rest) && Run(j, m, [FunctionCall(fn)] + rest) == Run(j, m1, rest)
  {
    hide Run, Pre;
    if Pre(j, m, [FunctionCall(fn)]) { StepOpens(j, m, FunctionCall(fn)); }
    Follow(j, m, FunctionCall(fn), rest, m1);
  }

  const CALL: seq<Entry> := [Entry(0, ""), Entry(1, "f")]

  function ArgumentTokens(b: string): seq<PegToken>
  {
    [Op('/'), Literal(b), Op(')')]
  }

  /** The body of r up to the first alternative. */
  lemma OpenR(a: string, b: string, x: string)
    requires Pre(JobR(a, b, x), MachineF([NEW], [Entry(0, "")]), BodyOfR(a, b).tokens)
    requires JobR(a, b, x).gr.overrides == map[]
    ensures var j, m := JobR(a, b, x), MachineF([NEW, ListOf([2]), Key(a)], CALL);
            Pre(j, m, ArgumentTokens(b)) &&
            Run(j, MachineF([NEW], [Entry(0, "")]), BodyOfR(a, b).tokens) == Run(j, m, ArgumentTokens(b))
  {
    hide Run, Pre, AddMatcher, OrOperator, Sharing, Closed, JobR;
    var j, f, la := JobR(a, b, x), FunctionCall("f"), Literal(a);
    var m0, m1, m2 := MachineF([NEW], [Entry(0, "")]), MachineF([NEW, NEW], CALL),
                      MachineF([NEW, ListOf([2]), Key(a)], CALL);
    assert [f] + ([la] + ArgumentTokens(b)) == BodyOfR(a, b).tokens;
    FollowCall(j, m0, "f", [la] + ArgumentTokens(b), m1);
    assert [] + [2] == [2];
    AddToList(MachineF([NEW, NEW] + [Key(a)], CALL), 2, m2);
    FollowLiteral(j, m1, a, ArgumentTokens(b), m2);
  }

  /** The slash and the second alternative. */
  lemma SlashR(a: string, b: string, x: string)
    requires Pre(JobR(a, b, x), MachineF([NEW, ListOf([2]), Key(a)], CALL), ArgumentTokens(b))
    requires JobR(a, b, x).gr.overrides == map[]
    ensures var j, m := JobR(a, b, x), MachineF(Before(a, b), CALL);
            Pre(j, m, [Op(')')]) &&
            Run(j, MachineF([NEW, ListOf([2]), Key(a)], CALL), ArgumentTokens(b)) == Run(j, m, [Op(')')])
  {
    hide Run, Pre, AddMatcher, OrOperator, Sharing, Closed, JobR;
    var j, slash, lb, close := JobR(a, b, x), Op('/'), Literal(b), Op(')');
    var m2, m4 := MachineF([NEW, ListOf([2]), Key(a)], CALL), MachineF(Before(a, b), CALL);
    var m3 := MachineF([NEW, ListOf([3]), Key(a), Choice([2])], CALL + [Entry(3, "")]);
    assert [slash] + [lb, close] == ArgumentTokens(b);
    PreGood(j, m2, ArgumentTokens(b));
    assert [2][..0] + [3] == [3];
    OpenNew(m2, m3);
    FollowSlash(j, m2, [lb, close], m3);
    assert [lb] + [close] == [lb, close];
    assert [2] + [4] == [2, 4];
    AddToChoice(MachineF(m3.st.nodes + [Key(b)], CALL + [Entry(3, "")]), 4, m4);
    FollowLiteral(j, m3, b, [close], m4);
  }

  lemma CloseR(a: string, b: string, x: string)
    requires Pre(JobR(a, b, x), MachineF(Before(a, b), CALL), [Op(')')])
    ensures Run(JobR(a, b, x), MachineF(Before(a, b), CALL), [Op(')')])
            == Result.Done(MachineF(After(a, b, x, ListOf([5]), List([3, 3], "f", false)), [Entry(0, "")]))
  {
    hide CreateF, Run, Acyclic, WfGrammar, Sharing, AddMatcher, Pre, GoodStore, RankOf;
    Letters();
    CreateCall(a, b, x);
    var j, open := JobR(a, b, x), [Entry(0, "")];
    var m4, made := MachineF(Before(a, b), CALL), List([3, 3], "f", false);
    assert m4.stack[..1] == open;
    StepCloseCall(j, m4, open, "f", m4.st, 3);
    assert [] + [5] == [5];
    AddToList(MachineF(After(a, b, x, NEW, made), open), 5, MachineF(After(a, b, x, ListOf([5]), made), open));
  }

  /** Compiling r: both uses of the parameter now read a / b / x. */
  lemma CompileSharing(a: string, b: string, x: string)
    ensures var env := EnvOf(Sharing(a, b, x));
            Acyclic(env, RANKS) && GoodStore(env, EMPTY) &&
            CreateF(env, RANKS, EMPTY, "r", []) ==
            Result.Done((Store(After(a, b, x, List([5], "r", false), List([3, 3], "f", false)), CACHE), 0))
  {
    hide CreateF, Run, Acyclic, WfGrammar, Sharing, Pre, GoodStore, PrintAll, Print, EnvOf, TokenRule;
    hide LevelOf, RankOf, StartRule, After, Named, BodyOfR;
    SharingIsWellFormed(a, b, x);
    JobRReady(a, b, x);
    OpenR(a, b, x);
    SlashR(a, b, x);
    CloseR(a, b, x);
    var m5 := MachineF(After(a, b, x, ListOf([5]), List([3, 3], "f", false)), [Entry(0, "")]);
    CreateUnfolds(JobR(a, b, x), EMPTY, "r", m5);
    NamedRoot(a, b, x);
  }

  lemma NamedRoot(a: string, b: string, x: string)
    ensures var gr, made := Sharing(a, b, x), List([3, 3], "f", false);
            var nodes := After(a, b, x, ListOf([5]), made);
            Named(gr, Store(nodes, CACHE), 0, "r") == Store(After(a, b, x, List([5], "r", false), made), CACHE)
  {
    var root, made := List([5], "r", false), List([3, 3], "f", false);
    assert After(a, b, x, ListOf([5]), made)[0 := root] == After(a, b, x, root, made);
  }

  // ----- what it recognises, and what it says -----

  /** Token i is one of the words, whatever its case. */
  predicate IsOne(ts: seq<Token>, i: nat, words: set<string>)
  {
    i < |ts| && Lower(ts[i].text) in words
  }

  function OneWord(ts: seq<Token>, i: nat, words: set<string>): (r: Rec)
  {
    if IsOne(ts, i, words) then Yes(i + 1) else No
  }

  function TwoWords(ts: seq<Token>, i: nat, first: set<string>, second: set<string>): (r: Rec)
  {
    if IsOne(ts, i, first) && IsOne(ts, i + 1, second) then Yes(i + 2) else No
  }

  function ReadingOf(a: string, b: string, x: string, kw: Keywords, ts: seq<Token>): Reading
  {
    Reading(Sharing(a, b, x), map[], kw, ts)
  }

  function SharedGraph(a: string, b: string, x: string): Graph
  {
    After(a, b, x, List([5], "r", false), List([3, 3], "f", false))
  }

  lemma LeafReads(c: Ctx, id: nat, word: string, i: nat, f: nat)
    requires Closed(c.g) && id < |c.g| && c.g[id] == Key(word) && f > 0
    ensures Recognised(PegParse.ParseF(c, id, i, f)) == OneWord(c.ts, i, {Lower(word)})
  {
  }

  lemma ChoiceReads(c: Ctx, a: string, b: string, x: string, i: nat, f: nat)
    requires c.g == SharedGraph(a, b, x) && Closed(c.g) && f > 1
    ensures Recognised(PegParse.ParseF(c, 3, i, f)) == OneWord(c.ts, i, {Lower(a), Lower(b), Lower(x)})
  {
    LeafReads(c, 2, a, i, f - 1);
    LeafReads(c, 4, b, i, f - 1);
    LeafReads(c, 6, x, i, f - 1);
    assert [2, 4, 6][1..] == [4, 6] && [4, 6][1..] == [6] && [6][1..] == [];
    hide Lower;
    assert PegParse.ParseChoiceF(c, [], 3, i, f - 1) == PegParse.Done(PegParse.Fail, 0);
    ghost var last := PegParse.ParseChoiceF(c, [6], 2, i, f - 1);
    assert Recognised(last) == OneWord(c.ts, i, {Lower(x)});
    assert Recognised(PegParse.ParseChoiceF(c, [4, 6], 1, i, f - 1)) == OneWord(c.ts, i, {Lower(b), Lower(x)});
  }

  lemma GraphReads(c: Ctx, a: string, b: string, x: string, i: nat, f: nat)
    requires c.g == SharedGraph(a, b, x) && Closed(c.g) && f > 3
    ensures var words := {Lower(a), Lower(b), Lower(x)};
            Recognised(PegParse.ParseF(c, 0, i, f)) == TwoWords(c.ts, i, words, words)
  {
    ListReads(c, a, b, x, i, f - 1);
    assert c.g[0] == List([5], "r", false) && [5][1..] == [];
    hide Lower;
    var r := PegParse.ParseF(c, 5, i, f - 1);
    if Recognised(r).Yes? {
      assert PegParse.ParseListF(c, [], "r", i, r.out.end, [] + [r.out.tree], f - 1).Done?;
    }
  }

  lemma ListReads(c: Ctx, a: string, b: string, x: string, i: nat, f: nat)
    requires c.g == SharedGraph(a, b, x) && Closed(c.g) && f > 2
    ensures var words := {Lower(a), Lower(b), Lower(x)};
            Recognised(PegParse.ParseF(c, 5, i, f)) == TwoWords(c.ts, i, words, words)
  {
    ChoiceReads(c, a, b, x, i, f - 1);
    ChoiceReads(c, a, b, x, i + 1, f - 1);
    assert c.g[5] == List([3, 3], "f", false) && [3, 3][1..] == [3] && [3][1..] == [];
    hide Lower;
    var r := PegParse.ParseF(c, 3, i, f - 1);
    if Recognised(r).Yes? {
      assert Recognised(PegParse.ParseListF(c, [3], "f", i, i + 1, [] + [r.out.tree], f - 1)) ==
             (if IsOne(c.ts, i + 1, {Lower(a), Lower(b), Lower(x)}) then Yes(i + 2) else No);
    }
  }

  /** The argument a / b, read where the parameter is used. */
  lemma ArgumentReads(w: Reading, a: string, b: string, i: nat, f: nat)
    requires Meaningful(w) && WfElem(w.gr, None, Alt(Lit(a), [Lit(b)])) && f > 1
    ensures Read(w, NoBind, None, Alt(Lit(a), [Lit(b)]), i, f) == OneWord(w.ts, i, {Lower(a), Lower(b)})
  {
    WfCons(w.gr, None, Lit(a), [Lit(b)]);
    assert [Lit(a)] + [Lit(b)] == [Lit(a), Lit(b)] && [Lit(a), Lit(b)][1..] == [Lit(b)] && [Lit(b)][1..] == [];
    assert ReadFirst(w, NoBind, None, [], i, f - 1) == No;
    assert ReadFirst(w, NoBind, None, [Lit(b)], i, f - 1) == OneWord(w.ts, i, {Lower(b)});
    assert Read(w, NoBind, None, Lit(a), i, f - 1) == OneWord(w.ts, i, {Lower(a)});
    assert ReadFirst(w, NoBind, None, [Lit(a), Lit(b)], i, f - 1) == OneWord(w.ts, i, {Lower(a), Lower(b)});
  }

  /** The parameter, and the parameter or x. */
  lemma ParameterReads(w: Reading, bind: Bind, a: string, b: string, x: string, i: nat, f: nat)
    requires Meaningful(w) && WfElem(w.gr, None, Alt(Lit(a), [Lit(b)])) && f > 2
    requires bind == Bind([Alt(Lit(a), [Lit(b)])], None, NoBind) && WfBind(w.gr, bind, Some("D"))
    requires WfElem(w.gr, Some("D"), Alt(Param, [Lit(x)]))
    ensures Read(w, bind, Some("D"), Param, i, f) == OneWord(w.ts, i, {Lower(a), Lower(b)})
    ensures Read(w, bind, Some("D"), Alt(Param, [Lit(x)]), i, f) == OneWord(w.ts, i, {Lower(a), Lower(b), Lower(x)})
  {
    ArgumentReads(w, a, b, i, f);
    ArgumentReads(w, a, b, i, f - 1);
    hide Lower;
    WfCons(w.gr, Some("D"), Param, [Lit(x)]);
    assert [Param] + [Lit(x)] == [Param, Lit(x)] && [Param, Lit(x)][1..] == [Lit(x)] && [Lit(x)][1..] == [];
    assert ReadFirst(w, bind, Some("D"), [], i, f - 1) == No;
    assert ReadFirst(w, bind, Some("D"), [Lit(x)], i, f - 1) == OneWord(w.ts, i, {Lower(x)});
    assert Read(w, bind, Some("D"), Param, i, f - 1) == OneWord(w.ts, i, {Lower(a), Lower(b)});
  }

  /** The rule trees say: a or b, then a, b or x. */
  lemma TreeReads(a: string, b: string, x: string, kw: Keywords, ts: seq<Token>, i: nat, f: nat)
    requires f > 4
    ensures var w := ReadingOf(a, b, x, kw, ts);
            Meaningful(w) && WfElem(w.gr, None, Ref("r")) && WfBind(w.gr, NoBind, None) &&
            Read(w, NoBind, None, Ref("r"), i, f) ==
                TwoWords(ts, i, {Lower(a), Lower(b)}, {Lower(a), Lower(b), Lower(x)})
  {
    Letters();
    SharingIsWellFormed(a, b, x);
    var w := ReadingOf(a, b, x, kw, ts);
    var f', d: Option<string>, arg := f - 2, Some("D"), Alt(Lit(a), [Lit(b)]);
    var bind, body, call := Bind([arg], None, NoBind), [Param, Alt(Param, [Lit(x)])], Call("f", [arg]);
    assert w.gr.rules["r"].body == [call] && w.gr.rules["f"] == RuleTree(d, body);
    assert WfAll(w.gr, None, [call]) && WfAll(w.gr, d, body);
    assert WfElem(w.gr, None, call) by { assert [call][0] == call; }
    assert WfElem(w.gr, None, arg) by { assert WfAll(w.gr, None, [arg]) && [arg][0] == arg; }
    assert WfElem(w.gr, d, body[1]);
    ParameterReads(w, bind, a, b, x, i, f');
    ParameterReads(w, bind, a, b, x, i + 1, f');
    hide Lower, WfElem, WfGrammar;
    assert body[1..] == [body[1]] && [body[1]][1..] == [] && [call][1..] == [];
    assert ReadAll(w, bind, d, [body[1]], i + 1, f') ==
           (if IsOne(ts, i + 1, {Lower(a), Lower(b), Lower(x)}) then Yes(i + 2) else No);
    assert ReadAll(w, bind, d, body, i, f') == TwoWords(ts, i, {Lower(a), Lower(b)}, {Lower(a), Lower(b), Lower(x)});
    assert Read(w, NoBind, None, call, i, f - 1) == ReadAll(w, bind, d, body, i, f');
    assert ReadAll(w, NoBind, None, [call], i, f - 1) == Read(w, NoBind, None, call, i, f - 1);
  }

  /** The compiled grammar and its rule trees agree on every token list if and only if the keyword that f
      adds is already one of the argument's: otherwise f has changed what its argument means. */
  lemma SharingKeepsMeaningIff(a: string, b: string, x: string, kw: Keywords)
    ensures Closed(SharedGraph(a, b, x)) && CreatesGraph(a, b, x)
    ensures (forall ts, i, f: nat :: f > 4 ==> SameReading(a, b, x, kw, ts, i, f)) <==>
            Lower(x) == Lower(a) || Lower(x) == Lower(b)
  {
    hide CreateF, Acyclic, GoodStore, Sharing, PegParse.ParseF, Read, Meaningful, WfElem, Lower, EnvOf;
    CompileSharing(a, b, x);
    assert Closed(SharedGraph(a, b, x)) by { StoreIsClosed(EnvOf(Sharing(a, b, x)), RANKS, EMPTY, "r"); }
    if Lower(x) == Lower(a) || Lower(x) == Lower(b) {
      forall ts, i, f: nat | f > 4 ensures SameReading(a, b, x, kw, ts, i, f) {
        GraphReads(Ctx(SharedGraph(a, b, x), kw, ts), a, b, x, i, f);
        TreeReads(a, b, x, kw, ts, i, f);
        assert {Lower(a), Lower(b), Lower(x)} == {Lower(a), Lower(b)};
      }
    } else {
      var ts := [Token(x, 0), Token(x, |x|)];
      GraphReads(Ctx(SharedGraph(a, b, x), kw, ts), a, b, x, 0, 5);
      TreeReads(a, b, x, kw, ts, 0, 5);
      assert !SameReading(a, b, x, kw, ts, 0, 5);
    }
  }

  lemma StoreIsClosed(env: Env, rk: Ranking, st: Store, name: string)
    requires Acyclic(env, rk) && GoodStore(env, st)
    ensures var r := CreateF(env, rk, st, name, []); r.Done? ==> Closed(r.value.0.nodes)
  {
    hide CreateF;
  }

  ghost predicate CreatesGraph(a: string, b: string, x: string)
  {
    var env := EnvOf(Sharing(a, b, x));
    Acyclic(env, RANKS) && GoodStore(env, EMPTY) &&
    CreateF(env, RANKS, EMPTY, "r", []) == Result.Done((Store(SharedGraph(a, b, x), CACHE), 0))
  }

  ghost predicate SameReading(a: string, b: string, x: string, kw: Keywords, ts: seq<Token>, i: nat, f: nat)
  {
    var w := ReadingOf(a, b, x, kw, ts);
    Meaningful(w) && WfElem(w.gr, None, Ref("r")) && WfBind(w.gr, NoBind, None) && Closed(SharedGraph(a, b, x)) &&
    Recognised(PegParse.ParseF(Ctx(SharedGraph(a, b, x), kw, ts), 0, i, f)) == Read(w, NoBind, None, Ref("r"), i, f)
  }
}
