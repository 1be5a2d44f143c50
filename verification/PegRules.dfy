/** Rules as trees, their token form, when a grammar of trees is well formed, and the matchers that a
    tree stands for. */
module PegRules {
  import opened Wrappers
  import opened PegGraph
  import opened PegCompiler

  /** `?`, `*`, `+` and `/` are postfix operators on the last element of the open bracket, so only
      bracketed or single-token elements may follow a `/`, and runs of `/` are one choice. */
  datatype Elem =
    | Lit(text: string)
    | Ref(name: string)
    | Param
    | Group(items: seq<Elem>)
    | Call(fn: string, args: seq<Elem>)
    | Opt(elem: Elem)
    | Star(elem: Elem)
    | Plus(elem: Elem)
    | Alt(first: Elem, rest: seq<Elem>)

  datatype RuleTree = RuleTree(param: Option<string>, body: seq<Elem>)

  /** `builtins` are the names that the factory maps to leaf matchers beforehand. */
  datatype Grammar = Grammar(rules: map<string, RuleTree>, builtins: set<string>,
                             overrides: map<string, nat>, silent: set<string>)

  // ----- printing -----

  function Print(param: Option<string>, e: Elem): (r: seq<PegToken>)
    decreases e, 1
  {
    match e
    case Lit(text) => [Literal(text)]
    case Ref(name) => [Reference(name)]
    case Param => [Reference(if param.Some? then param.value else "")]
    case Group(items) => [Op('(')] + PrintAll(param, items) + [Op(')')]
    case Call(fn, args) => [FunctionCall(fn)] + PrintAll(param, args) + [Op(')')]
    case Opt(elem) => Print(param, elem) + [Op('?')]
    case Star(elem) => Print(param, elem) + [Op('*')]
    case Plus(elem) => Print(param, elem) + [Op('+')]
    case Alt(first, rest) => Print(param, first) + PrintAlts(param, rest)
  }

  function PrintAll(param: Option<string>, es: seq<Elem>): (r: seq<PegToken>)
    decreases es, 0
  {
    if es == [] then [] else Print(param, es[0]) + PrintAll(param, es[1..])
  }

  function PrintAlts(param: Option<string>, es: seq<Elem>): (r: seq<PegToken>)
    decreases es, 0
  {
    if es == [] then [] else [Op('/')] + Print(param, es[0]) + PrintAlts(param, es[1..])
  }

  function TokenRule(rule: RuleTree): (r: PegRule)
  {
    PegRule(if rule.param.Some? then [rule.param.value] else [], PrintAll(rule.param, rule.body))
  }

  function EnvOf(gr: Grammar): (r: Env)
  {
    Env(map n | n in gr.rules :: TokenRule(gr.rules[n]), gr.overrides, gr.silent)
  }

  function Size(e: Elem): (n: nat)
    ensures n > 0
    decreases e, 1
  {
    match e
    case Lit(_) => 1
    case Ref(_) => 1
    case Param => 1
    case Group(items) => 2 + SizeAll(items)
    case Call(_, args) => 2 + SizeAll(args)
    case Opt(elem) => 2 + Size(elem)
    case Star(elem) => 2 + Size(elem)
    case Plus(elem) => 2 + Size(elem)
    case Alt(first, rest) => 2 + Size(first) + SizeAll(rest)
  }

  function SizeAll(es: seq<Elem>): (n: nat)
    decreases es, 0
  {
    if es == [] then 0 else 1 + Size(es[0]) + SizeAll(es[1..])
  }

  // ----- well-formed rules -----

  predicate Atom(e: Elem)
  {
    e.Lit? || e.Ref? || e.Param? || e.Group? || e.Call?
  }

  predicate WfElem(gr: Grammar, param: Option<string>, e: Elem)
    decreases e, 1
  {
    match e
    case Lit(_) => true
    case Ref(name) =>
      param != Some(name) &&
      (name in gr.builtins || (Lower(name) in gr.rules && gr.rules[Lower(name)].param.None?))
    case Param => param.Some?
    case Group(items) => WfAll(gr, param, items)
    case Call(fn, args) =>
      fn != "" && Lower(fn) in gr.rules && gr.rules[Lower(fn)].param.Some? && WfAll(gr, param, args)
    case Opt(elem) => WfElem(gr, param, elem)
    case Star(elem) => WfElem(gr, param, elem)
    case Plus(elem) => WfElem(gr, param, elem)
    case Alt(first, rest) =>
      |rest| > 0 && !first.Alt? && WfElem(gr, param, first) &&
      WfAll(gr, param, rest) && forall k :: 0 <= k < |rest| ==> Atom(rest[k])
  }

  predicate WfAll(gr: Grammar, param: Option<string>, es: seq<Elem>)
    decreases es, 0
  {
    forall k :: 0 <= k < |es| ==> WfElem(gr, param, es[k])
  }

  ghost predicate WfGrammar(gr: Grammar)
  {
    forall n :: n in gr.rules ==> WfAll(gr, gr.rules[n].param, gr.rules[n].body)
  }

  // ----- no choice reaches a parameter that a `/` follows -----

  /** The element's matcher is not a choice; `own` says so of the enclosing rule's parameter. */
  predicate NoChoice(own: bool, e: Elem)
  {
    !e.Alt? && (e.Param? ==> own)
  }

  /** The rules that are in use, and those whose parameter must not be a choice. */
  datatype Usage = Usage(live: set<string>, firm: set<string>)

  /** The element uses live rules only, hands no choice to a firm rule, and has a `/` after the enclosing
      rule's parameter only if that is known to be no choice. */
  predicate FirmElem(gr: Grammar, u: Usage, own: bool, e: Elem)
    decreases e, 1
  {
    match e
    case Lit(_) => true
    case Ref(name) => name in gr.builtins || Lower(name) in u.live
    case Param => true
    case Group(items) => FirmAll(gr, u, own, items)
    case Call(fn, args) =>
      Lower(fn) in u.live && FirmAll(gr, u, own, args) &&
      (Lower(fn) in u.firm && |args| == 1 ==> NoChoice(own, args[0]))
    case Opt(elem) => FirmElem(gr, u, own, elem)
    case Star(elem) => FirmElem(gr, u, own, elem)
    case Plus(elem) => FirmElem(gr, u, own, elem)
    case Alt(first, rest) => NoChoice(own, first) && FirmElem(gr, u, own, first) && FirmAll(gr, u, own, rest)
  }

  predicate FirmAll(gr: Grammar, u: Usage, own: bool, es: seq<Elem>)
    decreases es, 0
  {
    forall k :: 0 <= k < |es| ==> FirmElem(gr, u, own, es[k])
  }

  ghost predicate Firm(gr: Grammar, u: Usage)
  {
    forall n :: n in gr.rules && n in u.live ==> FirmAll(gr, u, n in u.firm, gr.rules[n].body)
  }

  ghost predicate Starts(gr: Grammar, u: Usage, root: string)
  {
    root in gr.builtins || Lower(root) in u.live
  }

  /** Among the rules that the root leads to, no call hands a choice to a rule in which a `/` follows the
      parameter, directly or through the calls of other rules. */
  ghost predicate Sparing(gr: Grammar, root: string)
  {
    exists u :: Starts(gr, u, root) && Firm(gr, u)
  }

  // ----- the matchers that a rule tree stands for -----

  /** Matcher id is built as e says. All matchers of the element itself lie in [lo, hi); references
      go to the cached rule, built or not, and a parameter to the matcher it was given. */
  ghost predicate Rep(gr: Grammar, rk: Ranking, st: Store, lo: nat, hi: nat, level: nat, param: Option<nat>, e: Elem,
                      id: nat)
    decreases level, e, 1
  {
    id < |st.nodes| &&
    match e
    case Lit(text) =>
      if Lower(text) in gr.overrides then id == gr.overrides[Lower(text)]
      else lo <= id < hi && st.nodes[id] == LeafNode(Keyword(text))
    case Ref(name) => name in st.cache && id == st.cache[name]
    case Param => param == Some(id)
    case Group(items) =>
      lo <= id < hi && st.nodes[id].List? && st.nodes[id].name == "" && !st.nodes[id].suppress &&
      RepAll(gr, rk, st, lo, hi, level, param, items, st.nodes[id].children)
    case Call(fn, args) =>
      lo <= id < hi && st.nodes[id].List? && st.nodes[id].name == fn && st.nodes[id].suppress == (fn in gr.silent) &&
      Lower(fn) in gr.rules && RankOf(rk, fn) < level &&
      exists p :: RepArg(gr, rk, st, lo, hi, level, param, args, p) &&
                  RepAll(gr, rk, st, lo, hi, RankOf(rk, fn), Some(p), gr.rules[Lower(fn)].body, st.nodes[id].children)
    case Opt(elem) =>
      lo <= id < hi && st.nodes[id].Optional? && Rep(gr, rk, st, lo, hi, level, param, elem, st.nodes[id].child)
    case Star(elem) =>
      lo <= id < hi && st.nodes[id].Optional? && lo <= st.nodes[id].child < hi && st.nodes[id].child < |st.nodes| &&
      st.nodes[st.nodes[id].child].Repeat? &&
      Rep(gr, rk, st, lo, hi, level, param, elem, st.nodes[st.nodes[id].child].child)
    case Plus(elem) =>
      lo <= id < hi && st.nodes[id].Repeat? && Rep(gr, rk, st, lo, hi, level, param, elem, st.nodes[id].child)
    case Alt(first, rest) =>
      lo <= id < hi && st.nodes[id].Choice? && |st.nodes[id].children| == 1 + |rest| &&
      Rep(gr, rk, st, lo, hi, level, param, first, st.nodes[id].children[0]) &&
      RepAll(gr, rk, st, lo, hi, level, param, rest, st.nodes[id].children[1..])
  }

  ghost predicate RepAll(gr: Grammar, rk: Ranking, st: Store, lo: nat, hi: nat, level: nat, param: Option<nat>,
                         es: seq<Elem>, ids: seq<nat>)
    decreases level, es, 0
  {
    |es| == |ids| && forall k :: 0 <= k < |es| ==> Rep(gr, rk, st, lo, hi, level, param, es[k], ids[k])
  }

  /** The parameter of a call: the single argument itself, or a nameless list of the several. */
  ghost predicate RepArg(gr: Grammar, rk: Ranking, st: Store, lo: nat, hi: nat, level: nat, param: Option<nat>,
                         args: seq<Elem>, p: nat)
    decreases level, args, 1
  {
    if |args| == 1 then Rep(gr, rk, st, lo, hi, level, param, args[0], p)
    else lo <= p < hi && p < |st.nodes| && st.nodes[p].List? && st.nodes[p].name == "" && !st.nodes[p].suppress &&
         RepAll(gr, rk, st, lo, hi, level, param, args, st.nodes[p].children)
  }

  /** The plain rule n is cached and fully built, all of it in [lo, hi). */
  ghost predicate BuiltIn(gr: Grammar, rk: Ranking, st: Store, n: string, lo: nat, hi: nat)
  {
    n in st.cache && Lower(n) in gr.rules && gr.rules[Lower(n)].param.None? &&
    var id := st.cache[n];
    lo <= id < hi <= |st.nodes| && st.nodes[id].List? && st.nodes[id].name == n &&
    st.nodes[id].suppress == (n in gr.silent) &&
    RepAll(gr, rk, st, lo, hi, rk.top, None, gr.rules[Lower(n)].body, st.nodes[id].children)
  }

  ghost predicate Extends(st: Store, st': Store)
  {
    |st.nodes| <= |st'.nodes| && forall n :: n in st.cache ==> n in st'.cache && st'.cache[n] == st.cache[n]
  }

  ghost predicate SameOn(st: Store, st': Store, lo: nat, hi: nat)
    requires |st.nodes| <= |st'.nodes|
  {
    forall k :: lo <= k < hi && k < |st.nodes| ==> st'.nodes[k] == st.nodes[k]
  }

  // ----- what is built stays built -----

  lemma {:induction false} RepFrame(gr: Grammar, rk: Ranking, st: Store, st': Store, lo: nat, hi: nat, lo': nat,
                                    hi': nat, level: nat, param: Option<nat>, e: Elem, id: nat)
    requires Extends(st, st') && SameOn(st, st', lo, hi) && lo' <= lo && hi <= hi'
    requires Rep(gr, rk, st, lo, hi, level, param, e, id)
    ensures Rep(gr, rk, st', lo', hi', level, param, e, id)
    decreases level, e, 1
  {
    match e
    case Group(items) => RepAllFrame(gr, rk, st, st', lo, hi, lo', hi', level, param, items, st.nodes[id].children);
    case Call(fn, args) =>
      var p :| RepArg(gr, rk, st, lo, hi, level, param, args, p) &&
               RepAll(gr, rk, st, lo, hi, RankOf(rk, fn), Some(p), gr.rules[Lower(fn)].body, st.nodes[id].children);
      RepArgFrame(gr, rk, st, st', lo, hi, lo', hi', level, param, args, p);
      RepAllFrame(gr, rk, st, st', lo, hi, lo', hi', RankOf(rk, fn), Some(p), gr.rules[Lower(fn)].body,
                  st.nodes[id].children);
    case Opt(elem) => RepFrame(gr, rk, st, st', lo, hi, lo', hi', level, param, elem, st.nodes[id].child);
    case Star(elem) => RepFrame(gr, rk, st, st', lo, hi, lo', hi', level, param, elem,
                                st.nodes[st.nodes[id].child].child);
    case Plus(elem) => RepFrame(gr, rk, st, st', lo, hi, lo', hi', level, param, elem, st.nodes[id].child);
    case Alt(first, rest) =>
      RepFrame(gr, rk, st, st', lo, hi, lo', hi', level, param, first, st.nodes[id].children[0]);
      RepAllFrame(gr, rk, st, st', lo, hi, lo', hi', level, param, rest, st.nodes[id].children[1..]);
    case _ =>
  }

  lemma {:induction false} RepAllFrame(gr: Grammar, rk: Ranking, st: Store, st': Store, lo: nat, hi: nat, lo': nat,
                                       hi': nat, level: nat, param: Option<nat>, es: seq<Elem>, ids: seq<nat>)
    requires Extends(st, st') && SameOn(st, st', lo, hi) && lo' <= lo && hi <= hi'
    requires RepAll(gr, rk, st, lo, hi, level, param, es, ids)
    ensures RepAll(gr, rk, st', lo', hi', level, param, es, ids)
    decreases level, es, 0
  {
    forall k | 0 <= k < |es| ensures Rep(gr, rk, st', lo', hi', level, param, es[k], ids[k]) {
      RepFrame(gr, rk, st, st', lo, hi, lo', hi', level, param, es[k], ids[k]);
    }
  }

  lemma {:induction false} RepArgFrame(gr: Grammar, rk: Ranking, st: Store, st': Store, lo: nat, hi: nat, lo': nat,
                                       hi': nat, level: nat, param: Option<nat>, args: seq<Elem>, p: nat)
    requires Extends(st, st') && SameOn(st, st', lo, hi) && lo' <= lo && hi <= hi'
    requires RepArg(gr, rk, st, lo, hi, level, param, args, p)
    ensures RepArg(gr, rk, st', lo', hi', level, param, args, p)
    decreases level, args, 1
  {
    if |args| == 1 {
      RepFrame(gr, rk, st, st', lo, hi, lo', hi', level, param, args[0], p);
    } else {
      RepAllFrame(gr, rk, st, st', lo, hi, lo', hi', level, param, args, st.nodes[p].children);
    }
  }

  lemma BuiltFrame(gr: Grammar, rk: Ranking, st: Store, st': Store, n: string, lo: nat, hi: nat, lo': nat, hi': nat)
    requires Extends(st, st') && SameOn(st, st', lo, hi) && lo' <= lo && hi <= hi' <= |st'.nodes|
    requires BuiltIn(gr, rk, st, n, lo, hi)
    ensures BuiltIn(gr, rk, st', n, lo', hi')
  {
    RepAllFrame(gr, rk, st, st', lo, hi, lo', hi', rk.top, None, gr.rules[Lower(n)].body,
                st.nodes[st.cache[n]].children);
  }

  /** Every rule cached since st is fully built, out of matchers allocated since st. */
  ghost predicate NewBuilt(gr: Grammar, rk: Ranking, st: Store, st': Store)
  {
    forall n :: n in st'.cache && n !in st.cache ==> BuiltIn(gr, rk, st', n, |st.nodes|, |st'.nodes|)
  }

  lemma NewBuiltTrans(gr: Grammar, rk: Ranking, a: Store, b: Store, c: Store)
    requires Extends(a, b) && Extends(b, c) && SameOn(b, c, |a.nodes|, |b.nodes|)
    requires NewBuilt(gr, rk, a, b) && NewBuilt(gr, rk, b, c)
    ensures NewBuilt(gr, rk, a, c)
  {
    forall n | n in c.cache && n !in a.cache ensures BuiltIn(gr, rk, c, n, |a.nodes|, |c.nodes|) {
      if n in b.cache {
        BuiltFrame(gr, rk, b, c, n, |a.nodes|, |b.nodes|, |a.nodes|, |c.nodes|);
      } else {
        BuiltFrame(gr, rk, c, c, n, |b.nodes|, |c.nodes|, |a.nodes|, |c.nodes|);
      }
    }
  }
}
