/** `MatcherFactory` as the source writes it: an arena and a rule cache that the token loop of
    `CreateMatcher` updates in place, with a local stack of open brackets. */
module PegFactory {
  import opened PegGraph
  import opened PegCompiler

  class MatcherFactory {
    const env: Env
    var nodes: Graph
    var cache: map<string, nat>

    constructor (env: Env, nodes: Graph, cache: map<string, nat>)
      ensures this.env == env && this.nodes == nodes && this.cache == cache
    {
      this.env := env;
      this.nodes := nodes;
      this.cache := cache;
    }

    ghost function View(): Store
      reads this
    {
      Store(nodes, cache)
    }

    method Allocate(n: Node) returns (id: nat)
      modifies this`nodes
      ensures (View(), id) == Alloc(old(View()), n)
    {
      id := |nodes|;
      nodes := nodes + [n];
    }

    method Replace(id: nat, children: seq<nat>)
      requires id < |nodes| && HasChildren(nodes[id])
      modifies this`nodes
      ensures View() == SetChildren(old(View()), id, children)
    {
      var n := nodes[id];
      nodes := nodes[id := if n.List? then n.(children := children) else Choice(children)];
    }

    /** Add a matcher to what is open; an open choice is closed by it. */
    method AddTo(stack: seq<Entry>, id: nat) returns (r: Result<seq<Entry>>)
      requires |stack| > 0 && stack[|stack| - 1].id < |nodes|
      modifies this`nodes
      ensures Matches(r, View(), AddMatcher(Machine(old(View()), stack), id))
    {
      var top := stack[|stack| - 1].id;
      match nodes[top] {
        case List(children, _, _) =>
          Replace(top, children + [id]);
          r := Done(stack);
        case Choice(children) =>
          if |stack| <= 1 {
            return Failed(ChoiceAtRoot);
          }
          Replace(top, children + [id]);
          r := Done(stack[..|stack| - 1]);
        case _ => r := Failed(CannotAdd);
      }
    }

    method ApplyPostfix(stack: seq<Entry>, op: char) returns (r: Result<seq<Entry>>)
      requires |stack| > 0 && stack[|stack| - 1].id < |nodes|
      modifies this`nodes
      ensures Matches(r, View(), Postfix(Machine(old(View()), stack), op))
    {
      var top := stack[|stack| - 1].id;
      if !nodes[top].List? {
        return Failed(ExpectedList);
      }
      var children := nodes[top].children;
      if children == [] {
        return Failed(OperatorFirst);
      }
      var last := children[|children| - 1];
      if op != '?' {
        last := Allocate(Repeat(last));
      }
      if op != '+' {
        last := Allocate(Optional(last));
      }
      Replace(top, children[..|children| - 1] + [last]);
      r := Done(stack);
    }

    method ApplyOr(stack: seq<Entry>) returns (r: Result<seq<Entry>>)
      requires |stack| > 0 && stack[|stack| - 1].id < |nodes| && Closed(nodes)
      modifies this`nodes
      ensures Matches(r, View(), OrOperator(Machine(old(View()), stack)))
    {
      var top := stack[|stack| - 1].id;
      if !nodes[top].List? {
        return Failed(ExpectedList);
      }
      var children := nodes[top].children;
      if children == [] {
        return Failed(OperatorFirst);
      }
      assert ChildrenOf(nodes[top]) == children;
      var last := children[|children| - 1];
      if nodes[last].Choice? {
        return Done(stack + [Entry(last, "")]);
      }
      var choice := Allocate(Choice([last]));
      Replace(top, children[..|children| - 1] + [choice]);
      r := Done(stack + [Entry(choice, "")]);
    }

    method Keyword(text: string) returns (id: nat)
      modifies this`nodes
      ensures (View(), id) == KeywordMatcher(env, old(View()), text)
    {
      if Lower(text) in env.overrides {
        return env.overrides[Lower(text)];
      }
      id := Allocate(LeafNode(PegGraph.Keyword(text)));
    }

    /** The store and the stack after a successful step are those of the specification. */
    static ghost predicate Matches(r: Result<seq<Entry>>, st: Store, s: Result<Machine>)
    {
      if s.Done? then r == Done(s.value.stack) && st == s.value.st else r == Failed(s.error)
    }

    /** Creates the matcher of a rule, or returns the cached one. It terminates whenever calls of
        parameterised rules are acyclic: rules left to cache, then rank, then tokens left. */
    method CreateMatcher(name: string, args: seq<nat>, ghost rk: Ranking) returns (r: Result<nat>)
      requires Acyclic(env, rk) && GoodStore(env, View()) && Ids(nodes, args)
      modifies this
      ensures var s := CreateF(env, rk, old(View()), name, args);
              if s.Done? then r == Done(s.value.1) && View() == s.value.0 else r == Failed(s.error)
      decreases if args == [] then Uncached(env, View()) + ({name} - cache.Keys) else Uncached(env, View()),
                if args == [] then 0 else RankOf(rk, name),
                if args == [] then 0 else 3 + |TokensOf(env, name)|, 0
    {
      if args == [] && name in cache {
        return Done(cache[name]);
      }
      if Lower(name) !in env.rules {
        return Failed(MissingRule);
      }
      ghost var before := View();
      var rule := env.rules[Lower(name)];
      var root := Allocate(List([], "", false));
      if args == [] {
        cache := cache[name := root];
      }
      assert View() == StartRule(env, before, name, args);
      if |rule.params| > 1 {
        return Failed(TooManyParameters);
      }
      if |args| != |rule.params| {
        return Failed(ParameterMismatch);
      }
      assert args == [] ==> Uncached(env, View()) < Uncached(env, before) + ({name} - before.cache.Keys) by {
        if args == [] {
          assert name in Uncached(env, before) + ({name} - before.cache.Keys) && name !in Uncached(env, View());
        }
      }
      assert args != [] ==> Uncached(env, View()) == Uncached(env, before);
      var stack := Fill(rule, args, [Entry(root, "")], rk, LevelOf(rk, name, rule));
      if stack.Failed? {
        return Failed(stack.error);
      }
      if |stack.value| != 1 {
        return Failed(UnclosedBracket);
      }
      nodes := nodes[root := nodes[root].(name := name, suppress := name in env.silent)];
      r := Done(root);
    }

    /** The token loop. */
    method Fill(rule: PegRule, args: seq<nat>, start: seq<Entry>, ghost rk: Ranking, ghost level: nat)
      returns (r: Result<seq<Entry>>)
      requires RunPre(env, rk, rule, args, level, Machine(View(), start), rule.tokens)
      modifies this
      ensures Matches(r, View(), RunF(env, rk, rule, args, level, Machine(old(View()), start), rule.tokens))
      decreases Uncached(env, View()), level, 2 + |rule.tokens|, 0
    {
      hide RunF, StepF, RunPre;
      var stack := start;
      ghost var total := RunF(env, rk, rule, args, level, Machine(View(), start), rule.tokens);
      var k := 0;
      assert rule.tokens[0..] == rule.tokens;
      while k < |rule.tokens|
        invariant 0 <= k <= |rule.tokens|
        invariant Uncached(env, View()) <= Uncached(env, old(View()))
        invariant RunPre(env, rk, rule, args, level, Machine(View(), stack), rule.tokens[k..])
        invariant total == RunF(env, rk, rule, args, level, Machine(View(), stack), rule.tokens[k..])
      {
        ghost var rest := rule.tokens[k..];
        var token := rule.tokens[k];
        assert rest[0] == token && rest[1..] == rule.tokens[k + 1..];
        RunStep(env, rk, rule, args, level, Machine(View(), stack), rest);
        assert Uncached(env, View()) == Uncached(env, old(View())) ||
               Uncached(env, View()) < Uncached(env, old(View()));
        r := Apply(rule, args, stack, token, rk, level, |rest|);
        if r.Failed? {
          return;
        }
        stack := r.value;
        k := k + 1;
      }
      assert rule.tokens[k..] == [];
      NoTokens(rule, args, stack, rk, level);
      r := Done(stack);
    }

    lemma NoTokens(rule: PegRule, args: seq<nat>, stack: seq<Entry>, rk: Ranking, level: nat)
      requires RunPre(env, rk, rule, args, level, Machine(View(), stack), [])
      ensures RunF(env, rk, rule, args, level, Machine(View(), stack), []) == Done(Machine(View(), stack))
    {
    }

    method Apply(rule: PegRule, args: seq<nat>, stack: seq<Entry>, t: PegToken, ghost rk: Ranking, ghost level: nat,
                 ghost left: nat)
      returns (r: Result<seq<Entry>>)
      requires RunPre(env, rk, rule, args, level, Machine(View(), stack), [t]) && left > 0
      modifies this
      ensures Matches(r, View(), StepF(env, rk, rule, args, level, Machine(old(View()), stack), t, left))
      decreases Uncached(env, View()), level, 1 + left, 0
    {
      assert t in [t];
      match t {
        case Literal(text) =>
          var id := Keyword(text);
          r := AddTo(stack, id);
        case Reference(name) =>
          if name in rule.params {
            r := AddTo(stack, args[IndexOf(rule.params, name)]);
          } else {
            ghost var st := View();
            assert name in Names(env) by { ReferenceIsNamed(env, rule, [t]); assert name in ReferencesIn([t]); }
            assert Uncached(env, st) + ({name} - st.cache.Keys) == Uncached(env, st);
            var id := CreateMatcher(name, [], rk);
            if id.Failed? {
              return Failed(id.error);
            }
            r := AddTo(stack, id.value);
          }
        case FunctionCall(fn) =>
          var id := Allocate(List([], "", false));
          r := Done(stack + [Entry(id, fn)]);
        case Regex => r := Failed(RegexToken);
        case Op(op) =>
          if op == '?' || op == '*' || op == '+' {
            r := ApplyPostfix(stack, op);
          } else if op == '/' {
            r := ApplyOr(stack);
          } else if op == '(' {
            var id := Allocate(List([], "", false));
            r := Done(stack + [Entry(id, "")]);
          } else if op == ')' {
            r := CloseBracket(stack, rk, level, left);
          } else if op == '!' {
            r := Done(stack);
          } else {
            r := Failed(UnknownOperator);
          }
      }
    }

    method CloseBracket(stack: seq<Entry>, ghost rk: Ranking, ghost level: nat, ghost left: nat)
      returns (r: Result<seq<Entry>>)
      requires Acyclic(env, rk) && GoodStore(env, View()) && GoodStack(View(), stack) &&
               OpenCallsBelow(rk, level, stack) && left > 0
      modifies this
      ensures Matches(r, View(), CloseF(env, rk, level, Machine(old(View()), stack), left))
      decreases Uncached(env, View()), level, left, 0
    {
      hide Acyclic, RankOf, Closed, CreateF, AddMatcher, Ids;
      if |stack| <= 1 {
        return Failed(TooManyCloseBrackets);
      }
      var top, below := stack[|stack| - 1], stack[..|stack| - 1];
      if top.fn == "" {
        r := AddTo(below, top.id);
        return;
      }
      assert nodes[top.id].List?;
      ghost var before := View();
      CallParameterGood(env, before, top.id);
      var children := nodes[top.id].children;
      var p: nat;
      if |children| == 1 {
        p := children[0];
      } else {
        p := Allocate(List(children, "", false));
      }
      assert (View(), p) == CallParameter(before, top.id);
      assert Uncached(env, View()) == Uncached(env, before);
      var call := CreateMatcher(top.fn, [p], rk);
      if call.Failed? {
        return Failed(call.error);
      }
      r := AddTo(below, call.value);
    }
  }
}
