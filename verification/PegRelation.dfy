/** The PEG relation as natural deduction: derivation trees over a matcher graph, in the style of
    Ford's semantics, for sequence, ordered choice, option and greedy one-or-more repetition.
    `ParseF` computes exactly this relation. */
module PegRelation {
  import opened Wrappers
  import opened PegGraph
  import opened PegLeaves
  import opened PegParse

  /** A judgement "matcher id, entered at token `start`, has outcome `out`" and its premises. */
  datatype Derivation = Rule(id: nat, start: nat, out: Outcome, premises: seq<Derivation>)

  ghost predicate Valid(c: Ctx, d: Derivation)
  {
    d.id < |c.g| &&
    (forall p :: p in d.premises ==> Valid(c, p)) &&
    Justified(c, d)
  }

  ghost predicate Justified(c: Ctx, d: Derivation)
    requires d.id < |c.g|
  {
    match c.g[d.id]
    case LeafNode(leaf) => d.premises == [] && LeafRule(c, leaf, d.start, d.out)
    case List(children, name, _) => ListRule(c, children, name, d)
    case Optional(child) => OptionalRule(c, child, d)
    case Choice(children) => ChoiceRule(c, children, d)
    case Repeat(child) => RepeatRule(c, child, d)
  }

  ghost predicate LeafRule(c: Ctx, leaf: Leaf, i: nat, out: Outcome)
  {
    if i < |c.ts| && Accepts(c.kw, leaf, c.ts[i].text)
    then out == Ok(i + 1, LeafTree(leaf, c.ts[i].text, c.ts[i].offset))
    else if i < |c.ts| && Throws(leaf, c.ts[i].text) then out == Thrown
    else out == Fail
  }

  /** Premises follow one another from `start`: each but the last succeeds where the next begins. */
  ghost predicate Chain(start: nat, ps: seq<Derivation>)
  {
    (|ps| > 0 ==> ps[0].start == start) &&
    forall k :: 0 <= k < |ps| - 1 ==> ps[k].out.Ok? && ps[k + 1].start == ps[k].out.end
  }

  ghost predicate AllOk(ps: seq<Derivation>)
  {
    forall k :: 0 <= k < |ps| ==> ps[k].out.Ok?
  }

  ghost function EndOf(start: nat, ps: seq<Derivation>): nat
    requires AllOk(ps)
  {
    if ps == [] then start else ps[|ps| - 1].out.end
  }

  ghost function TreesOf(ps: seq<Derivation>): seq<Tree>
    requires AllOk(ps)
  {
    seq(|ps|, k requires 0 <= k < |ps| => ps[k].out.tree)
  }

  /** Sequence: the children in order; the first that does not succeed decides. */
  ghost predicate ListRule(c: Ctx, children: seq<nat>, name: string, d: Derivation)
  {
    var ps := d.premises;
    |ps| <= |children| && (forall k :: 0 <= k < |ps| ==> ps[k].id == children[k]) &&
    Chain(d.start, ps) &&
    if AllOk(ps)
    then |ps| == |children| && d.out == Ok(EndOf(d.start, ps), ListTree(name, Offset(c.ts, d.start), TreesOf(ps)))
    else d.out == ps[|ps| - 1].out
  }

  ghost predicate OptionalRule(c: Ctx, child: nat, d: Derivation)
  {
    |d.premises| == 1 &&
    var p := d.premises[0];
    p.id == child && p.start == d.start &&
    match p.out
    case Fail => d.out == Ok(d.start, OptionalTree(None, None))
    case Thrown => d.out == Thrown
    case Ok(end, tree) => d.out == Ok(end, OptionalTree(Offset(c.ts, d.start), Some(tree)))
  }

  /** Ordered choice: every alternative before the deciding one fails at the same index. */
  ghost predicate ChoiceRule(c: Ctx, children: seq<nat>, d: Derivation)
  {
    var ps := d.premises;
    |ps| <= |children| &&
    (forall k :: 0 <= k < |ps| ==> ps[k].id == children[k] && ps[k].start == d.start) &&
    (forall k :: 0 <= k < |ps| - 1 ==> ps[k].out.Fail?) &&
    if |ps| > 0 && !ps[|ps| - 1].out.Fail? then
      match ps[|ps| - 1].out
      case Ok(end, tree) => d.out == Ok(end, ChoiceTree(|ps| - 1, Offset(c.ts, d.start), tree))
      case _ => d.out == Thrown
    else |ps| == |children| && d.out == Fail
  }

  /** Greedy one-or-more: successes follow one another until the tokens are exhausted or the
      element fails; every element after the first is entered on an existing token. */
  ghost predicate RepeatRule(c: Ctx, child: nat, d: Derivation)
  {
    var ps := d.premises;
    |ps| > 0 && (forall k :: 0 <= k < |ps| ==> ps[k].id == child) &&
    Chain(d.start, ps) &&
    (forall k :: 1 <= k < |ps| ==> ps[k].start < |c.ts|) &&
    if ps[|ps| - 1].out.Thrown? then d.out == Thrown
    else if ps[|ps| - 1].out.Ok? then
      AllOk(ps) && EndOf(d.start, ps) >= |c.ts| &&
      d.out == Ok(EndOf(d.start, ps), RepeatTree(Offset(c.ts, d.start), TreesOf(ps)))
    else if |ps| == 1 then d.out == Fail
    else
      var oks := ps[..|ps| - 1];
      AllOk(oks) && d.out == Ok(EndOf(d.start, oks), RepeatTree(Offset(c.ts, d.start), TreesOf(oks)))
  }

  /** The PEG relation: matcher id at token i has outcome out. */
  ghost predicate Peg(c: Ctx, id: nat, i: nat, out: Outcome)
  {
    exists d :: Valid(c, d) && d.id == id && d.start == i && d.out == out
  }

  ghost predicate Finishes(c: Ctx, id: nat, i: nat, out: Outcome)
    requires Closed(c.g) && id < |c.g|
  {
    exists f :: ParseF(c, id, i, f).Done? && ParseF(c, id, i, f).out == out
  }

  /** The leaf test computes the leaf rule. */
  lemma LeafRuleIs(c: Ctx, leaf: Leaf, i: nat, out: Outcome)
    ensures LeafRule(c, leaf, i, out) <==> ParseLeaf(c, leaf, i).Done? && ParseLeaf(c, leaf, i).out == out
  {
    hide Accepts, Throws, LeafVerdict;
    if i < |c.ts| { LeafAccepts(c.kw, leaf, c.ts[i].text); }
  }

  // ----- soundness: a finished run has a derivation -----

  lemma {:induction false} Sound(c: Ctx, id: nat, i: nat, f: nat) returns (d: Derivation)
    requires Closed(c.g) && id < |c.g|
    requires ParseF(c, id, i, f).Done?
    ensures Valid(c, d) && d.id == id && d.start == i && d.out == ParseF(c, id, i, f).out
    decreases f, 0
  {
    hide LeafRule, ParseLeaf;
    var out := ParseF(c, id, i, f).out;
    match c.g[id]
    case LeafNode(leaf) =>
      LeafRuleIs(c, leaf, i, out);
      d := Rule(id, i, out, []);
    case List(children, name, _) =>
      assert ChildrenOf(c.g[id]) == children;
      assert children[0..] == children && TreesOf([]) == [];
      var ps := SoundList(c, children, name, i, [], f - 1);
      d := Rule(id, i, out, ps);
    case Optional(child) =>
      assert ChildrenOf(c.g[id])[0] == child;
      var p := Sound(c, child, i, f - 1);
      d := Rule(id, i, out, [p]);
    case Choice(children) =>
      assert ChildrenOf(c.g[id]) == children;
      assert children[0..] == children;
      var ps := SoundChoice(c, children, i, [], f - 1);
      d := Rule(id, i, out, ps);
    case Repeat(child) =>
      assert ChildrenOf(c.g[id])[0] == child;
      var p := Sound(c, child, i, f - 1);
      var ps := [p];
      if p.out.Ok? {
        assert TreesOf([p]) == [p.out.tree];
        ps := SoundMore(c, child, i, [p], f - 1);
      }
      d := Rule(id, i, out, ps);
  }

  ghost predicate AllValid(c: Ctx, ps: seq<Derivation>)
  {
    forall p :: p in ps ==> Valid(c, p)
  }

  lemma {:induction false} SoundList(c: Ctx, children: seq<nat>, name: string, start: nat, done: seq<Derivation>,
                                     f: nat)
    returns (ps: seq<Derivation>)
    requires Closed(c.g) && Ids(c.g, children) && |done| <= |children|
    requires AllValid(c, done) && AllOk(done) && Chain(start, done)
    requires forall k :: 0 <= k < |done| ==> done[k].id == children[k]
    requires ParseListF(c, children[|done|..], name, start, EndOf(start, done), TreesOf(done), f).Done?
    ensures AllValid(c, ps)
    ensures forall id :: ListRule(c, children, name,
              Rule(id, start, ParseListF(c, children[|done|..], name, start, EndOf(start, done), TreesOf(done), f).out,
                   ps))
    decreases f, |children| - |done| + 1
  {
    var ids := children[|done|..];
    if ids == [] {
      ps := done;
    } else {
      var p := Sound(c, ids[0], EndOf(start, done), f);
      if p.out.Ok? {
        assert ids[1..] == children[|done + [p]|..];
        assert TreesOf(done + [p]) == TreesOf(done) + [p.out.tree];
        ps := SoundList(c, children, name, start, done + [p], f);
      } else {
        ps := done + [p];
        assert !AllOk(ps) by { assert !ps[|done|].out.Ok?; }
      }
    }
  }

  lemma {:induction false} SoundChoice(c: Ctx, children: seq<nat>, start: nat, done: seq<Derivation>, f: nat)
    returns (ps: seq<Derivation>)
    requires Closed(c.g) && Ids(c.g, children) && |done| <= |children|
    requires AllValid(c, done)
    requires forall k :: 0 <= k < |done| ==> done[k].id == children[k] && done[k].start == start && done[k].out.Fail?
    requires ParseChoiceF(c, children[|done|..], |done|, start, f).Done?
    ensures AllValid(c, ps)
    ensures forall id :: ChoiceRule(c, children,
                                    Rule(id, start, ParseChoiceF(c, children[|done|..], |done|, start, f).out, ps))
    decreases f, |children| - |done| + 1
  {
    var ids := children[|done|..];
    if ids == [] {
      ps := done;
    } else {
      var p := Sound(c, ids[0], start, f);
      ps := done + [p];
      if p.out.Fail? {
        assert ids[1..] == children[|done + [p]|..];
        ps := SoundChoice(c, children, start, done + [p], f);
      }
    }
  }

  lemma {:induction false} SoundMore(c: Ctx, child: nat, start: nat, done: seq<Derivation>, f: nat)
    returns (ps: seq<Derivation>)
    requires Closed(c.g) && child < |c.g| && |done| > 0
    requires AllValid(c, done) && AllOk(done) && Chain(start, done)
    requires forall k :: 0 <= k < |done| ==> done[k].id == child
    requires forall k :: 1 <= k < |done| ==> done[k].start < |c.ts|
    requires ParseMoreF(c, child, start, EndOf(start, done), TreesOf(done), f).Done?
    ensures AllValid(c, ps)
    ensures forall id :: RepeatRule(c, child,
              Rule(id, start, ParseMoreF(c, child, start, EndOf(start, done), TreesOf(done), f).out, ps))
    decreases f, 1
  {
    hide ParseF, Valid;
    if EndOf(start, done) >= |c.ts| {
      ps := done;
    } else {
      var p := Sound(c, child, EndOf(start, done), f - 1);
      ps := done + [p];
      assert ps[..|ps| - 1] == done;
      if p.out.Ok? {
        assert TreesOf(done + [p]) == TreesOf(done) + [p.out.tree];
        ps := SoundMore(c, child, start, done + [p], f - 1);
      }
    }
  }

  // ----- completeness: every derivation is computed by some finished run -----

  lemma {:induction false} Complete(c: Ctx, d: Derivation) returns (f: nat)
    requires Closed(c.g) && Valid(c, d)
    ensures ParseF(c, d.id, d.start, f).Done? && ParseF(c, d.id, d.start, f).out == d.out
    decreases d, |d.premises| + 2
  {
    hide LeafRule, ParseLeaf;
    var ps := d.premises;
    match c.g[d.id]
    case LeafNode(leaf) =>
      LeafRuleIs(c, leaf, d.start, d.out);
      f := 1;
    case List(children, name, _) =>
      assert ChildrenOf(c.g[d.id]) == children;
      assert children[0..] == children && TreesOf(ps[..0]) == [];
      f := CompleteList(c, children, name, d, 0);
      f := f + 1;
    case Optional(child) =>
      assert ChildrenOf(c.g[d.id])[0] == child;
      f := Complete(c, ps[0]);
      f := f + 1;
    case Choice(children) =>
      assert ChildrenOf(c.g[d.id]) == children;
      assert children[0..] == children;
      f := CompleteChoice(c, children, d, 0);
      f := f + 1;
    case Repeat(child) =>
      f := CompleteRepeat(c, child, d);
  }

  lemma {:induction false} CompleteRepeat(c: Ctx, child: nat, d: Derivation) returns (f: nat)
    requires Closed(c.g) && d.id < |c.g| && Valid(c, d) && c.g[d.id] == Repeat(child)
    ensures ParseF(c, d.id, d.start, f).Done? && ParseF(c, d.id, d.start, f).out == d.out
    decreases d, |d.premises| + 1
  {
    hide ParseMoreF, Valid;
    var ps := d.premises;
    assert ChildrenOf(c.g[d.id])[0] == child;
    assert AllValid(c, ps) && RepeatRule(c, child, d) by { RepeatDerived(c, child, d); }
    assert ps[0] in ps;
    var f0 := Complete(c, ps[0]);
    f := f0 + 1;
    if ps[0].out.Ok? {
      var f1 := CompleteMore(c, child, d, 1);
      f := f0 + f1 + 1;
      FuelMono(c, child, d.start, f0, f0 + f1);
      assert TreesOf(ps[..1]) == [ps[0].out.tree];
      FuelMonoMore(c, child, d.start, ps[0].out.end, [ps[0].out.tree], f1, f0 + f1);
    }
  }

  lemma RepeatDerived(c: Ctx, child: nat, d: Derivation)
    requires d.id < |c.g| && Valid(c, d) && c.g[d.id] == Repeat(child)
    ensures AllValid(c, d.premises) && RepeatRule(c, child, d)
  {
  }

  /** Premises that follow one another: where the next starts, and what a further success adds. */
  lemma ChainNext(start: nat, ps: seq<Derivation>, n: nat)
    requires Chain(start, ps) && n < |ps| && AllOk(ps[..n])
    ensures ps[n].start == EndOf(start, ps[..n])
    ensures ps[n].out.Ok? ==> AllOk(ps[..n + 1]) && EndOf(start, ps[..n + 1]) == ps[n].out.end &&
                              TreesOf(ps[..n + 1]) == TreesOf(ps[..n]) + [ps[n].out.tree]
    ensures !ps[n].out.Ok? ==> n == |ps| - 1 && !AllOk(ps)
  {
    if n > 0 { assert ps[..n][n - 1] == ps[n - 1]; }
    if ps[n].out.Ok? { assert ps[..n + 1] == ps[..n] + [ps[n]]; }
  }

  lemma {:induction false} CompleteList(c: Ctx, children: seq<nat>, name: string, d: Derivation, n: nat)
    returns (f: nat)
    requires Closed(c.g) && Ids(c.g, children) && AllValid(c, d.premises) && ListRule(c, children, name, d)
    requires n <= |d.premises| && AllOk(d.premises[..n])
    ensures var r := ParseListF(c, children[n..], name, d.start, EndOf(d.start, d.premises[..n]),
                                TreesOf(d.premises[..n]), f);
            r.Done? && r.out == d.out
    decreases d, |d.premises| - n + 1
  {
    hide ParseF, EndOf, TreesOf, AllOk, Chain;
    var ps := d.premises;
    if n == |ps| {
      f := 0;
      assert ps[..n] == ps;
    } else {
      var p := ps[n];
      assert p in ps;
      var f0 := Complete(c, p);
      f := f0;
      assert children[n..][0] == children[n] && children[n..][1..] == children[n + 1..];
      ChainNext(d.start, ps, n);
      if p.out.Ok? {
        var f1 := CompleteList(c, children, name, d, n + 1);
        f := f0 + f1;
        FuelMono(c, p.id, p.start, f0, f);
        FuelMonoList(c, children[n + 1..], name, d.start, p.out.end, TreesOf(ps[..n + 1]), f1, f);
      }
    }
  }

  lemma {:induction false} CompleteChoice(c: Ctx, children: seq<nat>, d: Derivation, n: nat) returns (f: nat)
    requires Closed(c.g) && Ids(c.g, children) && AllValid(c, d.premises) && ChoiceRule(c, children, d)
    requires n <= |d.premises| && forall k :: 0 <= k < n ==> d.premises[k].out.Fail?
    ensures var r := ParseChoiceF(c, children[n..], n, d.start, f); r.Done? && r.out == d.out
    decreases d, |d.premises| - n + 1
  {
    var ps := d.premises;
    if n == |ps| {
      f := 0;
    } else {
      var p := ps[n];
      assert p in ps;
      var f0 := Complete(c, p);
      f := f0;
      assert children[n..][0] == children[n] && children[n..][1..] == children[n + 1..];
      if p.out.Fail? {
        var f1 := CompleteChoice(c, children, d, n + 1);
        f := f0 + f1;
        FuelMono(c, p.id, p.start, f0, f);
        FuelMonoChoice(c, children[n + 1..], n + 1, d.start, f1, f);
      }
    }
  }

  lemma {:induction false} CompleteMore(c: Ctx, child: nat, d: Derivation, n: nat) returns (f: nat)
    requires Closed(c.g) && child < |c.g| && AllValid(c, d.premises) && RepeatRule(c, child, d)
    requires 1 <= n <= |d.premises| && AllOk(d.premises[..n])
    ensures var r := ParseMoreF(c, child, d.start, EndOf(d.start, d.premises[..n]), TreesOf(d.premises[..n]), f);
            r.Done? && r.out == d.out
    decreases d, |d.premises| - n + 1
  {
    hide ParseF, EndOf, TreesOf, AllOk, Chain;
    var ps := d.premises;
    if n == |ps| {
      f := 0;
      assert ps[..n] == ps;
      assert ps[n - 1].out.Ok? by { LastIsOk(ps); }
    } else {
      var p := ps[n];
      assert p in ps;
      var f0 := Complete(c, p);
      f := f0 + 1;
      ChainNext(d.start, ps, n);
      if p.out.Ok? {
        var f1 := CompleteMore(c, child, d, n + 1);
        f := f0 + f1 + 1;
        FuelMono(c, child, p.start, f0, f0 + f1);
        FuelMonoMore(c, child, d.start, p.out.end, TreesOf(ps[..n + 1]), f1, f0 + f1);
      }
    }
  }

  lemma LastIsOk(ps: seq<Derivation>)
    requires |ps| > 0 && AllOk(ps)
    ensures ps[|ps| - 1].out.Ok?
  {
  }

  // ----- main results -----

  /** The interpreter computes exactly the PEG relation, for every graph and token list. */
  lemma ParseComputesPeg(c: Ctx, id: nat, i: nat, out: Outcome)
    requires Closed(c.g) && id < |c.g|
    ensures Finishes(c, id, i, out) <==> Peg(c, id, i, out)
  {
    if Finishes(c, id, i, out) {
      var f :| ParseF(c, id, i, f).Done? && ParseF(c, id, i, f).out == out;
      var d := Sound(c, id, i, f);
    }
    if Peg(c, id, i, out) {
      var d :| Valid(c, d) && d.id == id && d.start == i && d.out == out;
      var f := Complete(c, d);
    }
  }

  /** The relation is a partial function: a matcher has at most one outcome at a token. */
  lemma PegDeterministic(c: Ctx, id: nat, i: nat, out: Outcome, out': Outcome)
    requires Closed(c.g) && id < |c.g|
    requires Peg(c, id, i, out) && Peg(c, id, i, out')
    ensures out == out'
  {
    ParseComputesPeg(c, id, i, out);
    ParseComputesPeg(c, id, i, out');
    var f :| ParseF(c, id, i, f).Done? && ParseF(c, id, i, f).out == out;
    var f' :| ParseF(c, id, i, f').Done? && ParseF(c, id, i, f').out == out';
    if f <= f' { FuelMono(c, id, i, f, f'); } else { FuelMono(c, id, i, f', f); }
  }

  /** Every success covers the tokens from its start to its end, each exactly once and in order. */
  lemma PegYield(c: Ctx, id: nat, i: nat, end: nat, tree: Tree)
    requires Closed(c.g) && id < |c.g| && i <= |c.ts|
    requires Peg(c, id, i, Ok(end, tree))
    ensures i <= end <= |c.ts| && Yield(tree) == Offsets(c.ts, i, end)
  {
    ParseComputesPeg(c, id, i, Ok(end, tree));
    var f :| ParseF(c, id, i, f).Done? && ParseF(c, id, i, f).out == Ok(end, tree);
    ParseYield(c, id, i, f);
  }

  /** The offset that a tree says it starts at. */
  function StartOf(tree: Tree): (r: Option<nat>)
  {
    match tree
    case LeafTree(_, _, offset) => Some(offset)
    case ListTree(_, start, _) => start
    case OptionalTree(start, _) => start
    case ChoiceTree(_, start, _) => start
    case RepeatTree(start, _) => start
  }

  /** A tree that covers a token says that it starts where its first leaf does, in the text. */
  lemma TreeStarts(c: Ctx, id: nat, i: nat, end: nat, tree: Tree)
    requires Closed(c.g) && id < |c.g| && i < end && Peg(c, id, i, Ok(end, tree))
    ensures i < |c.ts| ==> Yield(tree) != [] && StartOf(tree) == Some(c.ts[i].offset) == Some(Yield(tree)[0])
  {
    if i < |c.ts| {
      PegYield(c, id, i, end, tree);
      assert Offsets(c.ts, i, end)[0] == c.ts[i].offset;
      hide Yield, Offsets, LeafVerdict, Accepts, Throws;
      var d :| Valid(c, d) && d.id == id && d.start == i && d.out == Ok(end, tree);
    }
  }
}
