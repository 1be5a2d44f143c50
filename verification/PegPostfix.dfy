/** What `?`, `*` and `+` after the last alternative of a choice apply to: the compiler takes the whole
    choice, where PEG convention takes the last alternative alone. */
module PegPostfix {
  import opened Wrappers
  import opened PegGraph
  import PegParse
  import opened PegCompiler
  import opened PegRules
  import opened PegRuleProofs
  import opened PegMeaning
  import opened PegSharedChoice

  predicate IsPostfix(op: char)
  {
    op == '?' || op == '*' || op == '+'
  }

  function Post(op: char, e: Elem): (r: Elem)
    requires IsPostfix(op)
  {
    if op == '?' then Opt(e) else if op == '*' then Star(e) else Plus(e)
  }

  /** The element a / b. */
  function Either(a: string, b: string): Elem
  {
    Alt(Lit(a), [Lit(b)])
  }

  /** a / b with the operator on b alone. */
  function OnLast(a: string, b: string, op: char): Elem
    requires IsPostfix(op)
  {
    Alt(Lit(a), [Group([Post(op, Lit(b))])])
  }

  /** The rule r with the operator on the whole choice. */
  function Whole(a: string, b: string, op: char): (gr: Grammar)
    requires IsPostfix(op)
  {
    Grammar(map["r" := RuleTree(None, [Post(op, Either(a, b))])], {}, map[], {})
  }

  const NO_RANKS: Ranking := Ranking(0, map[])

  /** Its tokens are those of a / b followed by the operator. */
  lemma WholeTokens(a: string, b: string, op: char)
    requires IsPostfix(op)
    ensures EnvOf(Whole(a, b, op)).rules == map["r" := PegRule([], [Literal(a), Op('/'), Literal(b), Op(op)])]
  {
    PrintAltOne(None, Lit(a), Lit(b));
    PrintOne(None, Post(op, Either(a, b)));
    assert Print(None, Post(op, Either(a, b))) == [Literal(a), Op('/'), Literal(b), Op(op)];
  }

  lemma WholeIsFine(a: string, b: string, op: char)
    requires IsPostfix(op)
    ensures var gr := Whole(a, b, op);
            WfGrammar(gr) && Sparing(gr, "r") && Initial(gr, EMPTY) && Acyclic(EnvOf(gr), NO_RANKS) &&
            Lower("r") in gr.rules
    ensures WfElem(Whole(a, b, op), None, Either(a, b)) && WfElem(Whole(a, b, op), None, Post(op, Either(a, b)))
    ensures WfElem(Whole(a, b, op), None, OnLast(a, b, op)) && WfElem(Whole(a, b, op), None, Ref("r"))
  {
    hide Sparing, Acyclic;
    Letters();
    WholeIsAcyclic(a, b, op);
    var gr, none: Option<string> := Whole(a, b, op), None;
    var x, y := Post(op, Either(a, b)), Post(op, Lit(b));
    assert WfElem(gr, none, Lit(b)) && WfElem(gr, none, Lit(a));
    WfOne(gr, Lit(b));
    assert WfElem(gr, none, Either(a, b)) by { assert Atom(Lit(b)); }
    assert WfElem(gr, none, x) && WfElem(gr, none, y);
    WfOne(gr, x);
    WfOne(gr, y);
    assert WfElem(gr, none, Group([y]));
    WfOne(gr, Group([y]));
    assert WfElem(gr, none, OnLast(a, b, op)) by { assert Atom(Group([y])); }
    WholeIsSparing(a, b, op);
  }

  lemma WfOne(gr: Grammar, e: Elem)
    ensures WfElem(gr, None, e) ==> WfAll(gr, None, [e])
  {
  }

  lemma WholeIsAcyclic(a: string, b: string, op: char)
    requires IsPostfix(op)
    ensures Acyclic(EnvOf(Whole(a, b, op)), NO_RANKS)
  {
    hide Whole;
    Letters();
    WholeTokens(a, b, op);
  }

  lemma WholeIsSparing(a: string, b: string, op: char)
    requires IsPostfix(op)
    ensures Sparing(Whole(a, b, op), "r")
  {
    Letters();
    var gr, use := Whole(a, b, op), Usage({"r"}, {});
    assert FirmElem(gr, use, false, Either(a, b)) by { assert FirmAll(gr, use, false, [Lit(b)]); }
    assert FirmAll(gr, use, false, [Post(op, Either(a, b))]);
    assert Starts(gr, use, "r") && Firm(gr, use);
  }

  function WholeReading(a: string, b: string, op: char, kw: Keywords, ts: seq<Token>): Reading
    requires IsPostfix(op)
  {
    Reading(Whole(a, b, op), map[], kw, ts)
  }

  /** The compiled rule recognises at token i what a / b with the operator on b alone means there. */
  ghost predicate AsOnLast(a: string, b: string, op: char, kw: Keywords, ts: seq<Token>, i: nat, f: nat)
    requires IsPostfix(op)
  {
    var w := WholeReading(a, b, op, kw, ts);
    var env := EnvOf(w.gr);
    Meaningful(w) && WfElem(w.gr, None, OnLast(a, b, op)) && Acyclic(env, NO_RANKS) && GoodStore(env, EMPTY) &&
    var made := CreateF(env, NO_RANKS, EMPTY, "r", []);
    made.Done? && Closed(made.value.0.nodes) && made.value.1 < |made.value.0.nodes| &&
    Recognised(PegParse.ParseF(CtxOf(w, made.value.0), made.value.1, i, f)) ==
    Read(w, NoBind, None, OnLast(a, b, op), i, f)
  }

  /** The compiled rule recognises what the operator on the whole choice means. */
  lemma CompiledWhole(a: string, b: string, op: char, kw: Keywords, ts: seq<Token>, i: nat, f: nat)
    requires IsPostfix(op) && f > 1
    ensures var w := WholeReading(a, b, op, kw, ts);
            Meaningful(w) && WfElem(w.gr, None, OnLast(a, b, op)) && WfElem(w.gr, None, Post(op, Either(a, b))) &&
            (AsOnLast(a, b, op, kw, ts, i, f) <==>
             Read(w, NoBind, None, Post(op, Either(a, b)), i, f - 1) == Read(w, NoBind, None, OnLast(a, b, op), i, f))
  {
    hide CreateF, PegParse.ParseF, WfElem, Acyclic, EnvOf, GoodStore, Closed;
    Letters();
    WholeIsFine(a, b, op);
    var w := WholeReading(a, b, op, kw, ts);
    var st, id := CompilingPreservesMeaning(w, NO_RANKS, EMPTY, "r", i, f);
    assert GoodStore(EnvOf(w.gr), EMPTY) by { InitialIsGood(w.gr, EMPTY); }
    RuleIsElement(w, Post(op, Either(a, b)), i, f);
  }

  lemma InitialIsGood(gr: Grammar, st: Store)
    ensures Initial(gr, st) ==> GoodStore(EnvOf(gr), st)
  {
  }

  /** A rule of one element reads as that element. */
  lemma RuleIsElement(w: Reading, e: Elem, i: nat, f: nat)
    requires Meaningful(w) && w.leaves == map[] && Lower("r") in w.gr.rules &&
             w.gr.rules[Lower("r")] == RuleTree(None, [e])
    requires f > 1 && WfElem(w.gr, None, Ref("r")) && WfElem(w.gr, None, e)
    ensures Read(w, NoBind, None, Ref("r"), i, f) == Read(w, NoBind, None, e, i, f - 1)
  {
    assert WfAll(w.gr, None, [e]) && [e][1..] == [];
    var r := Read(w, NoBind, None, e, i, f - 1);
    assert ReadAll(w, NoBind, None, [e], i, f - 1) == r by {
      if r.Yes? { assert ReadAll(w, NoBind, None, [], r.end, f - 1) == Yes(r.end); }
    }
  }

  lemma LitReads(w: Reading, a: string, i: nat, f: nat)
    requires Meaningful(w) && f > 0
    ensures Read(w, NoBind, None, Lit(a), i, f) == OneWord(w.ts, i, {Lower(a)})
  {
  }

  /** a / b with the operator on b alone: a, or else the operated b. */
  lemma OnLastReads(w: Reading, a: string, b: string, op: char, i: nat, f: nat)
    requires IsPostfix(op) && Meaningful(w) && f > 2
    requires WfElem(w.gr, None, OnLast(a, b, op)) && WfElem(w.gr, None, Post(op, Lit(b)))
    ensures Read(w, NoBind, None, OnLast(a, b, op), i, f) ==
            if IsOne(w.ts, i, {Lower(a)}) then Yes(i + 1) else Read(w, NoBind, None, Post(op, Lit(b)), i, f - 2)
  {
    var last, post := Group([Post(op, Lit(b))]), Post(op, Lit(b));
    WfCons(w.gr, None, Lit(a), [last]);
    assert [Lit(a)] + [last] == [Lit(a), last] && [Lit(a), last][1..] == [last] && [last][1..] == [] &&
           [post][1..] == [];
    LitReads(w, a, i, f - 1);
    assert WfAll(w.gr, None, [post]);
    var r := Read(w, NoBind, None, post, i, f - 2);
    assert ReadAll(w, NoBind, None, [post], i, f - 2) == r by {
      if r.Yes? { assert ReadAll(w, NoBind, None, [], r.end, f - 2) == Yes(r.end); }
    }
    assert Read(w, NoBind, None, last, i, f - 1) == r;
    assert ReadFirst(w, NoBind, None, [], i, f - 1) == No;
    assert ReadFirst(w, NoBind, None, [last], i, f - 1) == r;
  }

  /** On the tokens a a the whole repeated choice passes both. */
  lemma RepeatsPassBoth(w: Reading, a: string, b: string, op: char, f: nat)
    requires op == '*' || op == '+'
    requires Meaningful(w) && WfElem(w.gr, None, Either(a, b)) && WfElem(w.gr, None, Post(op, Either(a, b))) && f > 7
    requires |w.ts| == 2 && w.ts[0].text == w.ts[1].text == a
    ensures Read(w, NoBind, None, Post(op, Either(a, b)), 0, f) == Yes(2)
  {
    var e, g: nat := Either(a, b), if op == '*' then f - 1 else f;
    ArgumentReads(w, a, b, 0, g - 1);
    ArgumentReads(w, a, b, 1, g - 2);
    assert ReadMore(w, NoBind, None, e, 2, g - 2) == Yes(2);
    assert ReadMore(w, NoBind, None, e, 1, g - 1) == Yes(2);
    assert ReadPlus(w, NoBind, None, e, 0, g) == Yes(2);
  }

  /** For every two keywords: after a / b the compiled operator means what it means on b alone if and only
      if it is `?`; on the tokens a a, `*` and `+` pass one more. */
  lemma PostfixMeansLastIff(a: string, b: string, op: char, kw: Keywords)
    requires IsPostfix(op)
    ensures (forall ts, i, f: nat :: f > 8 ==> AsOnLast(a, b, op, kw, ts, i, f)) <==> op == '?'
  {
    hide AsOnLast, Read, Lower;
    WholeIsFine(a, b, op);
    if op == '?' {
      forall ts, i, f: nat | f > 8 ensures AsOnLast(a, b, op, kw, ts, i, f) {
        CompiledWhole(a, b, op, kw, ts, i, f);
        OptionsAgree(WholeReading(a, b, op, kw, ts), a, b, i, f);
      }
    } else {
      var ts := [Token(a, 0), Token(a, |a|)];
      CompiledWhole(a, b, op, kw, ts, 0, 9);
      var w := WholeReading(a, b, op, kw, ts);
      RepeatsPassBoth(w, a, b, op, 8);
      OnLastReads(w, a, b, op, 0, 9);
      assert !AsOnLast(a, b, op, kw, ts, 0, 9);
    }
  }

  lemma OptionsAgree(w: Reading, a: string, b: string, i: nat, f: nat)
    requires Meaningful(w) && f > 8 && WfElem(w.gr, None, Either(a, b)) && WfElem(w.gr, None, Opt(Either(a, b)))
    requires WfElem(w.gr, None, OnLast(a, b, '?'))
    ensures Read(w, NoBind, None, Opt(Either(a, b)), i, f - 1) == Read(w, NoBind, None, OnLast(a, b, '?'), i, f)
  {
    ArgumentReads(w, a, b, i, f - 2);
    OnLastReads(w, a, b, '?', i, f);
    LitReads(w, b, i, f - 3);
  }
}
