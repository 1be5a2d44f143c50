/** What autocompletion suggests when the tokens have run out: the leaves that can come first, said of the
    graph alone. */
module PegFirst {
  import opened PegGraph
  import opened PegMatch

  // ----- what can come first -----

  /** The matcher may be passed over: an option, a list without suggestions of its own, or a list of such
      matchers, nested at most n deep. */
  ghost predicate SkipBy(g: Graph, id: nat, n: nat)
    decreases n
  {
    n > 0 && id < |g| &&
    (g[id].Optional? ||
     (g[id].List? &&
      (g[id].suppress || forall k :: 0 <= k < |g[id].children| ==> SkipBy(g, g[id].children[k], n - 1))))
  }

  ghost predicate Skips(g: Graph, id: nat)
  {
    exists n: nat :: SkipBy(g, id, n)
  }

  /** Matcher |g| stands for the list `ids` that the search begins with. */
  ghost function Kids(g: Graph, ids: seq<nat>, a: nat): seq<nat>
  {
    if a < |g| then ChildrenOf(g[a]) else ids
  }

  ghost predicate InOrder(g: Graph, a: nat)
  {
    a < |g| ==> g[a].List?
  }

  /** Child k of a may come first in a: every alternative, the child of an option or a repeat, and in a list
      one that has only children in front which may be passed over. A silent list shows nothing. */
  ghost predicate Open(g: Graph, ids: seq<nat>, a: nat, k: nat)
  {
    a <= |g| && k < |Kids(g, ids, a)| && (a < |g| && g[a].List? ==> !g[a].suppress) &&
    (InOrder(g, a) ==> forall j :: 0 <= j < k ==> Skips(g, Kids(g, ids, a)[j]))
  }

  ghost predicate Leads(g: Graph, ids: seq<nat>, a: nat, b: nat)
  {
    exists k: nat :: Open(g, ids, a, k) && Kids(g, ids, a)[k] == b
  }

  ghost predicate Path(g: Graph, ids: seq<nat>, p: seq<nat>)
  {
    p != [] && p[0] == |g| && forall i :: 0 <= i < |p| - 1 ==> Leads(g, ids, p[i], p[i + 1])
  }

  /** Matcher x can come first in the list `ids`. */
  ghost predicate Reached(g: Graph, ids: seq<nat>, x: nat)
  {
    exists p :: Path(g, ids, p) && p[|p| - 1] == x
  }

  /** Keywords and names are suggested; literals and operators are not. */
  predicate Shown(g: Graph, x: nat)
  {
    x < |g| && g[x].LeafNode? && !g[x].leaf.StringLiteral? && !g[x].leaf.NumberLiteral? &&
    !g[x].leaf.Operator? && !g[x].leaf.ArithmeticOperator?
  }

  lemma StartReached(g: Graph, ids: seq<nat>)
    ensures Reached(g, ids, |g|)
  {
    assert Path(g, ids, [|g|]);
  }

  lemma StepReached(g: Graph, ids: seq<nat>, a: nat, k: nat)
    requires Reached(g, ids, a) && Open(g, ids, a, k)
    ensures Reached(g, ids, Kids(g, ids, a)[k])
  {
    var p :| Path(g, ids, p) && p[|p| - 1] == a;
    var q := p + [Kids(g, ids, a)[k]];
    forall i | 0 <= i < |q| - 1 ensures Leads(g, ids, q[i], q[i + 1]) {
      if i < |p| - 1 { assert Leads(g, ids, p[i], p[i + 1]); }
    }
    assert Path(g, ids, q);
  }

  lemma {:induction false} SkipMono(g: Graph, id: nat, n: nat, m: nat)
    requires SkipBy(g, id, n) && n <= m
    ensures SkipBy(g, id, m)
    decreases n
  {
    if g[id].List? && !g[id].suppress {
      forall k | 0 <= k < |g[id].children| ensures SkipBy(g, g[id].children[k], m - 1) {
        SkipMono(g, g[id].children[k], n - 1, m - 1);
      }
    }
  }

  lemma {:induction false} AllSkip(g: Graph, ids: seq<nat>) returns (n: nat)
    requires forall k :: 0 <= k < |ids| ==> Skips(g, ids[k])
    ensures forall k :: 0 <= k < |ids| ==> SkipBy(g, ids[k], n)
  {
    n := 0;
    if ids != [] {
      var m := AllSkip(g, ids[1..]);
      assert Skips(g, ids[0]);
      var l: nat :| SkipBy(g, ids[0], l);
      n := Max(m, l);
      forall k | 0 <= k < |ids| ensures SkipBy(g, ids[k], n) {
        if k == 0 { SkipMono(g, ids[0], l, n); } else { SkipMono(g, ids[1..][k - 1], m, n); }
      }
    }
  }

  /** A list that shows its suggestions may be passed over if and only if all its children may. */
  lemma ListSkips(g: Graph, id: nat)
    requires id < |g| && g[id].List? && !g[id].suppress
    ensures Skips(g, id) <==> forall k :: 0 <= k < |g[id].children| ==> Skips(g, g[id].children[k])
  {
    if Skips(g, id) {
      var n: nat :| SkipBy(g, id, n);
      forall k | 0 <= k < |g[id].children| ensures Skips(g, g[id].children[k]) {
        assert SkipBy(g, g[id].children[k], n - 1);
      }
    }
    if forall k :: 0 <= k < |g[id].children| ==> Skips(g, g[id].children[k]) {
      var n := AllSkip(g, g[id].children);
      assert SkipBy(g, id, n + 1);
    }
  }

  lemma PlainSkips(g: Graph, id: nat)
    requires id < |g|
    ensures g[id].Optional? || (g[id].List? && g[id].suppress) ==> Skips(g, id)
    ensures g[id].LeafNode? || g[id].Choice? || g[id].Repeat? ==> !Skips(g, id)
  {
    if g[id].Optional? || (g[id].List? && g[id].suppress) { assert SkipBy(g, id, 1); }
  }

  // ----- every suggestion can come first, and comes once -----

  ghost predicate Distinct(s: seq<nat>)
  {
    forall j, k :: 0 <= j < k < |s| ==> s[j] != s[k]
  }

  /** From one state of the search to a later one: the new suggestions are the leaves asked since, each
      once. */
  ghost predicate Shows(g: Graph, added: set<nat>, sugg: seq<nat>, r: Suggested)
  {
    added <= r.added && sugg <= r.sugg && Distinct(r.sugg[|sugg|..]) &&
    forall x :: x in r.sugg[|sugg|..] <==> x in r.added && x !in added && Shown(g, x)
  }

  lemma ShowsNothing(g: Graph, added: set<nat>, sugg: seq<nat>, r: Suggested)
    requires r.sugg == sugg && added <= r.added && forall x :: x in r.added && x !in added ==> !Shown(g, x)
    ensures Shows(g, added, sugg, r)
  {
    assert r.sugg[|sugg|..] == [];
  }

  lemma ShowsMore(g: Graph, added: set<nat>, sugg: seq<nat>, r: Suggested, s: Suggested)
    requires Shows(g, added, sugg, r) && Shows(g, r.added, r.sugg, s)
    ensures Shows(g, added, sugg, s)
  {
    var a, b := r.sugg[|sugg|..], s.sugg[|r.sugg|..];
    assert s.sugg == r.sugg + b && r.sugg == sugg + a;
    assert s.sugg[|sugg|..] == a + b;
    forall j, k | 0 <= j < k < |a + b| ensures (a + b)[j] != (a + b)[k] {
      assert j < |a| ==> (a + b)[j] == a[j] && a[j] in a;
      assert k >= |a| ==> (a + b)[k] == b[k - |a|] && b[k - |a|] in b;
      assert j >= |a| ==> (a + b)[j] == b[j - |a|];
    }
  }

  lemma ShowsAnother(g: Graph, added: set<nat>, sugg: seq<nat>, id: nat, r: Suggested)
    requires id < |g| && !g[id].LeafNode? && id !in added && Shows(g, added + {id}, sugg, r)
    ensures Shows(g, added, sugg, r)
  {
  }

  /** Since `added`, only matchers that can come first were asked. */
  ghost predicate AskedFirst(g: Graph, ids: seq<nat>, added: set<nat>, r: Suggested)
  {
    forall x :: x in r.added && x !in added ==> Reached(g, ids, x)
  }

  /** Asking a matcher that can come first asks only such matchers; it may be passed over if it says so. */
  lemma {:induction false} AskSound(g: Graph, ids: seq<nat>, id: nat, added: set<nat>, sugg: seq<nat>)
    requires Closed(g) && Ids(g, ids) && id < |g| && Reached(g, ids, id)
    ensures var r := AddSuggestionF(g, id, added, sugg);
            Shows(g, added, sugg, r) && AskedFirst(g, ids, added, r) && (!r.mandatory ==> Skips(g, id))
    decreases Unadded(g, added), 0
  {
    hide Reached, Skips, Shows;
    var r := AddSuggestionF(g, id, added, sugg);
    PlainSkips(g, id);
    if id in added {
      ShowsNothing(g, added, sugg, r);
    } else {
      assert id in Unadded(g, added) && id !in Unadded(g, added + {id});
      match g[id]
      case LeafNode(leaf) => LeafShows(g, id, added, sugg);
      case List(children, _, suppress) =>
        assert ChildrenOf(g[id]) == children;
        if suppress {
          ShowsNothing(g, added, sugg, r);
        } else {
          assert children[0..] == children;
          ListSkips(g, id);
          ListSound(g, ids, id, 0, added + {id}, sugg);
          ShowsAnother(g, added, sugg, id, r);
        }
      case Optional(child) =>
        assert ChildrenOf(g[id])[0] == child && Open(g, ids, id, 0);
        StepReached(g, ids, id, 0);
        AskSound(g, ids, child, added + {id}, sugg);
        ShowsAnother(g, added, sugg, id, AddSuggestionF(g, child, added + {id}, sugg));
        ShowsSame(g, added, sugg, AddSuggestionF(g, child, added + {id}, sugg), r);
      case Choice(children) =>
        assert ChildrenOf(g[id]) == children && children[0..] == children;
        ChoiceSound(g, ids, id, 0, added + {id}, sugg);
        ShowsAnother(g, added, sugg, id, r);
      case Repeat(child) =>
        assert ChildrenOf(g[id])[0] == child && Open(g, ids, id, 0);
        StepReached(g, ids, id, 0);
        AskSound(g, ids, child, added + {id}, sugg);
        ShowsAnother(g, added, sugg, id, AddSuggestionF(g, child, added + {id}, sugg));
        ShowsSame(g, added, sugg, AddSuggestionF(g, child, added + {id}, sugg), r);
    }
  }

  lemma ShowsSame(g: Graph, added: set<nat>, sugg: seq<nat>, r: Suggested, s: Suggested)
    requires Shows(g, added, sugg, r) && s.added == r.added && s.sugg == r.sugg
    ensures Shows(g, added, sugg, s)
  {
  }

  lemma LeafShows(g: Graph, id: nat, added: set<nat>, sugg: seq<nat>)
    requires Closed(g) && id < |g| && g[id].LeafNode? && id !in added
    ensures Shows(g, added, sugg, AddSuggestionF(g, id, added, sugg))
  {
    var r := AddSuggestionF(g, id, added, sugg);
    assert r.sugg[|sugg|..] == if Shown(g, id) then [id] else [];
  }

  /** The children of a list from child k on; those in front may be passed over. */
  lemma {:induction false} ListSound(g: Graph, ids: seq<nat>, a: nat, k: nat, added: set<nat>, sugg: seq<nat>)
    requires Closed(g) && Ids(g, ids) && a <= |g| && InOrder(g, a) && (a < |g| ==> !g[a].suppress)
    requires Reached(g, ids, a) && k <= |Kids(g, ids, a)| && Ids(g, Kids(g, ids, a))
    requires forall j :: 0 <= j < k ==> Skips(g, Kids(g, ids, a)[j])
    ensures var r := SuggestListF(g, Kids(g, ids, a)[k..], added, sugg);
            Shows(g, added, sugg, r) && AskedFirst(g, ids, added, r) &&
            (!r.mandatory ==> forall j :: 0 <= j < |Kids(g, ids, a)| ==> Skips(g, Kids(g, ids, a)[j]))
    decreases Unadded(g, added), |Kids(g, ids, a)| - k + 1
  {
    hide Reached, Skips, Shows, AddSuggestionF;
    var kids := Kids(g, ids, a);
    var r := SuggestListF(g, kids[k..], added, sugg);
    if k == |kids| {
      ShowsNothing(g, added, sugg, r);
    } else {
      assert kids[k..][0] == kids[k] && kids[k..][1..] == kids[k + 1..];
      assert Open(g, ids, a, k);
      StepReached(g, ids, a, k);
      AskSound(g, ids, kids[k], added, sugg);
      var s := AddSuggestionF(g, kids[k], added, sugg);
      if !s.mandatory {
        assert Unadded(g, s.added) <= Unadded(g, added);
        assert Unadded(g, s.added) == Unadded(g, added) || Unadded(g, s.added) < Unadded(g, added);
        ListSound(g, ids, a, k + 1, s.added, s.sugg);
        ShowsMore(g, added, sugg, s, r);
      }
    }
  }

  lemma {:induction false} ChoiceSound(g: Graph, ids: seq<nat>, a: nat, k: nat, added: set<nat>, sugg: seq<nat>)
    requires Closed(g) && Ids(g, ids) && a < |g| && g[a].Choice? && Reached(g, ids, a) && k <= |g[a].children|
    requires Ids(g, g[a].children)
    ensures var r := SuggestAllF(g, g[a].children[k..], added, sugg);
            Shows(g, added, sugg, r) && AskedFirst(g, ids, added, r)
    decreases Unadded(g, added), |g[a].children| - k + 1
  {
    hide Reached, Shows, AddSuggestionF;
    var kids := g[a].children;
    var r := SuggestAllF(g, kids[k..], added, sugg);
    if k == |kids| {
      ShowsNothing(g, added, sugg, r);
    } else {
      assert kids[k..][0] == kids[k] && kids[k..][1..] == kids[k + 1..];
      assert Open(g, ids, a, k);
      StepReached(g, ids, a, k);
      AskSound(g, ids, kids[k], added, sugg);
      var s := AddSuggestionF(g, kids[k], added, sugg);
      assert Unadded(g, s.added) <= Unadded(g, added);
      assert Unadded(g, s.added) == Unadded(g, added) || Unadded(g, s.added) < Unadded(g, added);
      ChoiceSound(g, ids, a, k + 1, s.added, s.sugg);
      ShowsMore(g, added, sugg, s, r);
    }
  }

  // ----- everything that can come first is suggested -----

  /** A place: child k of matcher a. */
  datatype Place = Place(a: nat, k: nat)

  ghost predicate Met(g: Graph, ids: seq<nat>, pl: Place)
  {
    Reached(g, ids, pl.a) && Open(g, ids, pl.a, pl.k)
  }

  ghost function KidAt(g: Graph, ids: seq<nat>, pl: Place): nat
    requires Open(g, ids, pl.a, pl.k)
  {
    Kids(g, ids, pl.a)[pl.k]
  }

  /** No matcher that may be passed over can come first in two places. */
  ghost predicate MetOnce(g: Graph, ids: seq<nat>)
  {
    forall p, q | Met(g, ids, p) && Met(g, ids, q) && KidAt(g, ids, p) == KidAt(g, ids, q) ::
      Skips(g, KidAt(g, ids, p)) ==> p == q
  }

  /** The places the search has been through: every matcher asked that may be passed over was met in one. */
  ghost predicate Been(g: Graph, ids: seq<nat>, been: set<Place>, added: set<nat>)
  {
    (forall p :: p in been ==> Met(g, ids, p) && (p.a == |g| || p.a in added)) &&
    (forall x :: x in added && Skips(g, x) ==> exists p :: p in been && Met(g, ids, p) && KidAt(g, ids, p) == x)
  }

  /** Of the matchers asked since `added`, every child that can come first has been asked too. */
  ghost predicate Thorough(g: Graph, ids: seq<nat>, added: set<nat>, added': set<nat>)
  {
    added <= added' &&
    forall x, k: nat :: x in added' && x !in added && x < |g| && Open(g, ids, x, k) ==> Kids(g, ids, x)[k] in added'
  }

  lemma ThoroughMore(g: Graph, ids: seq<nat>, a: set<nat>, b: set<nat>, c: set<nat>)
    requires Thorough(g, ids, a, b) && Thorough(g, ids, b, c)
    ensures Thorough(g, ids, a, c)
  {
  }

  /** Places gone through since: those of `own`, and those of matchers asked since. */
  ghost predicate Passed(g: Graph, been: set<Place>, been': set<Place>, own: set<Place>, added: set<nat>,
                         added': set<nat>)
  {
    been <= been' && forall p :: p in been' ==> p in been || p in own || (p.a in added' && p.a !in added && p.a < |g|)
  }

  ghost function PlacesFrom(g: Graph, ids: seq<nat>, a: nat, k: nat): (r: set<Place>)
  {
    set j | k <= j < |Kids(g, ids, a)| :: Place(a, j)
  }

  lemma KidFits(g: Graph, ids: seq<nat>, a: nat)
    requires Closed(g) && Ids(g, ids)
    ensures Ids(g, Kids(g, ids, a))
  {
  }

  /** A matcher met in a new place that was asked before may not be passed over. */
  lemma AskedBefore(g: Graph, ids: seq<nat>, pl: Place, been: set<Place>, added: set<nat>)
    requires MetOnce(g, ids) && Met(g, ids, pl) && pl !in been && Been(g, ids, been, added)
    requires KidAt(g, ids, pl) in added
    ensures !Skips(g, KidAt(g, ids, pl))
  {
    hide Skips, Reached, Open;
  }

  lemma BeenThere(g: Graph, ids: seq<nat>, pl: Place, been: set<Place>, added: set<nat>)
    requires Met(g, ids, pl) && Been(g, ids, been, added) && (pl.a == |g| || pl.a in added)
    ensures Been(g, ids, been + {pl}, added) && Been(g, ids, been + {pl}, added + {KidAt(g, ids, pl)})
  {
    hide Skips, Reached, Open;
    var kid, more := KidAt(g, ids, pl), been + {pl};
    forall x | x in added + {kid} && Skips(g, x)
      ensures exists p :: p in more && Met(g, ids, p) && KidAt(g, ids, p) == x
    {
      if x == kid {
        assert pl in more;
      } else {
        var p :| p in been && Met(g, ids, p) && KidAt(g, ids, p) == x;
        assert p in more;
      }
    }
  }

  /** Asking in a new place: the answer tells whether the matcher may be passed over, and all that can come
      first in it has been asked. */
  lemma {:induction false} AskThorough(g: Graph, ids: seq<nat>, pl: Place, added: set<nat>, sugg: seq<nat>,
                                       been: set<Place>)
    returns (been': set<Place>)
    requires Closed(g) && Ids(g, ids) && MetOnce(g, ids) && Met(g, ids, pl) && pl !in been
    requires Been(g, ids, been, added) && (pl.a == |g| || pl.a in added) && KidAt(g, ids, pl) < |g|
    ensures var kid := KidAt(g, ids, pl);
            var r := AddSuggestionF(g, kid, added, sugg);
            (r.mandatory <==> !Skips(g, kid)) && kid in r.added && Thorough(g, ids, added, r.added) &&
            Been(g, ids, been', r.added) && Passed(g, been, been', {pl}, added, r.added)
    decreases Unadded(g, added), 0
  {
    hide Reached, Skips, MetOnce, Been;
    var kid := KidAt(g, ids, pl);
    BeenThere(g, ids, pl, been, added);
    been' := been + {pl};
    PlainSkips(g, kid);
    StepReached(g, ids, pl.a, pl.k);
    if kid in added {
      AskedBefore(g, ids, pl, been, added);
    } else {
      assert kid in Unadded(g, added) && kid !in Unadded(g, added + {kid});
      NothingBeen(g, ids, been, added, kid);
      match g[kid]
      case LeafNode(_) =>
      case List(children, _, suppress) =>
        assert ChildrenOf(g[kid]) == children;
        if !suppress {
          assert children[0..] == children;
          ListSkips(g, kid);
          been' := ListThorough(g, ids, kid, 0, added + {kid}, sugg, been + {pl});
        }
      case Optional(child) =>
        assert ChildrenOf(g[kid])[0] == child && Met(g, ids, Place(kid, 0));
        been' := AskThorough(g, ids, Place(kid, 0), added + {kid}, sugg, been + {pl});
      case Choice(children) =>
        assert ChildrenOf(g[kid]) == children && children[0..] == children;
        been' := ChoiceThorough(g, ids, kid, 0, added + {kid}, sugg, been + {pl});
      case Repeat(child) =>
        assert ChildrenOf(g[kid])[0] == child && Met(g, ids, Place(kid, 0));
        been' := AskThorough(g, ids, Place(kid, 0), added + {kid}, sugg, been + {pl});
    }
  }

  /** No place of a matcher that has not been asked has been gone through. */
  lemma NothingBeen(g: Graph, ids: seq<nat>, been: set<Place>, added: set<nat>, x: nat)
    requires Been(g, ids, been, added) && x < |g| && x !in added
    ensures forall p :: p in been ==> p.a != x
  {
  }

  lemma {:induction false} ListThorough(g: Graph, ids: seq<nat>, a: nat, k: nat, added: set<nat>, sugg: seq<nat>,
                                        been: set<Place>)
    returns (been': set<Place>)
    requires Closed(g) && Ids(g, ids) && MetOnce(g, ids) && a <= |g| && InOrder(g, a) && (a < |g| ==> !g[a].suppress)
    requires Reached(g, ids, a) && k <= |Kids(g, ids, a)| && Ids(g, Kids(g, ids, a)) && (a == |g| || a in added)
    requires forall j :: 0 <= j < k ==> Skips(g, Kids(g, ids, a)[j])
    requires Been(g, ids, been, added) && forall p :: p in been && p.a == a ==> p.k < k
    ensures var kids := Kids(g, ids, a);
            var r := SuggestListF(g, kids[k..], added, sugg);
            (r.mandatory <==> exists j :: k <= j < |kids| && !Skips(g, kids[j])) &&
            (forall j: nat :: k <= j && Open(g, ids, a, j) ==> kids[j] in r.added) &&
            Thorough(g, ids, added, r.added) && Been(g, ids, been', r.added) &&
            Passed(g, been, been', PlacesFrom(g, ids, a, k), added, r.added)
    decreases Unadded(g, added), |Kids(g, ids, a)| - k + 1
  {
    hide Reached, Skips, AddSuggestionF, MetOnce, Been;
    var kids := Kids(g, ids, a);
    been' := been;
    if k < |kids| {
      assert kids[k..][0] == kids[k] && kids[k..][1..] == kids[k + 1..];
      var pl := Place(a, k);
      assert Met(g, ids, pl) && KidAt(g, ids, pl) == kids[k];
      var been1 := AskThorough(g, ids, pl, added, sugg, been);
      been' := been1;
      var s := AddSuggestionF(g, kids[k], added, sugg);
      if s.mandatory {
        assert !Skips(g, kids[k]);
      } else {
        assert Unadded(g, s.added) <= Unadded(g, added);
        assert Unadded(g, s.added) == Unadded(g, added) || Unadded(g, s.added) < Unadded(g, added);
        been' := ListThorough(g, ids, a, k + 1, s.added, s.sugg, been1);
        ThoroughMore(g, ids, added, s.added, SuggestListF(g, kids[k..], added, sugg).added);
      }
    }
  }

  lemma {:induction false} ChoiceThorough(g: Graph, ids: seq<nat>, a: nat, k: nat, added: set<nat>, sugg: seq<nat>,
                                          been: set<Place>)
    returns (been': set<Place>)
    requires Closed(g) && Ids(g, ids) && MetOnce(g, ids) && a < |g| && g[a].Choice? && Reached(g, ids, a)
    requires k <= |g[a].children| && Ids(g, g[a].children) && a in added
    requires Been(g, ids, been, added) && forall p :: p in been && p.a == a ==> p.k < k
    ensures var kids := g[a].children;
            var r := SuggestAllF(g, kids[k..], added, sugg);
            (forall j: nat :: k <= j < |kids| ==> kids[j] in r.added) &&
            Thorough(g, ids, added, r.added) && Been(g, ids, been', r.added) &&
            Passed(g, been, been', PlacesFrom(g, ids, a, k), added, r.added)
    decreases Unadded(g, added), |g[a].children| - k + 1
  {
    hide Reached, Skips, AddSuggestionF, MetOnce, Been;
    var kids := g[a].children;
    been' := been;
    if k < |kids| {
      assert kids[k..][0] == kids[k] && kids[k..][1..] == kids[k + 1..];
      var pl := Place(a, k);
      assert Met(g, ids, pl) && KidAt(g, ids, pl) == kids[k];
      var been1 := AskThorough(g, ids, pl, added, sugg, been);
      var s := AddSuggestionF(g, kids[k], added, sugg);
      assert Unadded(g, s.added) <= Unadded(g, added);
      assert Unadded(g, s.added) == Unadded(g, added) || Unadded(g, s.added) < Unadded(g, added);
      been' := ChoiceThorough(g, ids, a, k + 1, s.added, s.sugg, been1);
      ThoroughMore(g, ids, added, s.added, SuggestAllF(g, kids[k..], added, sugg).added);
    }
  }

  /** A thorough search from nothing has asked all that can come first. */
  lemma {:induction false} PathAsked(g: Graph, ids: seq<nat>, p: seq<nat>, asked: set<nat>)
    requires Closed(g) && Ids(g, ids) && Path(g, ids, p) && Thorough(g, ids, {}, asked)
    requires forall j: nat :: Open(g, ids, |g|, j) ==> ids[j] in asked
    ensures p[|p| - 1] == |g| || (p[|p| - 1] in asked && p[|p| - 1] < |g|)
    decreases |p|
  {
    if |p| > 1 {
      var q := p[..|p| - 1];
      assert forall i :: 0 <= i < |q| - 1 ==> Leads(g, ids, p[i], p[i + 1]);
      PathAsked(g, ids, q, asked);
      var a, b := q[|q| - 1], p[|p| - 1];
      assert a == p[|p| - 2] && Leads(g, ids, a, p[|p| - 2 + 1]);
      KidFits(g, ids, a);
      var k: nat :| Open(g, ids, a, k) && Kids(g, ids, a)[k] == b;
    }
  }

  // ----- main results -----

  ghost predicate CanComeFirst(g: Graph, ids: seq<nat>, x: nat)
  {
    Shown(g, x) && Reached(g, ids, x)
  }

  /** The suggestions that came to `was` are exactly the leaves that can come first in `ids`, each once. */
  ghost predicate SuggestsFirst(g: Graph, ids: seq<nat>, was: seq<nat>, now: seq<nat>)
  {
    was <= now && Distinct(now[|was|..]) && forall x :: x in now[|was|..] <==> CanComeFirst(g, ids, x)
  }

  /** For every graph: asking the list `ids` from nothing suggests only leaves that can come first, each
      once; it counts as optional only if all of it may be passed over. */
  lemma SuggestionsComeFirst(g: Graph, ids: seq<nat>, sugg: seq<nat>)
    requires Closed(g) && Ids(g, ids)
    ensures var r := SuggestListF(g, ids, {}, sugg);
            sugg <= r.sugg && Distinct(r.sugg[|sugg|..]) &&
            (forall x :: x in r.sugg[|sugg|..] ==> CanComeFirst(g, ids, x)) &&
            (!r.mandatory ==> forall k :: 0 <= k < |ids| ==> Skips(g, ids[k]))
  {
    hide Reached, Skips, Shown;
    StartReached(g, ids);
    assert Kids(g, ids, |g|)[0..] == ids;
    ListSound(g, ids, |g|, 0, {}, sugg);
  }

  /** And if nothing that may be passed over is met twice, they are exactly the leaves that can come first,
      and the list counts as optional exactly if all of it may be passed over. */
  lemma SuggestsExactly(g: Graph, ids: seq<nat>, sugg: seq<nat>)
    requires Closed(g) && Ids(g, ids) && MetOnce(g, ids)
    ensures var r := SuggestListF(g, ids, {}, sugg);
            SuggestsFirst(g, ids, sugg, r.sugg) &&
            (!r.mandatory <==> forall k :: 0 <= k < |ids| ==> Skips(g, ids[k]))
  {
    hide Skips, Open, MetOnce, SuggestListF;
    StartReached(g, ids);
    assert Kids(g, ids, |g|)[0..] == ids;
    ListSound(g, ids, |g|, 0, {}, sugg);
    var been := ListThorough(g, ids, |g|, 0, {}, sugg, {});
    var r := SuggestListF(g, ids, {}, sugg);
    forall x | CanComeFirst(g, ids, x) ensures x in r.sugg[|sugg|..] {
      var p :| Path(g, ids, p) && p[|p| - 1] == x;
      PathAsked(g, ids, p, r.added);
    }
  }

  // ----- a matcher asked before -----

  /** What can come first in a list can come first in one of its open children. */
  lemma ReachedThrough(g: Graph, ids: seq<nat>, x: nat)
    requires Closed(g) && Ids(g, ids) && x < |g|
    ensures Reached(g, ids, x) <==> exists k: nat :: Open(g, ids, |g|, k) && Reached(g, [ids[k]], x)
  {
    if Reached(g, ids, x) {
      var p :| Path(g, ids, p) && p[|p| - 1] == x;
      assert Leads(g, ids, p[0], p[0 + 1]);
      var k: nat :| Open(g, ids, |g|, k) && ids[k] == p[1];
      assert Open(g, [ids[k]], |g|, 0) && Kids(g, [ids[k]], |g|)[0] == p[1];
      SamePath(g, ids, [ids[k]], p);
    }
    if k: nat :| Open(g, ids, |g|, k) && Reached(g, [ids[k]], x) {
      var p :| Path(g, [ids[k]], p) && p[|p| - 1] == x;
      assert Leads(g, [ids[k]], p[0], p[0 + 1]);
      SamePath(g, [ids[k]], ids, p);
    }
  }

  /** Behind its first step a path does not depend on the list it started from. */
  lemma SamePath(g: Graph, ids: seq<nat>, ids': seq<nat>, p: seq<nat>)
    requires Closed(g) && Ids(g, ids) && Path(g, ids, p) && |p| > 1 && Leads(g, ids', |g|, p[1])
    ensures Path(g, ids', p)
  {
    forall i | 0 <= i < |p| - 1 ensures Leads(g, ids', p[i], p[i + 1]) {
      assert Leads(g, ids, p[i], p[i + 1]);
      if i > 0 {
        assert Leads(g, ids, p[i - 1], p[i - 1 + 1]);
        KidFits(g, ids, p[i - 1]);
        var k: nat :| Open(g, ids, p[i], k) && Kids(g, ids, p[i])[k] == p[i + 1];
        assert Open(g, ids', p[i], k);
      }
    }
  }

  /** A matcher that stands twice in a list ends the search the second time, whether or not it may be passed
      over: what follows is suggested exactly if nothing is hidden, that is, if the matcher may not be passed
      over or everything behind it can come first in it as well. */
  lemma AskedTwiceIff(g: Graph, id: nat, rest: seq<nat>, sugg: seq<nat>)
    requires Closed(g) && Ids(g, [id, id] + rest) && MetOnce(g, [id])
    ensures var ids := [id, id] + rest;
            var r := SuggestListF(g, ids, {}, sugg);
            sugg <= r.sugg &&
            ((forall x :: CanComeFirst(g, ids, x) ==> x in r.sugg[|sugg|..]) <==>
             (Skips(g, id) ==> forall x :: CanComeFirst(g, rest, x) ==> CanComeFirst(g, [id], x)))
  {
    hide Reached, MetOnce;
    var ids := [id, id] + rest;
    AskedTwice(g, id, rest, sugg);
    SuggestsExactly(g, [id], sugg);
    var r := SuggestListF(g, ids, {}, sugg);
    forall x: nat | x < |g|
      ensures Reached(g, ids, x) <==> Reached(g, [id], x) || (Skips(g, id) && Reached(g, rest, x))
    {
      ReachedThrough(g, ids, x);
      ReachedThrough(g, rest, x);
      ReachedBehind(g, id, rest, x);
    }
  }

  lemma AskedTwice(g: Graph, id: nat, rest: seq<nat>, sugg: seq<nat>)
    requires Closed(g) && Ids(g, [id, id] + rest)
    ensures SuggestListF(g, [id, id] + rest, {}, sugg).sugg == SuggestListF(g, [id], {}, sugg).sugg
  {
    var ids := [id, id] + rest;
    assert ids[0] == id && ids[1..] == [id] + rest && ([id] + rest)[0] == id && [id][1..] == [];
    var r := AddSuggestionF(g, id, {}, sugg);
    AskedStays(g, id, {}, sugg);
    assert AddSuggestionF(g, id, r.added, r.sugg) == Suggested(true, r.added, r.sugg);
    assert SuggestListF(g, [id] + rest, r.added, r.sugg) == Suggested(true, r.added, r.sugg);
  }

  lemma AskedStays(g: Graph, id: nat, added: set<nat>, sugg: seq<nat>)
    requires Closed(g) && id < |g|
    ensures id in AddSuggestionF(g, id, added, sugg).added
  {
  }

  lemma ReachedBehind(g: Graph, id: nat, rest: seq<nat>, x: nat)
    requires Closed(g) && Ids(g, [id, id] + rest)
    ensures var ids := [id, id] + rest;
            (exists k: nat :: Open(g, ids, |g|, k) && Reached(g, [ids[k]], x)) <==>
            Reached(g, [id], x) ||
            (Skips(g, id) && exists k: nat :: Open(g, rest, |g|, k) && Reached(g, [rest[k]], x))
  {
    hide Reached, Skips, Open;
    var ids := [id, id] + rest;
    forall k: nat ensures (Open(g, ids, |g|, k) ==> k < |ids|) && (Open(g, rest, |g|, k) ==> k < |rest|) {
      OpenBehind(g, id, rest, k);
    }
    if k: nat :| k < |ids| && Open(g, ids, |g|, k) && Reached(g, [ids[k]], x) {
      OpenBehind(g, id, rest, k);
      if k >= 2 { assert ids[k] == rest[k - 2]; }
    }
    if Reached(g, [id], x) {
      OpenBehind(g, id, rest, 0);
      assert ids[0] == id;
    }
    if Skips(g, id) {
      if k: nat :| k < |rest| && Open(g, rest, |g|, k) && Reached(g, [rest[k]], x) {
        OpenBehind(g, id, rest, k + 2);
        assert ids[k + 2] == rest[k];
      }
    }
  }

  lemma OpenBehind(g: Graph, id: nat, rest: seq<nat>, k: nat)
    ensures Open(g, rest, |g|, k) ==> k < |rest|
    ensures var ids := [id, id] + rest;
            (Open(g, ids, |g|, k) ==> k < |ids|) &&
            (k == 0 ==> Open(g, ids, |g|, k)) &&
            (k >= 2 ==> (Open(g, ids, |g|, k) <==> Skips(g, id) && Open(g, rest, |g|, k - 2)))
  {
    hide Skips;
    var ids := [id, id] + rest;
    if k >= 2 && Skips(g, id) && Open(g, rest, |g|, k - 2) {
      forall j | 0 <= j < k ensures Skips(g, ids[j]) {
        if j >= 2 { assert ids[j] == rest[j - 2]; }
      }
    }
    if k >= 2 && Open(g, ids, |g|, k) {
      assert Skips(g, ids[0]);
      forall j | 0 <= j < k - 2 ensures Skips(g, rest[j]) {
        assert rest[j] == ids[j + 2];
      }
    }
  }
}
