/** The generator's loops: the programs it emits for a class and for a base class, and its check that
    no inheritance path repeats a member name or id. */
module SerializationGenerator {
  import opened Wrappers
  import opened Serialization

  // ----- generate_class_code -----

  function WritesOf<V>(ms: seq<Member<V>>): (p: seq<WriteInstr<V>>)
  {
    seq(|ms|, k requires 0 <= k < |ms| => SerializeElement(ms[k]))
  }

  ghost predicate AllWritable<V>(p: seq<WriteInstr<V>>, obj: Obj<V>)
  {
    forall k :: 0 <= k < |p| ==> Writable(p[k], obj)
  }

  function ExecWrites<V(==)>(p: seq<WriteInstr<V>>, obj: Obj<V>, t: Target): (out: seq<Field<V>>)
    requires AllWritable(p, obj)
  {
    if p == [] then [] else ExecWrite(p[0], obj, t) + ExecWrites(p[1..], obj, t)
  }

  /** Running the emitted write program leaves the members' stream. */
  lemma {:induction false} WritesRun<V>(ms: seq<Member<V>>, obj: Obj<V>, t: Target)
    requires HasAll(ms, obj)
    ensures AllWritable(WritesOf(ms), obj) && ExecWrites(WritesOf(ms), obj, t) == Stream(ms, obj, t)
  {
    var p := WritesOf(ms);
    forall k | 0 <= k < |p| ensures Writable(p[k], obj) {
      CanWriteIff(ms[k], obj);
    }
    if ms != [] {
      assert p[0] == SerializeElement(ms[0]) && p[1..] == WritesOf(ms[1..]);
      WritesRun(ms[1..], obj, t);
    }
  }

  /** The generator stops on a constructor name that is nowhere to be found. */
  ghost predicate Resolvable<V>(c: Class<V>, params: seq<Member<V>>, names: seq<string>)
  {
    forall k :: 0 <= k < |names| ==> Named(c.members, names[k]) != [] || Named(params, names[k]) != []
  }

  /** ... and on a read-only member without a default. */
  ghost predicate ReadOnlyDefaults<V>(ms: seq<Member<V>>)
  {
    forall k :: 0 <= k < |ms| && ms[k].status == ReadOnly ==> ms[k].Default().Some?
  }

  lemma {:induction false} ArgumentsSnoc<V>(ms: seq<Member<V>>, params: seq<Member<V>>, names: seq<string>,
                                            name: string)
    ensures Arguments(ms, params, names + [name]) == Arguments(ms, params, names) + ArgumentsFor(ms, params, name)
  {
    hide ArgumentsFor;
    if names == [] {
      assert [name] == names + [name];
      ArgumentsNone(ms, params);
    } else {
      assert (names + [name])[0] == names[0] && (names + [name])[1..] == names[1..] + [name];
      ArgumentsSnoc(ms, params, names[1..], name);
    }
  }

  lemma {:induction false} NamedBehind<V>(ms: seq<Member<V>>, k: nat, name: string)
    requires k <= |ms| && forall j :: 0 <= j < k ==> ms[j].name != name
    ensures Named(ms, name) == Named(ms[k..], name)
  {
    if k > 0 {
      assert ms[1..][k - 1..] == ms[k..];
      NamedBehind(ms[1..], k - 1, name);
    } else {
      assert ms[0..] == ms;
    }
  }

  /** The inner loop: the first member of a name, by a scan that breaks off. */
  method FindMember<V>(ms: seq<Member<V>>, name: string) returns (at: nat)
    ensures at <= |ms| && (at < |ms| <==> Named(ms, name) != [])
    ensures at < |ms| ==> Named(ms, name) == [ms[at]] && ms[at].name == name
    ensures forall j :: 0 <= j < at ==> ms[j].name != name
  {
    at := 0;
    while at < |ms| && ms[at].name != name
      invariant at <= |ms| && forall j :: 0 <= j < at ==> ms[j].name != name
    {
      at := at + 1;
    }
    NamedBehind(ms, at, name);
    if at < |ms| {
      assert ms[at..][0] == ms[at];
    }
  }

  /** The constructor's call, and the index of the last member it takes (-1 for none). */
  method ConstructorCall<V>(c: Class<V>, params: seq<Member<V>>) returns (ok: bool, last: int, args: seq<Argument>)
    ensures ok <==> Resolvable(c, params, c.constructor')
    ensures ok && DistinctNames(c.members) ==> last + 1 == Prefix(c.members, c.constructor')
    ensures ok ==> -1 <= last < |c.members| && args == Arguments(c.members, params, c.constructor')
  {
    hide Named, Arguments;
    var names := c.constructor';
    ok, last, args := true, -1, [];
    assert Arguments(c.members, params, names[..0]) == [] by {
      assert names[..0] == [];
      ArgumentsNone(c.members, params);
    }
    for k := 0 to |names|
      invariant ok && Resolvable(c, params, names[..k])
      invariant -1 <= last < |c.members| && (last >= 0 ==> c.members[last].name in names[..k])
      invariant DistinctNames(c.members) ==> forall j :: last < j < |c.members| ==> c.members[j].name !in names[..k]
      invariant args == Arguments(c.members, params, names[..k])
    {
      var own := FindMember(c.members, names[k]);
      var set' := FindMember(params, names[k]);
      assert names[..k + 1] == names[..k] + [names[k]];
      ArgumentsSnoc(c.members, params, names[..k], names[k]);
      if own < |c.members| {
        if own > last { last := own; }
        args := args + [FromLocal(c.members[own].target)];
      }
      if set' < |params| {
        args := args + [FromContext(params[set'].ty, params[set'].target)];
      }
      if own == |c.members| && set' == |params| {
        ok := false;
        return;
      }
    }
    assert names[..|names|] == names;
  }

  lemma ArgumentsNone<V>(ms: seq<Member<V>>, params: seq<Member<V>>)
    ensures Arguments(ms, params, []) == []
  {
  }

  /** get_deserialize_element_template refuses a read-only member without a default. */
  function Emitted<V>(m: Member<V>, local: bool): (i: Option<ReadInstr<V>>)
  {
    if m.status == ReadOnly && m.Default().None? then None else Some(DeserializeElement(m, local))
  }

  lemma {:induction false} AssignsSnoc<V>(ms: seq<Member<V>>, skip: seq<string>, m: Member<V>)
    ensures AssignsOf(ms + [m], skip) ==
            AssignsOf(ms, skip) + if m.status == Existing && m.name !in skip then [Assign(m.target)] else []
  {
    if ms == [] {
      assert ms + [m] == [m];
      assert AssignsOf([m][1..], skip) == [];
    } else {
      assert (ms + [m])[0] == ms[0] && (ms + [m])[1..] == ms[1..] + [m];
      AssignsSnoc(ms[1..], skip, m);
    }
  }

  /** The members from 0 to k, read into locals. */
  method EmitLocals<V>(ms: seq<Member<V>>, k: nat) returns (p: Option<seq<ReadInstr<V>>>)
    requires k <= |ms|
    ensures p.Some? <==> ReadOnlyDefaults(ms[..k])
    ensures p.Some? ==> p.value == ReadsOf(ms[..k], true)
  {
    var code := [];
    for i := 0 to k
      invariant ReadOnlyDefaults(ms[..i]) && code == ReadsOf(ms[..i], true)
    {
      assert ms[..i + 1] == ms[..i] + [ms[i]];
      assert ms[..k][i] == ms[i];
      var e := Emitted(ms[i], true);
      if e.None? { return None; }
      code := code + [e.value];
    }
    p := Some(code);
  }

  /** generate_class_code: the emitted write program writes every member in order; the emitted read
      program is ReadProgram. It stops exactly on an unknown constructor name or a read-only member
      without a default. */
  method GenerateClassCode<V>(c: Class<V>, params: seq<Member<V>>)
    returns (code: Option<(seq<WriteInstr<V>>, seq<ReadInstr<V>>)>)
    ensures code.Some? <==> Resolvable(c, params, c.constructor') && ReadOnlyDefaults(c.members)
    ensures code.Some? ==> code.value.0 == WritesOf(c.members)
    ensures code.Some? && DistinctNames(c.members) ==> code.value.1 == ReadProgram(c, params)
  {
    hide Resolvable, Arguments, ReadsOf, WritesOf, AssignsOf, Prefix, DistinctNames;
    var ms, names := c.members, c.constructor';
    var ok, last, args := ConstructorCall(c, params);
    if !ok { return None; }
    var k := last + 1;
    var front := EmitLocals(ms, k);
    assert ms[..|ms|] == ms;
    if front.None? {
      assert !ReadOnlyDefaults(ms[..k]);
      return None;
    }
    var tail := MemberLoop(ms, k, names);
    if tail.None? { return None; }
    var build: ReadInstr<V> := Construct(args);
    assert ReadOnlyDefaults(ms) by {
      forall i | 0 <= i < |ms| && ms[i].status == ReadOnly ensures ms[i].Default().Some? {
        if i < k { assert ms[..k][i] == ms[i]; } else { assert ms[k..][i - k] == ms[i]; }
      }
    }
    code := Some((tail.value.0, front.value + [build] + tail.value.1));
  }

  lemma NothingEmitted<V>(skip: seq<string>)
    ensures ReadsOf<V>([], false) == [] && WritesOf<V>([]) == [] && AssignsOf<V>([], skip) == []
  {
  }

  lemma ElementSnoc<V>(ms: seq<Member<V>>, m: Member<V>)
    ensures ReadsOf(ms + [m], false) == ReadsOf(ms, false) + [DeserializeElement(m, false)]
    ensures WritesOf(ms + [m]) == WritesOf(ms) + [SerializeElement(m)]
  {
  }

  /** The member loop: assignments up to the constructor's last member, reads into the result after it. */
  method MemberLoop<V>(ms: seq<Member<V>>, k: nat, names: seq<string>)
    returns (code: Option<(seq<WriteInstr<V>>, seq<ReadInstr<V>>)>)
    requires k <= |ms|
    ensures code.Some? <==> ReadOnlyDefaults(ms[k..])
    ensures code.Some? ==> code.value == (WritesOf(ms), AssignsOf(ms[..k], names) + ReadsOf(ms[k..], false))
  {
    hide ReadsOf, WritesOf, AssignsOf, SerializeElement, DeserializeElement;
    var writes, reads' := [], [];
    NothingEmitted<V>(names);
    for i := 0 to |ms|
      invariant i > k ==> ReadOnlyDefaults(ms[k..i])
      invariant writes == WritesOf(ms[..i])
      invariant reads' == if i <= k then AssignsOf(ms[..i], names)
                          else AssignsOf(ms[..k], names) + ReadsOf(ms[k..i], false)
    {
      assert ms[..i + 1] == ms[..i] + [ms[i]];
      ElementSnoc(ms[..i], ms[i]);
      writes := writes + [SerializeElement(ms[i])];
      if i >= k {
        assert ms[k..][i - k] == ms[i] && ms[k..i + 1] == ms[k..i] + [ms[i]];
        ElementSnoc(ms[k..i], ms[i]);
        var e := Emitted(ms[i], false);
        if e.None? { return None; }
        reads' := reads' + [e.value];
      } else {
        AssignsSnoc(ms[..i], names, ms[i]);
        if ms[i].name !in names && ms[i].status == Existing {
          reads' := reads' + [Assign(ms[i].target)];
        }
      }
    }
    assert ms[..|ms|] == ms && ms[k..|ms|] == ms[k..];
    if |ms| == k {
      assert ms[k..] == [] && ms[..k] == ms;
      assert reads' == AssignsOf(ms[..k], names) + ReadsOf(ms[k..], false);
    }
    code := Some((writes, reads'));
  }

  // ----- generate_base_class_code -----

  lemma {:induction false} AssignableSnoc<V>(b: Base<V>, ms: seq<Member<V>>, m: Member<V>)
    ensures Assignable(b, ms + [m]) == Assignable(b, ms) + if PlainMember(b, m) then [m] else []
  {
    if ms == [] {
      assert ms + [m] == [m];
      assert Assignable(b, [m][1..]) == [];
    } else {
      assert (ms + [m])[0] == ms[0] && (ms + [m])[1..] == ms[1..] + [m];
      AssignableSnoc(b, ms[1..], m);
    }
  }

  /** The base class's programs: what it writes, what it reads before the switch over the tag (its
      members, then its parameters), and the assignments after it. */
  method GenerateBaseCode<V>(b: Base<V>)
    returns (code: Option<(seq<WriteInstr<V>>, seq<ReadInstr<V>>, seq<ReadInstr<V>>)>)
    ensures code.Some? <==> ReadOnlyDefaults(b.members)
    ensures code.Some? ==>
              code.value == (WritesOf(b.members), ReadsOf(b.members, true) + SetParameters(b.owner, b.parameters),
                             AssignsOf(Assignable(b, b.members), []))
  {
    hide Assignable, AssignsOf, PlainMember, ReadOnlyDefaults;
    var reads' := EmitLocals(b.members, |b.members|);
    assert b.members[..|b.members|] == b.members;
    if reads'.None? { return None; }
    var writes := [];
    for i := 0 to |b.members|
      invariant writes == WritesOf(b.members[..i])
    {
      writes := writes + [SerializeElement(b.members[i])];
    }
    var sets := [];
    for i := 0 to |b.parameters|
      invariant sets == SetParameters(b.owner, b.parameters[..i])
    {
      sets := sets + [SetParameter(b.parameters[i].ty, Place(b.owner, b.parameters[i].name))];
    }
    assert b.parameters[..|b.parameters|] == b.parameters;
    var assigns := EmitAssigns(b);
    code := Some((writes, reads'.value + sets, assigns));
  }

  /** assign_entries, then one assignment for each existing entry. */
  method EmitAssigns<V>(b: Base<V>) returns (p: seq<ReadInstr<V>>)
    ensures p == AssignsOf(Assignable(b, b.members), [])
  {
    hide PlainMember, Assignable, AssignsOf;
    var entries := [];
    NothingToAssign(b);
    for i := 0 to |b.members|
      invariant entries == Assignable(b, b.members[..i])
    {
      assert b.members[..i + 1] == b.members[..i] + [b.members[i]];
      AssignableSnoc(b, b.members[..i], b.members[i]);
      if PlainMember(b, b.members[i]) {
        entries := entries + [b.members[i]];
      }
    }
    assert b.members[..|b.members|] == b.members;
    p := AssignEntries(entries);
  }

  lemma NothingToAssign<V>(b: Base<V>)
    ensures Assignable(b, []) == []
  {
  }

  method AssignEntries<V>(entries: seq<Member<V>>) returns (p: seq<ReadInstr<V>>)
    ensures p == AssignsOf(entries, [])
  {
    hide AssignsOf;
    p := [];
    NothingEmitted<V>([]);
    for i := 0 to |entries|
      invariant p == AssignsOf(entries[..i], [])
    {
      assert entries[..i + 1] == entries[..i] + [entries[i]];
      AssignsSnoc(entries[..i], [], entries[i]);
      if entries[i].status == Existing {
        p := p + [Assign(entries[i].target)];
      }
    }
    assert entries[..|entries|] == entries;
  }

  // ----- check_children_for_duplicate_members -----

  datatype ClassNode<V> = ClassNode(members: seq<Member<V>>, children: seq<ClassNode<V>>)

  /** A walk from a class down to a descendant, by child numbers. */
  predicate IsRoute<V>(node: ClassNode<V>, route: seq<nat>)
    decreases node
  {
    route == [] || (route[0] < |node.children| && IsRoute(node.children[route[0]], route[1..]))
  }

  /** All members inherited along a route. */
  function Along<V>(node: ClassNode<V>, route: seq<nat>): (ms: seq<Member<V>>)
    requires IsRoute(node, route)
    decreases node
  {
    node.members + if route == [] then [] else Along(node.children[route[0]], route[1..])
  }

  ghost function NamesOf<V>(ms: seq<Member<V>>): set<string>
  {
    set k | 0 <= k < |ms| :: ms[k].name
  }

  ghost function IdsOf<V>(ms: seq<Member<V>>): set<nat>
  {
    set k | 0 <= k < |ms| :: ms[k].id
  }

  /** No name and no id occurs twice, or has been seen before. */
  ghost predicate Unseen<V>(ms: seq<Member<V>>, names: set<string>, ids: set<nat>)
  {
    DistinctNames(ms) && DistinctIds(ms) && NamesOf(ms) !! names && IdsOf(ms) !! ids
  }

  ghost predicate Accepts<V>(node: ClassNode<V>, names: set<string>, ids: set<nat>)
    decreases node
  {
    Unseen(node.members, names, ids) &&
    forall k :: 0 <= k < |node.children| ==>
      Accepts(node.children[k], names + NamesOf(node.members), ids + IdsOf(node.members))
  }

  lemma UnseenAppend<V>(a: seq<Member<V>>, b: seq<Member<V>>, names: set<string>, ids: set<nat>)
    ensures Unseen(a + b, names, ids) <==> Unseen(a, names, ids) && Unseen(b, names + NamesOf(a), ids + IdsOf(a))
  {
    var all := a + b;
    assert forall i :: 0 <= i < |a| ==> all[i] == a[i];
    assert forall i :: 0 <= i < |b| ==> all[|a| + i] == b[i];
    assert NamesOf(all) == NamesOf(a) + NamesOf(b);
    assert IdsOf(all) == IdsOf(a) + IdsOf(b);
    if Unseen(all, names, ids) {
      forall i, j | 0 <= i < j < |b| ensures b[i].name != b[j].name && b[i].id != b[j].id {
        assert all[|a| + i].name != all[|a| + j].name && all[|a| + i].id != all[|a| + j].id;
      }
      forall i, j | 0 <= i < |a| && 0 <= j < |b| ensures a[i].name != b[j].name && a[i].id != b[j].id {
        assert all[i].name != all[|a| + j].name && all[i].id != all[|a| + j].id;
      }
    }
    if Unseen(a, names, ids) && Unseen(b, names + NamesOf(a), ids + IdsOf(a)) {
      forall i, j | 0 <= i < j < |all| ensures all[i].name != all[j].name && all[i].id != all[j].id {
        if i < |a| <= j {
          assert all[j] == b[j - |a|] && b[j - |a|].name in NamesOf(b) && a[i].name in NamesOf(a);
          assert b[j - |a|].id in IdsOf(b) && a[i].id in IdsOf(a);
        } else if |a| <= i {
          assert all[i] == b[i - |a|] && all[j] == b[j - |a|];
        }
      }
    }
  }

  lemma {:induction false} AcceptedRoute<V>(node: ClassNode<V>, names: set<string>, ids: set<nat>, route: seq<nat>)
    requires Accepts(node, names, ids) && IsRoute(node, route)
    ensures Unseen(Along(node, route), names, ids)
    decreases node
  {
    hide Unseen, NamesOf, IdsOf;
    if route == [] {
      assert Along(node, route) == node.members;
    } else {
      var child := node.children[route[0]];
      AcceptedRoute(child, names + NamesOf(node.members), ids + IdsOf(node.members), route[1..]);
      UnseenAppend(node.members, Along(child, route[1..]), names, ids);
    }
  }

  ghost predicate RoutesUnseen<V>(node: ClassNode<V>, names: set<string>, ids: set<nat>)
  {
    forall route :: IsRoute(node, route) ==> Unseen(Along(node, route), names, ids)
  }

  lemma {:induction false} UnseenAccepted<V>(node: ClassNode<V>, names: set<string>, ids: set<nat>)
    requires RoutesUnseen(node, names, ids)
    ensures Accepts(node, names, ids)
    decreases node
  {
    hide Unseen, NamesOf, IdsOf;
    assert IsRoute(node, []) && Along(node, []) == node.members;
    var names', ids' := names + NamesOf(node.members), ids + IdsOf(node.members);
    forall k | 0 <= k < |node.children| ensures Accepts(node.children[k], names', ids') {
      var child, at: nat := node.children[k], k;
      forall route | IsRoute(child, route) ensures Unseen(Along(child, route), names', ids') {
        var longer := [at] + route;
        assert longer[0] == at && longer[1..] == route;
        assert IsRoute(node, longer) && Along(node, longer) == node.members + Along(child, route);
        UnseenAppend(node.members, Along(child, route), names, ids);
      }
      UnseenAccepted(child, names', ids');
    }
  }

  /** The check accepts a class exactly when no walk down its tree repeats a member name or id. */
  lemma AcceptsIffDistinct<V>(node: ClassNode<V>, names: set<string>, ids: set<nat>)
    ensures Accepts(node, names, ids) <==> RoutesUnseen(node, names, ids)
  {
    hide Unseen, Along;
    if Accepts(node, names, ids) {
      forall route | IsRoute(node, route) ensures Unseen(Along(node, route), names, ids) {
        AcceptedRoute(node, names, ids, route);
      }
    }
    if RoutesUnseen(node, names, ids) {
      UnseenAccepted(node, names, ids);
    }
  }

  /** The member loop of the check: the sets grow, and the first repetition stops it. */
  method CheckMembers<V>(ms: seq<Member<V>>, names: set<string>, ids: set<nat>)
    returns (ok: bool, seenNames: set<string>, seenIds: set<nat>)
    ensures ok <==> Unseen(ms, names, ids)
    ensures ok ==> seenNames == names + NamesOf(ms) && seenIds == ids + IdsOf(ms)
  {
    ok, seenNames, seenIds := true, names, ids;
    for k := 0 to |ms|
      invariant ok && Unseen(ms[..k], names, ids)
      invariant seenNames == names + NamesOf(ms[..k]) && seenIds == ids + IdsOf(ms[..k])
    {
      assert ms[..k + 1] == ms[..k] + [ms[k]];
      assert NamesOf([ms[k]]) == {ms[k].name} && IdsOf([ms[k]]) == {ms[k].id};
      UnseenAppend(ms[..k], [ms[k]], names, ids);
      UnseenAppend(ms[..k + 1], ms[k + 1..], names, ids);
      assert ms == ms[..k + 1] + ms[k + 1..];
      if ms[k].name in seenNames || ms[k].id in seenIds {
        ok := false;
        return;
      }
      seenNames, seenIds := seenNames + {ms[k].name}, seenIds + {ms[k].id};
    }
    assert ms[..|ms|] == ms;
  }

  method CheckChildrenForDuplicateMembers<V>(node: ClassNode<V>, names: set<string>, ids: set<nat>) returns (ok: bool)
    ensures ok <==> Accepts(node, names, ids)
    decreases node
  {
    hide Unseen;
    var seenNames, seenIds;
    ok, seenNames, seenIds := CheckMembers(node.members, names, ids);
    if !ok { return; }
    for k := 0 to |node.children|
      invariant ok && forall i :: 0 <= i < k ==> Accepts(node.children[i], seenNames, seenIds)
    {
      ok := CheckChildrenForDuplicateMembers(node.children[k], seenNames, seenIds);
      if !ok { return; }
    }
  }

  /** An accepted base class and any class derived from it have the distinct ids and names that the round
      trip asks for. */
  lemma AcceptedPair<V>(node: ClassNode<V>, k: nat)
    requires Accepts(node, {}, {}) && k < |node.children|
    ensures DistinctIds(node.members + node.children[k].members) &&
            DistinctNames(node.members + node.children[k].members)
  {
    var child := node.children[k];
    assert IsRoute(child, []) && Along(child, []) == child.members;
    assert [k][0] == k && [k][1..] == [];
    assert IsRoute(node, [k]) && Along(node, [k]) == node.members + child.members;
    AcceptedRoute(node, {}, {}, [k]);
  }
}
