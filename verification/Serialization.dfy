/** The serialization code generator: class descriptions become a write program and a read program
    over a stream of (field id, value) pairs, and the read program undoes the write program for
    every target version. */
module Serialization {
  import opened Wrappers

  datatype Status = Existing | ReadOnly | Deleted

  /** A field of an object, by the class that declares it: a derived class may have a field of the same
      name as its base class, and they are two. */
  datatype Place = Place(owner: string, name: string)

  /** A member entry. `source` and `target` are its serialize and deserialize properties, `explicit`
      the default given for it, `byType` the default its type has anyway, and `version` the storage
      version it was added in (or, unless existing, dropped in). */
  datatype Member<V> = Member(
    id: nat, name: string, ty: string, source: Place, target: Place,
    explicit: Option<V>, byType: Option<V>, status: Status, version: nat)
  {
    function Default(): Option<V>
    {
      if explicit.Some? then explicit else byType
    }

    /** Members of storage version 1 are written unconditionally. */
    predicate Conditional()
    {
      version != 1
    }
  }

  datatype Field<V> = Field(id: nat, value: V)

  // ----- the write program -----

  /** `when` is the guard ShouldSerialize(version), expected to be the given truth value. */
  datatype WriteInstr<V> =
    | Remark
    | Write(id: nat, source: Place)
    | WriteUnless(id: nat, source: Place, default: V)
    | When(version: nat, expected: bool, body: WriteInstr<V>)

  /** get_serialize_element. */
  function SerializeElement<V>(m: Member<V>): (i: WriteInstr<V>)
  {
    var body :=
      if m.status != Existing && !m.Conditional() then Remark
      else if m.Default().Some? then WriteUnless(m.id, m.source, m.Default().value)
      else Write(m.id, m.source);
    if m.Conditional() then When(m.version, m.status == Existing, body) else body
  }

  /** How the serializer was set up: the version to write for, and whether defaults are written. */
  datatype Target = Target(version: nat, writeDefaults: bool)

  type Obj<V> = map<Place, V>

  predicate ShouldSerialize(t: Target, version: nat)
  {
    version <= t.version
  }

  ghost predicate Writable<V>(i: WriteInstr<V>, obj: Obj<V>)
  {
    match i
    case Remark => true
    case Write(_, source) => source in obj
    case WriteUnless(_, source, _) => source in obj
    case When(_, _, body) => Writable(body, obj)
  }

  function ExecWrite<V(==)>(i: WriteInstr<V>, obj: Obj<V>, t: Target): (out: seq<Field<V>>)
    requires Writable(i, obj)
  {
    match i
    case Remark => []
    case Write(id, source) => [Field(id, obj[source])]
    case WriteUnless(id, source, default) =>
      if !t.writeDefaults && obj[source] == default then [] else [Field(id, obj[source])]
    case When(version, expected, body) =>
      if ShouldSerialize(t, version) == expected then ExecWrite(body, obj, t) else []
  }

  /** The object has what the member's element refers to: its serialize property, unless the element is
      but a remark on a member that was dropped for good. */
  predicate CanWrite<V>(m: Member<V>, obj: Obj<V>)
  {
    m.status == Existing || m.Conditional() ==> m.source in obj
  }

  lemma CanWriteIff<V>(m: Member<V>, obj: Obj<V>)
    ensures CanWrite(m, obj) <==> Writable(SerializeElement(m), obj)
  {
    var i := SerializeElement(m);
    if i.When? { assert Writable(i, obj) <==> Writable(i.body, obj); }
  }

  ghost predicate HasAll<V>(ms: seq<Member<V>>, obj: Obj<V>)
  {
    forall k :: 0 <= k < |ms| ==> CanWrite(ms[k], obj)
  }

  /** The stream that the members leave, in order. */
  function Stream<V(==)>(ms: seq<Member<V>>, obj: Obj<V>, t: Target): (out: seq<Field<V>>)
    requires HasAll(ms, obj)
  {
    if ms == [] then []
    else
      CanWriteIff(ms[0], obj);
      ExecWrite(SerializeElement(ms[0]), obj, t) + Stream(ms[1..], obj, t)
  }

  // ----- the read program -----

  datatype ReadInstr<V> =
    | ReadLocal(id: nat, local: Place, default: Option<V>)
    | ReadField(id: nat, field: Place, default: Option<V>)
    | ReadDeleted(id: nat)
    | SetParameter(ty: string, local: Place)
    | Construct(arguments: seq<Argument>)
    | Assign(local: Place)

  /** A constructor argument: a local variable, or a parameter that the base class has set. */
  datatype Argument = FromLocal(property: Place) | FromContext(ty: string, property: Place)

  /** get_deserialize_element_template, into a local variable or a field of the result. */
  function DeserializeElement<V>(m: Member<V>, local: bool): (i: ReadInstr<V>)
  {
    if m.status == Deleted then ReadDeleted(m.id)
    else if local then ReadLocal(m.id, m.target, m.Default())
    else ReadField(m.id, m.target, m.Default())
  }

  /** The reader: fields left, local variables (by the field each stands for), parameters set by type, and
      the object so far. */
  datatype Reader<V> = Reader(rest: seq<Field<V>>, locals: Obj<V>, context: map<string, V>, obj: Obj<V>)

  /** ReadProperty and its variants: the next field if it has the id, else the default, else an error. */
  function Take<V>(id: nat, default: Option<V>, rest: seq<Field<V>>): (r: Option<(V, seq<Field<V>>)>)
  {
    if rest != [] && rest[0].id == id then Some((rest[0].value, rest[1..]))
    else if default.Some? then Some((default.value, rest))
    else None
  }

  /** The constructor stores each argument in its property. */
  function Constructed<V>(args: seq<Argument>, r: Reader<V>, into: Obj<V>): (o: Option<Obj<V>>)
  {
    if args == [] then Some(into)
    else
      match args[0]
      case FromLocal(property) =>
        if property in r.locals then Constructed(args[1..], r, into[property := r.locals[property]]) else None
      case FromContext(ty, property) =>
        if ty in r.context then Constructed(args[1..], r, into[property := r.context[ty]]) else None
  }

  function Exec1<V>(i: ReadInstr<V>, r: Reader<V>): (r': Option<Reader<V>>)
  {
    match i
    case ReadLocal(id, local, default) =>
      var got := Take(id, default, r.rest);
      if got.None? then None else Some(r.(rest := got.value.1, locals := r.locals[local := got.value.0]))
    case ReadField(id, field, default) =>
      var got := Take(id, default, r.rest);
      if got.None? then None else Some(r.(rest := got.value.1, obj := r.obj[field := got.value.0]))
    case ReadDeleted(id) =>
      if r.rest != [] && r.rest[0].id == id then Some(r.(rest := r.rest[1..])) else Some(r)
    case SetParameter(ty, local) =>
      if local in r.locals then Some(r.(context := r.context[ty := r.locals[local]])) else None
    case Construct(arguments) =>
      var o := Constructed(arguments, r, map[]);
      if o.None? then None else Some(r.(obj := o.value))
    case Assign(local) =>
      if local in r.locals then Some(r.(obj := r.obj[local := r.locals[local]])) else None
  }

  function Exec<V>(p: seq<ReadInstr<V>>, r: Reader<V>): (r': Option<Reader<V>>)
  {
    if p == [] then Some(r)
    else
      var next := Exec1(p[0], r);
      if next.None? then None else Exec(p[1..], next.value)
  }

  lemma {:induction false} ExecAppend<V>(p: seq<ReadInstr<V>>, q: seq<ReadInstr<V>>, r: Reader<V>)
    ensures Exec(p + q, r) == if Exec(p, r).None? then None else Exec(q, Exec(p, r).value)
  {
    if p == [] {
      assert p + q == q;
    } else {
      assert (p + q)[0] == p[0] && (p + q)[1..] == p[1..] + q;
      if Exec1(p[0], r).Some? {
        ExecAppend(p[1..], q, Exec1(p[0], r).value);
      }
    }
  }

  // ----- the generator -----

  datatype Class<V> = Class(members: seq<Member<V>>, constructor': seq<string>)

  /** A base class: its members, the property that holds the class tag, and the members whose values
      it hands to the constructors of derived classes. */
  datatype Base<V> = Base(owner: string, members: seq<Member<V>>, tag: string, parameters: seq<Member<V>>)

  function ReadsOf<V>(ms: seq<Member<V>>, local: bool): (p: seq<ReadInstr<V>>)
  {
    seq(|ms|, k requires 0 <= k < |ms| => DeserializeElement(ms[k], local))
  }

  /** The assignments of existing members that were read into locals and not given to the constructor. */
  function AssignsOf<V>(ms: seq<Member<V>>, skip: seq<string>): (p: seq<ReadInstr<V>>)
  {
    if ms == [] then []
    else (if ms[0].status == Existing && ms[0].name !in skip then [Assign(ms[0].target)] else []) +
         AssignsOf(ms[1..], skip)
  }

  /** One past the last member that the constructor takes. */
  function Prefix<V>(ms: seq<Member<V>>, names: seq<string>): (k: nat)
    ensures k <= |ms|
    ensures forall j :: k <= j < |ms| ==> ms[j].name !in names
    ensures k > 0 ==> ms[k - 1].name in names
  {
    if ms == [] then 0
    else if ms[|ms| - 1].name in names then |ms|
    else Prefix(ms[..|ms| - 1], names)
  }

  /** The first member of that name, if any. */
  function Named<V>(ms: seq<Member<V>>, name: string): (found: seq<Member<V>>)
    ensures |found| <= 1
    ensures found != [] ==> found[0] in ms && found[0].name == name
    ensures found == [] ==> forall k :: 0 <= k < |ms| ==> ms[k].name != name
  {
    if ms == [] then [] else if ms[0].name == name then [ms[0]] else Named(ms[1..], name)
  }

  /** The constructor call: for each name, the member and the base parameter of that name. */
  function Arguments<V>(ms: seq<Member<V>>, params: seq<Member<V>>, names: seq<string>): (args: seq<Argument>)
  {
    if names == [] then [] else ArgumentsFor(ms, params, names[0]) + Arguments(ms, params, names[1..])
  }

  function ArgumentsFor<V>(ms: seq<Member<V>>, params: seq<Member<V>>, name: string): (args: seq<Argument>)
  {
    var own, set' := Named(ms, name), Named(params, name);
    (if own != [] then [FromLocal(own[0].target)] else []) +
    (if set' != [] then [FromContext(set'[0].ty, set'[0].target)] else [])
  }

  /** generate_class_code: read the constructor's prefix into locals, construct, assign what the
      constructor did not take, read the rest straight into the result. */
  function ReadProgram<V>(c: Class<V>, params: seq<Member<V>>): (p: seq<ReadInstr<V>>)
  {
    var k := Prefix(c.members, c.constructor');
    ReadsOf(c.members[..k], true)
    + [Construct(Arguments(c.members, params, c.constructor'))]
    + AssignsOf(c.members[..k], c.constructor')
    + ReadsOf(c.members[k..], false)
  }

  // ----- what each member's element writes and reads -----

  /** The member's value is in the stream, or skipped because it is the default. */
  predicate Carried<V>(m: Member<V>, t: Target)
  {
    if m.status == Existing then !m.Conditional() || ShouldSerialize(t, m.version)
    else m.Conditional() && !ShouldSerialize(t, m.version)
  }

  predicate Readable<V>(m: Member<V>, t: Target)
  {
    m.status == Deleted || Carried(m, t) || m.Default().Some?
  }

  function Expected<V>(m: Member<V>, obj: Obj<V>, t: Target): (v: V)
    requires CanWrite(m, obj) && m.status != Deleted && Readable(m, t)
  {
    if Carried(m, t) then obj[m.source] else m.Default().value
  }

  ghost predicate NextIsOther<V>(id: nat, rest: seq<Field<V>>)
  {
    rest == [] || rest[0].id != id
  }

  /** For which targets a member is in the stream: an existing one from the version that brought it on, one
      that was dropped before the version that dropped it. */
  lemma CarriedIff<V>(m: Member<V>, t: Target)
    ensures Carried(m, t) <==>
            match m.status
            case Existing => m.version == 1 || m.version <= t.version
            case _ => m.version != 1 && t.version < m.version
  {
  }

  /** A newer target carries every existing member that an older one does, and no dropped member that the
      older one does not. */
  lemma NewerTargets<V>(m: Member<V>, t: Target, newer: Target)
    requires t.version <= newer.version
    ensures m.status == Existing && Carried(m, t) ==> Carried(m, newer)
    ensures m.status != Existing && Carried(m, newer) ==> Carried(m, t)
  {
    CarriedIff(m, t);
    CarriedIff(m, newer);
  }

  /** The default given with a member goes before that of its type. */
  lemma DefaultIs<V>(m: Member<V>)
    ensures m.Default() == match m.explicit case Some(v) => Some(v) case None => m.byType
  {
  }

  /** A member writes one field at most: none exactly when it is not carried, or is its default. */
  lemma ElementWrites<V>(m: Member<V>, obj: Obj<V>, t: Target)
    requires CanWrite(m, obj)
    ensures Writable(SerializeElement(m), obj)
    ensures ExecWrite(SerializeElement(m), obj, t) ==
            if Carried(m, t) && (t.writeDefaults || m.Default() != Some(obj[m.source]))
            then [Field(m.id, obj[m.source])] else []
  {
    var i := SerializeElement(m);
    if i.When? { assert Writable(i.body, obj); }
  }

  lemma ElementRoundTrip<V>(m: Member<V>, local: bool, obj: Obj<V>, t: Target, r: Reader<V>, rest: seq<Field<V>>)
    requires CanWrite(m, obj) && Writable(SerializeElement(m), obj) && NextIsOther(m.id, rest)
    requires r.rest == ExecWrite(SerializeElement(m), obj, t) + rest
    ensures Exec1(DeserializeElement(m, local), r).Some? <==> Readable(m, t)
    ensures Readable(m, t) ==>
              Exec1(DeserializeElement(m, local), r).value ==
              if m.status == Deleted then r.(rest := rest)
              else if local then r.(rest := rest, locals := r.locals[m.target := Expected(m, obj, t)])
              else r.(rest := rest, obj := r.obj[m.target := Expected(m, obj, t)])
  {
    ElementWrites(m, obj, t);
    var out := ExecWrite(SerializeElement(m), obj, t);
    if out == [] {
      assert r.rest == rest;
    } else {
      assert r.rest[0] == out[0] == Field(m.id, obj[m.source]) && r.rest[1..] == rest;
    }
  }

  // ----- sequences of members -----

  ghost predicate DistinctIds<V>(ms: seq<Member<V>>)
  {
    forall j, k :: 0 <= j < k < |ms| ==> ms[j].id != ms[k].id
  }

  predicate Live<V>(m: Member<V>)
  {
    m.status != Deleted
  }

  /** No two live members have the same target; a deleted one may have handed its own to another. */
  ghost predicate DistinctTargets<V>(ms: seq<Member<V>>)
  {
    forall j, k :: 0 <= j < k < |ms| && Live(ms[j]) && Live(ms[k]) ==> ms[j].target != ms[k].target
  }

  ghost predicate TargetsDiffer<V>(ms: seq<Member<V>>, others: seq<Member<V>>)
  {
    forall a, b :: a in ms && b in others && Live(a) && Live(b) ==> a.target != b.target
  }

  ghost predicate DistinctNames<V>(ms: seq<Member<V>>)
  {
    forall j, k :: 0 <= j < k < |ms| ==> ms[j].name != ms[k].name
  }

  ghost predicate AllReadable<V>(ms: seq<Member<V>>, t: Target)
  {
    forall k :: 0 <= k < |ms| ==> Readable(ms[k], t)
  }

  ghost predicate OtherIds<V>(ms: seq<Member<V>>, tail: seq<Field<V>>)
  {
    forall k :: 0 <= k < |ms| ==> NextIsOther(ms[k].id, tail)
  }

  lemma {:induction false} StreamHead<V>(ms: seq<Member<V>>, obj: Obj<V>, t: Target, tail: seq<Field<V>>, id: nat)
    requires HasAll(ms, obj) && NextIsOther(id, tail) && forall k :: 0 <= k < |ms| ==> ms[k].id != id
    ensures NextIsOther(id, Stream(ms, obj, t) + tail)
  {
    if ms == [] {
      assert Stream(ms, obj, t) + tail == tail;
    } else {
      StreamHead(ms[1..], obj, t, tail, id);
      var out := ExecWrite(SerializeElement(ms[0]), obj, t);
      assert Stream(ms, obj, t) + tail == out + (Stream(ms[1..], obj, t) + tail);
      ElementWrites(ms[0], obj, t);
      hide ExecWrite, SerializeElement;
    }
  }

  lemma {:induction false} StreamAppend<V>(a: seq<Member<V>>, b: seq<Member<V>>, obj: Obj<V>, t: Target)
    requires HasAll(a, obj) && HasAll(b, obj)
    ensures HasAll(a + b, obj) && Stream(a + b, obj, t) == Stream(a, obj, t) + Stream(b, obj, t)
  {
    if a == [] {
      assert a + b == b;
    } else {
      assert (a + b)[0] == a[0] && (a + b)[1..] == a[1..] + b;
      StreamAppend(a[1..], b, obj, t);
    }
  }

  /** The variables after reading the members one by one. */
  ghost function Loaded<V>(ms: seq<Member<V>>, obj: Obj<V>, t: Target, into: Obj<V>): (o: Obj<V>)
    requires HasAll(ms, obj) && AllReadable(ms, t)
  {
    if ms == [] then into
    else Loaded(ms[1..], obj, t,
                if ms[0].status == Deleted then into else into[ms[0].target := Expected(ms[0], obj, t)])
  }

  /** Key `key` keeps its value. */
  ghost predicate SameAt<V>(key: Place, from: Obj<V>, to: Obj<V>)
  {
    (key in to <==> key in from) && (key in from ==> to[key] == from[key])
  }

  lemma {:induction false} LoadedOther<V>(ms: seq<Member<V>>, obj: Obj<V>, t: Target, into: Obj<V>, key: Place)
    requires HasAll(ms, obj) && AllReadable(ms, t)
    requires forall k :: 0 <= k < |ms| && ms[k].status != Deleted ==> ms[k].target != key
    ensures SameAt(key, into, Loaded(ms, obj, t, into))
  {
    if ms != [] {
      var next := if ms[0].status == Deleted then into else into[ms[0].target := Expected(ms[0], obj, t)];
      LoadedOther(ms[1..], obj, t, next, key);
    }
  }

  lemma {:induction false} LoadedHas<V>(ms: seq<Member<V>>, obj: Obj<V>, t: Target, into: Obj<V>, k: nat)
    requires HasAll(ms, obj) && AllReadable(ms, t) && DistinctTargets(ms) && k < |ms| && ms[k].status != Deleted
    ensures ms[k].target in Loaded(ms, obj, t, into)
    ensures Loaded(ms, obj, t, into)[ms[k].target] == Expected(ms[k], obj, t)
  {
    var next := if ms[0].status == Deleted then into else into[ms[0].target := Expected(ms[0], obj, t)];
    if k == 0 {
      LoadedOther(ms[1..], obj, t, next, ms[0].target);
    } else {
      LoadedHas(ms[1..], obj, t, next, k - 1);
    }
  }

  /** Reading the first member, then the others. */
  lemma MembersStep<V>(ms: seq<Member<V>>, local: bool, obj: Obj<V>, t: Target, r: Reader<V>, tail: seq<Field<V>>)
    requires ms != [] && HasAll(ms, obj) && DistinctIds(ms) && OtherIds(ms, tail) && r.rest == Stream(ms, obj, t) + tail
    ensures CanWrite(ms[0], obj) && HasAll(ms[1..], obj)
    ensures var rest := Stream(ms[1..], obj, t) + tail;
            Exec(ReadsOf(ms, local), r) ==
            if !Readable(ms[0], t) then None
            else Exec(ReadsOf(ms[1..], local),
                      if ms[0].status == Deleted then r.(rest := rest)
                      else if local then r.(rest := rest, locals := r.locals[ms[0].target := Expected(ms[0], obj, t)])
                      else r.(rest := rest, obj := r.obj[ms[0].target := Expected(ms[0], obj, t)]))
  {
    hide Expected, Readable, DeserializeElement, SerializeElement, ExecWrite, Exec1, Writable, Stream, Exec, ReadsOf;
    var rest := Stream(ms[1..], obj, t) + tail;
    ElementWrites(ms[0], obj, t);
    StreamCons(ms, obj, t, tail);
    StreamHead(ms[1..], obj, t, tail, ms[0].id);
    ElementRoundTrip(ms[0], local, obj, t, r, rest);
    ExecCons(ms, local, r);
  }

  lemma StreamCons<V>(ms: seq<Member<V>>, obj: Obj<V>, t: Target, tail: seq<Field<V>>)
    requires ms != [] && HasAll(ms, obj)
    ensures Writable(SerializeElement(ms[0]), obj) && HasAll(ms[1..], obj)
    ensures Stream(ms, obj, t) + tail == ExecWrite(SerializeElement(ms[0]), obj, t) + (Stream(ms[1..], obj, t) + tail)
  {
    hide SerializeElement, ExecWrite;
    CanWriteIff(ms[0], obj);
  }

  lemma ExecCons<V>(ms: seq<Member<V>>, local: bool, r: Reader<V>)
    requires ms != []
    ensures var next := Exec1(DeserializeElement(ms[0], local), r);
            Exec(ReadsOf(ms, local), r) == if next.None? then None else Exec(ReadsOf(ms[1..], local), next.value)
  {
    hide DeserializeElement, Exec1;
    var p := ReadsOf(ms, local);
    assert p[0] == DeserializeElement(ms[0], local) && p[1..] == ReadsOf(ms[1..], local);
  }

  lemma AllReadableCons<V>(ms: seq<Member<V>>, t: Target)
    requires ms != []
    ensures AllReadable(ms, t) <==> Readable(ms[0], t) && AllReadable(ms[1..], t)
  {
    assert forall k :: 0 < k < |ms| ==> ms[k] == ms[1..][k - 1];
  }

  lemma {:induction false} MembersRoundTrip<V>(ms: seq<Member<V>>, local: bool, obj: Obj<V>, t: Target, r: Reader<V>,
                                               tail: seq<Field<V>>)
    requires HasAll(ms, obj) && DistinctIds(ms) && OtherIds(ms, tail) && r.rest == Stream(ms, obj, t) + tail
    ensures Exec(ReadsOf(ms, local), r).Some? <==> AllReadable(ms, t)
    ensures AllReadable(ms, t) ==>
              Exec(ReadsOf(ms, local), r).value ==
              if local then r.(rest := tail, locals := Loaded(ms, obj, t, r.locals))
              else r.(rest := tail, obj := Loaded(ms, obj, t, r.obj))
  {
    if ms == [] {
      assert Stream(ms, obj, t) + tail == tail;
    } else {
      hide Expected, Readable, Stream, Exec, ReadsOf, AllReadable;
      AllReadableCons(ms, t);
      MembersStep(ms, local, obj, t, r, tail);
      if Readable(ms[0], t) {
        var rest := Stream(ms[1..], obj, t) + tail;
        var next := if ms[0].status == Deleted then r.(rest := rest)
                    else if local then r.(rest := rest, locals := r.locals[ms[0].target := Expected(ms[0], obj, t)])
                    else r.(rest := rest, obj := r.obj[ms[0].target := Expected(ms[0], obj, t)]);
        MembersRoundTrip(ms[1..], local, obj, t, next, tail);
      }
    }
  }

  // ----- construction and assignment -----

  ghost predicate Available<V>(a: Argument, r: Reader<V>)
  {
    match a
    case FromLocal(property) => property in r.locals
    case FromContext(ty, _) => ty in r.context
  }

  ghost function ValueOf<V>(a: Argument, r: Reader<V>): V
    requires Available(a, r)
  {
    match a
    case FromLocal(property) => r.locals[property]
    case FromContext(ty, _) => r.context[ty]
  }

  /** The constructed object at `key`: the value the arguments agree on, or what was there before. */
  lemma {:induction false} ConstructedAt<V>(args: seq<Argument>, r: Reader<V>, into: Obj<V>, key: Place, v: V)
    requires forall a :: a in args ==> Available(a, r)
    requires forall a :: a in args && a.property == key ==> ValueOf(a, r) == v
    ensures var o := Constructed(args, r, into);
            o.Some? &&
            (if exists a :: a in args && a.property == key then key in o.value && o.value[key] == v
             else SameAt(key, into, o.value))
  {
    if args != [] {
      var a := args[0];
      var next := into[a.property := ValueOf(a, r)];
      assert forall b :: b in args <==> b == a || b in args[1..];
      ConstructedAt(args[1..], r, next, key, v);
    }
  }

  /** Where an argument of the constructor call comes from. */
  ghost predicate Stems<V>(ms: seq<Member<V>>, params: seq<Member<V>>, names: seq<string>, a: Argument)
  {
    match a
    case FromLocal(property) => exists m :: m in ms && m.name in names && m.target == property
    case FromContext(ty, property) => exists m :: m in params && m.name in names && m.ty == ty && m.target == property
  }

  lemma {:induction false} ArgumentsStem<V>(ms: seq<Member<V>>, params: seq<Member<V>>, names: seq<string>, a: Argument)
    requires a in Arguments(ms, params, names)
    ensures Stems(ms, params, names, a)
  {
    if a in Arguments(ms, params, names[1..]) {
      ArgumentsStem(ms, params, names[1..], a);
    } else {
      var own, set' := Named(ms, names[0]), Named(params, names[0]);
      assert (own != [] && a == FromLocal(own[0].target)) ||
             (set' != [] && a == FromContext(set'[0].ty, set'[0].target));
    }
  }

  lemma {:induction false} NamedIs<V>(ms: seq<Member<V>>, k: nat)
    requires DistinctNames(ms) && k < |ms|
    ensures Named(ms, ms[k].name) == [ms[k]]
  {
    if k > 0 { NamedIs(ms[1..], k - 1); }
  }

  lemma {:induction false} ArgumentsHave<V>(ms: seq<Member<V>>, params: seq<Member<V>>, names: seq<string>, k: nat)
    requires DistinctNames(ms) && DistinctNames(params)
    ensures k < |ms| && ms[k].name in names ==> FromLocal(ms[k].target) in Arguments(ms, params, names)
    ensures k < |params| && params[k].name in names ==>
            FromContext(params[k].ty, params[k].target) in Arguments(ms, params, names)
  {
    if names != [] {
      ArgumentsHave(ms, params, names[1..], k);
      if k < |ms| { NamedIs(ms, k); }
      if k < |params| { NamedIs(params, k); }
    }
  }

  /** Members that an assignment list touches. */
  ghost predicate AssignedIn<V>(ms: seq<Member<V>>, skip: seq<string>, key: Place)
  {
    exists m :: m in ms && m.status == Existing && m.name !in skip && m.target == key
  }

  lemma {:induction false} AssignsRun<V>(ms: seq<Member<V>>, skip: seq<string>, r: Reader<V>, key: Place)
    requires forall m :: m in ms && m.status == Existing ==> m.target in r.locals
    ensures var s := Exec(AssignsOf(ms, skip), r);
            s.Some? && s.value == r.(obj := s.value.obj) &&
            (if AssignedIn(ms, skip, key) then key in s.value.obj && s.value.obj[key] == r.locals[key]
             else SameAt(key, r.obj, s.value.obj))
  {
    if ms != [] {
      assert forall m :: m in ms <==> m == ms[0] || m in ms[1..];
      if ms[0].status == Existing && ms[0].name !in skip {
        var next := r.(obj := r.obj[ms[0].target := r.locals[ms[0].target]]);
        assert AssignsOf(ms, skip)[0] == Assign(ms[0].target) && AssignsOf(ms, skip)[1..] == AssignsOf(ms[1..], skip);
        AssignsRun(ms[1..], skip, next, key);
      } else {
        assert AssignsOf(ms, skip) == AssignsOf(ms[1..], skip);
        AssignsRun(ms[1..], skip, r, key);
      }
    }
  }

  // ----- a class -----

  /** The class description is sound: distinct ids and names, distinct properties of the live members, a
      constructor that takes no deleted member, and base parameters that have been set. */
  ghost predicate SoundClass<V>(c: Class<V>, params: seq<Member<V>>, context: map<string, V>)
  {
    DistinctIds(c.members) && DistinctNames(c.members) && DistinctNames(params) &&
    DistinctTargets(c.members) && DistinctTargets(params) && TargetsDiffer(c.members, params) &&
    (forall m :: m in c.members && m.name in c.constructor' ==> Live(m)) && (forall p :: p in params ==> Live(p)) &&
    (forall m :: m in params && m.name in c.constructor' ==> m.ty in context)
  }

  /** An existing member has its value back; a read-only one that is in the object has its own. */
  ghost predicate MemberOk<V>(m: Member<V>, obj: Obj<V>, t: Target, out: Obj<V>)
  {
    CanWrite(m, obj) && Readable(m, t) &&
    (m.status == Existing ==> m.target in out && out[m.target] == Expected(m, obj, t)) &&
    (m.status == ReadOnly && m.target in out ==> out[m.target] == Expected(m, obj, t))
  }

  ghost predicate Restores<V>(ms: seq<Member<V>>, obj: Obj<V>, t: Target, out: Obj<V>)
  {
    forall m :: m in ms ==> MemberOk(m, obj, t, out)
  }

  /** A base parameter reaches the object exactly when the constructor takes it. */
  ghost predicate ParameterOk<V>(p: Member<V>, names: seq<string>, context: map<string, V>, out: Obj<V>)
  {
    (p.target in out <==> p.name in names) &&
    (p.name in names ==> p.ty in context && out[p.target] == context[p.ty])
  }

  ghost predicate Passes<V>(params: seq<Member<V>>, names: seq<string>, context: map<string, V>, out: Obj<V>)
  {
    forall p :: p in params ==> ParameterOk(p, names, context, out)
  }

  /** A member the constructor takes was read into a local before the construction. */
  lemma FrontMember<V>(c: Class<V>, obj: Obj<V>, t: Target, k: nat, m: Member<V>)
    requires k == Prefix(c.members, c.constructor') && DistinctTargets(c.members) && m in c.members &&
             m.status != Deleted
    requires m.name in c.constructor' || m in c.members[..k]
    requires HasAll(c.members[..k], obj) && AllReadable(c.members[..k], t)
    ensures m in c.members[..k] && CanWrite(m, obj) && Readable(m, t)
    ensures var locals := Loaded(c.members[..k], obj, t, map[]);
            m.target in locals && locals[m.target] == Expected(m, obj, t)
  {
    var j :| 0 <= j < |c.members| && c.members[j] == m && (m.name in c.constructor' || j < k);
    assert c.members[..k][j] == m;
    LoadedHas(c.members[..k], obj, t, map[], j);
  }

  lemma {:induction false} ConstructedSome<V>(args: seq<Argument>, r: Reader<V>, into: Obj<V>)
    requires forall a :: a in args ==> Available(a, r)
    ensures Constructed(args, r, into).Some?
  {
    if args != [] {
      assert args[0] in args;
      ConstructedSome(args[1..], r, into[args[0].property := ValueOf(args[0], r)]);
    }
  }

  lemma SameTarget<V>(ms: seq<Member<V>>)
    requires DistinctTargets(ms)
    ensures forall a, b :: a in ms && b in ms && Live(a) && Live(b) && a.target == b.target ==> a == b
  {
  }

  ghost predicate LocalsReady<V>(c: Class<V>, context: map<string, V>, r: Reader<V>)
  {
    r.context == context && forall m :: m in c.members && m.name in c.constructor' ==> m.target in r.locals
  }

  lemma AllAvailable<V>(c: Class<V>, params: seq<Member<V>>, context: map<string, V>, r: Reader<V>)
    requires SoundClass(c, params, context) && LocalsReady(c, context, r)
    ensures forall a :: a in Arguments(c.members, params, c.constructor') ==>
              Stems(c.members, params, c.constructor', a) && Available(a, r)
    ensures Constructed(Arguments(c.members, params, c.constructor'), r, map[]).Some?
  {
    forall a | a in Arguments(c.members, params, c.constructor')
      ensures Stems(c.members, params, c.constructor', a) && Available(a, r)
    {
      ArgumentsStem(c.members, params, c.constructor', a);
    }
    ConstructedSome(Arguments(c.members, params, c.constructor'), r, map[]);
  }

  /** The constructed object holds a member exactly when the constructor takes it. */
  lemma MadeMember<V>(c: Class<V>, params: seq<Member<V>>, context: map<string, V>, r: Reader<V>, i: nat)
    requires SoundClass(c, params, context) && LocalsReady(c, context, r) && i < |c.members|
    ensures var made := Constructed(Arguments(c.members, params, c.constructor'), r, map[]);
            var m := c.members[i];
            made.Some? && (Live(m) ==> (m.target in made.value <==> m.name in c.constructor')) &&
            (m.name in c.constructor' ==> m.target in made.value && made.value[m.target] == r.locals[m.target])
  {
    var args, m := Arguments(c.members, params, c.constructor'), c.members[i];
    AllAvailable(c, params, context, r);
    SameTarget(c.members);
    ArgumentsHave(c.members, params, c.constructor', i);
    if m.name in c.constructor' {
      ConstructedAt(args, r, map[], m.target, r.locals[m.target]);
      assert FromLocal(m.target).property == m.target;
    } else if Live(m) {
      ConstructedElsewhere(args, r, map[], m.target);
    }
  }

  lemma MadeParameter<V>(c: Class<V>, params: seq<Member<V>>, context: map<string, V>, r: Reader<V>, i: nat)
    requires SoundClass(c, params, context) && LocalsReady(c, context, r) && i < |params|
    ensures var made := Constructed(Arguments(c.members, params, c.constructor'), r, map[]);
            var m := params[i];
            made.Some? && (m.target in made.value <==> m.name in c.constructor') &&
            (m.name in c.constructor' ==> made.value[m.target] == context[m.ty])
  {
    var args, m := Arguments(c.members, params, c.constructor'), params[i];
    AllAvailable(c, params, context, r);
    SameTarget(params);
    ArgumentsHave(c.members, params, c.constructor', i);
    if m.name in c.constructor' {
      ConstructedAt(args, r, map[], m.target, context[m.ty]);
      assert FromContext(m.ty, m.target).property == m.target;
    } else {
      ConstructedElsewhere(args, r, map[], m.target);
    }
  }

  lemma {:induction false} ConstructedElsewhere<V>(args: seq<Argument>, r: Reader<V>, into: Obj<V>, key: Place)
    requires forall a :: a in args ==> Available(a, r) && a.property != key
    ensures var o := Constructed(args, r, into); o.Some? && SameAt(key, into, o.value)
  {
    if args != [] {
      assert args[0] in args;
      ConstructedElsewhere(args[1..], r, into[args[0].property := ValueOf(args[0], r)], key);
    }
  }

  // ----- the class round trip -----

  /** The reader's locals after the first reads, and the object after the construction, after the
      assignments and at the end. */
  ghost predicate Staged<V>(c: Class<V>, params: seq<Member<V>>, obj: Obj<V>, t: Target, context: map<string, V>,
                            r1: Reader<V>, made: Obj<V>, done: Obj<V>, out: Obj<V>)
  {
    var k := Prefix(c.members, c.constructor');
    HasAll(c.members[..k], obj) && AllReadable(c.members[..k], t) && HasAll(c.members[k..], obj) &&
    AllReadable(c.members[k..], t) &&
    r1.context == context && r1.locals == Loaded(c.members[..k], obj, t, map[]) && LocalsReady(c, context, r1) &&
    Constructed(Arguments(c.members, params, c.constructor'), r1, map[]) == Some(made) &&
    Exec(AssignsOf(c.members[..k], c.constructor'), r1.(obj := made)) == Some(r1.(obj := done)) &&
    out == Loaded(c.members[k..], obj, t, done)
  }

  /** Running a class's read program on its stream: the stages, and when it fails. */
  lemma ClassRuns<V>(c: Class<V>, params: seq<Member<V>>, obj: Obj<V>, t: Target, context: map<string, V>,
                     tail: seq<Field<V>>)
    returns (r1: Reader<V>, made: Obj<V>, done: Obj<V>)
    requires HasAll(c.members, obj) && SoundClass(c, params, context) && OtherIds(c.members, tail)
    ensures var r := Exec(ReadProgram(c, params), Reader(Stream(c.members, obj, t) + tail, map[], context, map[]));
            (r.Some? <==> AllReadable(c.members, t)) &&
            (r.Some? ==> r.value.rest == tail && Staged(c, params, obj, t, context, r1, made, done, r.value.obj))
  {
    hide Stream, Loaded, Exec, Constructed, Prefix, AllReadable, OtherIds, DistinctIds, HasAll;
    hide DistinctTargets, DistinctNames, LocalsReady;
    var k := Prefix(c.members, c.constructor');
    PrefixBound(c.members, c.constructor');
    var front, back := c.members[..k], c.members[k..];
    SplitMembers(c.members, k, obj, t, tail);
    var r0 := Reader(Stream(c.members, obj, t) + tail, map[], context, map[]);
    var rest := Stream(back, obj, t) + tail;
    MembersRoundTrip(front, true, obj, t, r0, rest);
    var first, build, assigns, last := ReadsOf(front, true), [Construct(Arguments(c.members, params, c.constructor'))],
                                       AssignsOf(front, c.constructor'), ReadsOf(back, false);
    ProgramSplit(c, params, first, build, assigns, last);
    ExecAppend(first, build + (assigns + last), r0);
    r1, made, done := r0, map[], map[];
    if AllReadable(front, t) {
      r1 := Reader(rest, Loaded(front, obj, t, map[]), context, map[]);
      made, done := BuildStages(c, params, obj, t, context, r1, k);
      ExecAppend(build, assigns + last, r1);
      ExecBuild(Arguments(c.members, params, c.constructor'), r1, made);
      ExecAppend(assigns, last, r1.(obj := made));
      MembersRoundTrip(back, false, obj, t, r1.(obj := done), tail);
    }
  }

  lemma PrefixBound<V>(ms: seq<Member<V>>, names: seq<string>)
    ensures Prefix(ms, names) <= |ms|
  {
  }

  lemma ProgramSplit<V>(c: Class<V>, params: seq<Member<V>>, first: seq<ReadInstr<V>>, build: seq<ReadInstr<V>>,
                        assigns: seq<ReadInstr<V>>, last: seq<ReadInstr<V>>)
    requires var k := Prefix(c.members, c.constructor');
             first == ReadsOf(c.members[..k], true) &&
             build == [Construct(Arguments(c.members, params, c.constructor'))] &&
             assigns == AssignsOf(c.members[..k], c.constructor') && last == ReadsOf(c.members[k..], false)
    ensures ReadProgram(c, params) == first + (build + (assigns + last))
  {
  }

  lemma ExecBuild<V>(args: seq<Argument>, r: Reader<V>, made: Obj<V>)
    requires Constructed(args, r, map[]) == Some(made)
    ensures Exec([Construct(args)], r) == Some(r.(obj := made))
  {
    var p: seq<ReadInstr<V>> := [Construct(args)];
    assert p[1..] == [];
  }

  /** The members before and after position k, in the stream and in the checks. */
  lemma SplitMembers<V>(ms: seq<Member<V>>, k: nat, obj: Obj<V>, t: Target, tail: seq<Field<V>>)
    requires k <= |ms| && HasAll(ms, obj) && DistinctIds(ms) && OtherIds(ms, tail)
    ensures HasAll(ms[..k], obj) && HasAll(ms[k..], obj) && DistinctIds(ms[..k]) && DistinctIds(ms[k..])
    ensures Stream(ms, obj, t) + tail == Stream(ms[..k], obj, t) + (Stream(ms[k..], obj, t) + tail)
    ensures OtherIds(ms[..k], Stream(ms[k..], obj, t) + tail) && OtherIds(ms[k..], tail)
    ensures AllReadable(ms, t) <==> AllReadable(ms[..k], t) && AllReadable(ms[k..], t)
  {
    hide Stream, NextIsOther, Readable, HasAll, DistinctIds, OtherIds, AllReadable;
    SplitChecks(ms, k, obj, t, tail);
    SplitIds(ms, k, obj, t, tail);
    assert ms == ms[..k] + ms[k..];
    StreamAppend(ms[..k], ms[k..], obj, t);
  }

  lemma SplitChecks<V>(ms: seq<Member<V>>, k: nat, obj: Obj<V>, t: Target, tail: seq<Field<V>>)
    requires k <= |ms| && HasAll(ms, obj) && DistinctIds(ms) && OtherIds(ms, tail)
    ensures HasAll(ms[..k], obj) && HasAll(ms[k..], obj) && DistinctIds(ms[..k]) && DistinctIds(ms[k..]) &&
            OtherIds(ms[k..], tail)
    ensures AllReadable(ms, t) <==> AllReadable(ms[..k], t) && AllReadable(ms[k..], t)
  {
    hide Readable, NextIsOther;
    var front, back := ms[..k], ms[k..];
    assert forall i :: 0 <= i < |front| ==> front[i] == ms[i];
    assert forall i :: 0 <= i < |back| ==> back[i] == ms[k + i];
    if AllReadable(front, t) && AllReadable(back, t) {
      forall i | 0 <= i < |ms| ensures Readable(ms[i], t) {
        if i < k { assert ms[i] == front[i]; } else { assert ms[i] == back[i - k]; }
      }
    }
  }

  /** The front members' ids are not at the head of what follows them. */
  lemma SplitIds<V>(ms: seq<Member<V>>, k: nat, obj: Obj<V>, t: Target, tail: seq<Field<V>>)
    requires k <= |ms| && HasAll(ms[k..], obj) && DistinctIds(ms) && OtherIds(ms, tail)
    ensures OtherIds(ms[..k], Stream(ms[k..], obj, t) + tail)
  {
    hide Stream, NextIsOther, HasAll;
    forall j | 0 <= j < |ms[..k]| ensures NextIsOther(ms[..k][j].id, Stream(ms[k..], obj, t) + tail) {
      assert NextIsOther(ms[j].id, tail);
      forall i | 0 <= i < |ms[k..]| ensures ms[k..][i].id != ms[j].id {
        assert ms[k..][i] == ms[k + i];
      }
      StreamHead(ms[k..], obj, t, tail, ms[j].id);
    }
  }

  lemma BuildStages<V>(c: Class<V>, params: seq<Member<V>>, obj: Obj<V>, t: Target, context: map<string, V>,
                       r1: Reader<V>, k: nat)
    returns (made: Obj<V>, done: Obj<V>)
    requires SoundClass(c, params, context) && k == Prefix(c.members, c.constructor')
    requires HasAll(c.members[..k], obj) && AllReadable(c.members[..k], t)
    requires r1.context == context && r1.locals == Loaded(c.members[..k], obj, t, map[])
    ensures LocalsReady(c, context, r1)
    ensures Constructed(Arguments(c.members, params, c.constructor'), r1, map[]) == Some(made)
    ensures Exec(AssignsOf(c.members[..k], c.constructor'), r1.(obj := made)) == Some(r1.(obj := done))
  {
    forall m | m in c.members && m.name in c.constructor' ensures m.target in r1.locals {
      FrontMember(c, obj, t, k, m);
    }
    AllAvailable(c, params, context, r1);
    made := Constructed(Arguments(c.members, params, c.constructor'), r1, map[]).value;
    forall m | m in c.members[..k] && m.status == Existing ensures m.target in r1.locals {
      assert m in c.members;
      FrontMember(c, obj, t, k, m);
    }
    AssignsRun(c.members[..k], c.constructor', r1.(obj := made), Place("", ""));
    done := Exec(AssignsOf(c.members[..k], c.constructor'), r1.(obj := made)).value.obj;
  }

  /** The assignments touch exactly the existing members the constructor did not take. */
  lemma AssignStage<V>(c: Class<V>, params: seq<Member<V>>, obj: Obj<V>, t: Target, context: map<string, V>,
                       r1: Reader<V>, made: Obj<V>, done: Obj<V>, out: Obj<V>, key: Place)
    requires SoundClass(c, params, context) && Staged(c, params, obj, t, context, r1, made, done, out)
    ensures if AssignedIn(c.members[..Prefix(c.members, c.constructor')], c.constructor', key)
            then key in done && key in r1.locals && done[key] == r1.locals[key]
            else SameAt(key, made, done)
  {
    hide Loaded, Constructed, Exec, Expected, AllReadable, HasAll, DistinctNames, DistinctIds, LocalsReady, Arguments;
    var k := Prefix(c.members, c.constructor');
    forall m | m in c.members[..k] && m.status == Existing ensures m.target in r1.locals {
      assert m in c.members;
      FrontMember(c, obj, t, k, m);
    }
    AssignsRun(c.members[..k], c.constructor', r1.(obj := made), key);
  }

  /** A member read after the construction. */
  lemma BackMember<V>(c: Class<V>, params: seq<Member<V>>, obj: Obj<V>, t: Target, context: map<string, V>,
                      r1: Reader<V>, made: Obj<V>, done: Obj<V>, out: Obj<V>, i: nat)
    requires SoundClass(c, params, context) && Staged(c, params, obj, t, context, r1, made, done, out)
    requires Prefix(c.members, c.constructor') <= i < |c.members| && c.members[i].status != Deleted
    ensures MemberOk(c.members[i], obj, t, out)
  {
    hide Constructed, Exec, Expected, DistinctNames, DistinctIds, DistinctTargets, LocalsReady, Arguments;
    hide Loaded, Prefix, Carried;
    var k := Prefix(c.members, c.constructor');
    var back := c.members[k..];
    DistinctBehind(c.members, k);
    assert back[i - k] == c.members[i];
    LoadedHas(back, obj, t, done, i - k);
  }

  lemma DistinctBehind<V>(ms: seq<Member<V>>, k: nat)
    requires DistinctTargets(ms) && k <= |ms|
    ensures DistinctTargets(ms[k..])
  {
    assert forall j :: 0 <= j < |ms[k..]| ==> ms[k..][j] == ms[k + j];
  }

  /** A member read before the construction. */
  lemma FrontRestored<V>(c: Class<V>, params: seq<Member<V>>, obj: Obj<V>, t: Target, context: map<string, V>,
                         r1: Reader<V>, made: Obj<V>, done: Obj<V>, out: Obj<V>, i: nat)
    requires SoundClass(c, params, context) && Staged(c, params, obj, t, context, r1, made, done, out)
    requires i < Prefix(c.members, c.constructor') && Live(c.members[i])
    requires CanWrite(c.members[i], obj) && Readable(c.members[i], t)
    ensures MemberOk(c.members[i], obj, t, out)
  {
    hide Constructed, Exec, Expected, DistinctNames, DistinctIds, Arguments, Loaded, AllReadable, HasAll, LocalsReady;
    var k, m := Prefix(c.members, c.constructor'), c.members[i];
    TargetBehind(c.members, k, i);
    TargetBefore(c.members, k, i, c.constructor');
    AssignStage(c, params, obj, t, context, r1, made, done, out, m.target);
    LoadedOther(c.members[k..], obj, t, done, m.target);
    assert LocalsReady(c, context, r1);
    MadeMember(c, params, context, r1, i);
    assert m in c.members[..k] by { assert c.members[..k][i] == m; }
    FrontMember(c, obj, t, k, m);
  }

  /** No live member behind position k shares the property of a live member before it. */
  lemma TargetBehind<V>(ms: seq<Member<V>>, k: nat, i: nat)
    requires DistinctTargets(ms) && i < k <= |ms| && Live(ms[i])
    ensures forall m :: m in ms[k..] && Live(m) ==> m.target != ms[i].target
  {
    forall m | m in ms[k..] && Live(m) ensures m.target != ms[i].target {
      var j :| 0 <= j < |ms[k..]| && ms[k..][j] == m;
      assert ms[k + j] == m;
    }
  }

  lemma TargetBefore<V>(ms: seq<Member<V>>, k: nat, i: nat, names: seq<string>)
    requires DistinctTargets(ms) && i < k <= |ms| && Live(ms[i])
    ensures AssignedIn(ms[..k], names, ms[i].target) <==> ms[i].status == Existing && ms[i].name !in names
  {
    if AssignedIn(ms[..k], names, ms[i].target) {
      var m :| m in ms[..k] && m.status == Existing && m.name !in names && m.target == ms[i].target;
      var j :| 0 <= j < |ms[..k]| && ms[..k][j] == m;
      assert ms[j] == m && Live(ms[j]) && ms[j].target == ms[i].target;
      assert i == j;
    }
    assert ms[..k][i] == ms[i];
  }

  lemma ParameterPassed<V>(c: Class<V>, params: seq<Member<V>>, obj: Obj<V>, t: Target, context: map<string, V>,
                           r1: Reader<V>, made: Obj<V>, done: Obj<V>, out: Obj<V>, i: nat)
    requires SoundClass(c, params, context) && Staged(c, params, obj, t, context, r1, made, done, out) && i < |params|
    ensures ParameterOk(params[i], c.constructor', context, out)
  {
    hide Constructed, Exec, Expected, DistinctNames, DistinctIds, Arguments, Loaded, AllReadable, HasAll, LocalsReady;
    hide DistinctTargets, Prefix, AssignsOf;
    var k, key := Prefix(c.members, c.constructor'), params[i].target;
    assert forall m :: m in c.members && Live(m) ==> m.target != key by { assert params[i] in params; }
    assert forall m :: m in c.members[..k] ==> m in c.members;
    assert forall m :: m in c.members[k..] ==> m in c.members;
    AssignStage(c, params, obj, t, context, r1, made, done, out, key);
    LoadedOther(c.members[k..], obj, t, done, key);
    assert LocalsReady(c, context, r1);
    MadeParameter(c, params, context, r1, i);
  }

  /** `key` is the property of a live member or of a base parameter that the constructor takes. */
  ghost predicate Owned<V>(c: Class<V>, params: seq<Member<V>>, key: Place)
  {
    (exists m :: m in c.members && Live(m) && m.target == key) ||
    (exists p :: p in params && p.name in c.constructor' && p.target == key)
  }

  lemma NothingForeign<V>(c: Class<V>, params: seq<Member<V>>, obj: Obj<V>, t: Target, context: map<string, V>,
                          r1: Reader<V>, made: Obj<V>, done: Obj<V>, out: Obj<V>, key: Place)
    requires SoundClass(c, params, context) && Staged(c, params, obj, t, context, r1, made, done, out) && key in out
    ensures Owned(c, params, key)
  {
    hide Constructed, Exec, Expected, DistinctNames, DistinctIds, Arguments, Loaded, AllReadable, HasAll;
    if !Owned(c, params, key) {
      var k := Prefix(c.members, c.constructor');
      assert forall m :: m in c.members[..k] ==> m in c.members;
      assert forall m :: m in c.members[k..] ==> m in c.members;
      AssignStage(c, params, obj, t, context, r1, made, done, out, key);
      LoadedOther(c.members[k..], obj, t, done, key);
      AllAvailable(c, params, context, r1);
      ConstructedElsewhere(Arguments(c.members, params, c.constructor'), r1, map[], key);
    }
  }

  /** A class's read program undoes its write program for every target version: it succeeds exactly
      when every member without a default is carried, consumes the class's own fields, restores
      every existing member - none that was read before the construction is lost - passes on exactly the
      base parameters its constructor takes, and has nothing else in the object: deleted members are
      dropped. */
  lemma ClassRoundTrip<V>(c: Class<V>, params: seq<Member<V>>, obj: Obj<V>, t: Target, context: map<string, V>,
                          tail: seq<Field<V>>)
    requires HasAll(c.members, obj) && SoundClass(c, params, context) && OtherIds(c.members, tail)
    ensures var r := Exec(ReadProgram(c, params), Reader(Stream(c.members, obj, t) + tail, map[], context, map[]));
            (r.Some? <==> AllReadable(c.members, t)) &&
            (r.Some? ==> r.value.rest == tail && Restores(c.members, obj, t, r.value.obj) &&
                         Passes(params, c.constructor', context, r.value.obj) &&
                         (forall key :: key in r.value.obj ==> Owned(c, params, key)))
  {
    hide Stream, Loaded, Exec, Constructed, OtherIds, DistinctIds, DistinctTargets, DistinctNames, SoundClass;
    hide Staged, MemberOk, ParameterOk, Owned;
    var r1, made, done := ClassRuns(c, params, obj, t, context, tail);
    var r := Exec(ReadProgram(c, params), Reader(Stream(c.members, obj, t) + tail, map[], context, map[]));
    if r.Some? {
      forall m | m in c.members ensures MemberOk(m, obj, t, r.value.obj) {
        var i :| 0 <= i < |c.members| && c.members[i] == m;
        if !Live(m) {
          assert MemberOk(m, obj, t, r.value.obj) by { DeletedIsOk(c, obj, t, i, r.value.obj); }
        } else if i >= Prefix(c.members, c.constructor') {
          BackMember(c, params, obj, t, context, r1, made, done, r.value.obj, i);
        } else {
          FrontRestored(c, params, obj, t, context, r1, made, done, r.value.obj, i);
        }
      }
      forall p | p in params ensures ParameterOk(p, c.constructor', context, r.value.obj) {
        var i :| 0 <= i < |params| && params[i] == p;
        ParameterPassed(c, params, obj, t, context, r1, made, done, r.value.obj, i);
      }
      forall key | key in r.value.obj ensures Owned(c, params, key) {
        NothingForeign(c, params, obj, t, context, r1, made, done, r.value.obj, key);
      }
    }
  }

  lemma DeletedIsOk<V>(c: Class<V>, obj: Obj<V>, t: Target, i: nat, out: Obj<V>)
    requires i < |c.members| && !Live(c.members[i]) && HasAll(c.members, obj)
    ensures MemberOk(c.members[i], obj, t, out)
  {
  }

  // ----- base class and derived class -----

  function SetParameters<V>(owner: string, params: seq<Member<V>>): (p: seq<ReadInstr<V>>)
  {
    seq(|params|, k requires 0 <= k < |params| => SetParameter(params[k].ty, Place(owner, params[k].name)))
  }

  /** The base members assigned after the derived class has been read: not its tag, not a parameter. */
  function Assignable<V>(b: Base<V>, ms: seq<Member<V>>): (r: seq<Member<V>>)
  {
    if ms == [] then []
    else (if PlainMember(b, ms[0]) then [ms[0]] else []) + Assignable(b, ms[1..])
  }

  lemma {:induction false} AssignableIs<V>(b: Base<V>, ms: seq<Member<V>>)
    ensures forall m :: m in Assignable(b, ms) <==> m in ms && PlainMember(b, m)
  {
    if ms != [] { AssignableIs(b, ms[1..]); }
  }

  predicate PlainMember<V>(b: Base<V>, m: Member<V>)
  {
    !IsParameterName(b.parameters, m.name) && !IsParameterName(b.parameters, m.source.name) && m.name != b.tag &&
    m.source.name != b.tag
  }

  predicate IsParameterName<V>(params: seq<Member<V>>, name: string)
  {
    exists k :: 0 <= k < |params| && params[k].name == name
  }

  /** generate_base_class_code: the base members, the parameters, the derived class the tag selects
      on the same stream, then the plain base members; the object must end where the stream does. */
  function Deserialize<V>(b: Base<V>, children: map<V, Class<V>>, stream: seq<Field<V>>): (o: Option<Obj<V>>)
  {
    var r1 := Exec(ReadsOf(b.members, true) + SetParameters(b.owner, b.parameters),
                   Reader(stream, map[], map[], map[]));
    var tag := Place(b.owner, b.tag);
    if r1.None? || tag !in r1.value.locals || r1.value.locals[tag] !in children then None
    else
      var c := children[r1.value.locals[tag]];
      var r2 := Exec(ReadProgram(c, b.parameters), Reader(r1.value.rest, map[], r1.value.context, map[]));
      if r2.None? then None
      else
        var r3 := Exec(AssignsOf(Assignable(b, b.members), []), r1.value.(rest := r2.value.rest, obj := r2.value.obj));
        if r3.None? || r3.value.rest != [] then None else Some(r3.value.obj)
  }

  /** The derived class's Serialize: the base class first. */
  function Serialize<V(==)>(b: Base<V>, c: Class<V>, obj: Obj<V>, t: Target): (out: seq<Field<V>>)
    requires HasAll(b.members, obj) && HasAll(c.members, obj)
  {
    Stream(b.members, obj, t) + Stream(c.members, obj, t)
  }

  ghost predicate DistinctTypes<V>(params: seq<Member<V>>)
  {
    forall j, k :: 0 <= j < k < |params| ==> params[j].ty != params[k].ty
  }

  lemma {:induction false} SetParametersRun<V>(owner: string, params: seq<Member<V>>, r: Reader<V>)
    requires forall p :: p in params ==> p.target in r.locals && p.target == Place(owner, p.name)
    requires DistinctTypes(params)
    ensures var s := Exec(SetParameters(owner, params), r);
            s.Some? && s.value == r.(context := s.value.context) &&
            (forall p :: p in params ==> p.ty in s.value.context && s.value.context[p.ty] == r.locals[p.target]) &&
            (forall ty :: ty in r.context && (forall p :: p in params ==> p.ty != ty) ==>
             ty in s.value.context && s.value.context[ty] == r.context[ty])
  {
    if params != [] {
      var p := params[0];
      assert p in params;
      var next := r.(context := r.context[p.ty := r.locals[p.target]]);
      assert SetParameters(owner, params)[0] == SetParameter(p.ty, Place(owner, p.name)) &&
             SetParameters(owner, params)[1..] == SetParameters(owner, params[1..]);
      SetParametersRun(owner, params[1..], next);
      assert forall q :: q in params[1..] ==> q.ty != p.ty by {
        forall q | q in params[1..] ensures q.ty != p.ty {
          var j :| 0 <= j < |params[1..]| && params[1..][j] == q;
          assert params[j + 1].ty != params[0].ty;
        }
      }
    }
  }

  /** The description of a derived class c under base b is sound, and obj is an object of class c. */
  ghost predicate SoundPair<V>(b: Base<V>, children: map<V, Class<V>>, c: Class<V>, obj: Obj<V>, t: Target)
  {
    HasAll(b.members, obj) && HasAll(c.members, obj) && DistinctIds(b.members + c.members) &&
    DistinctTargets(b.members) && DistinctTargets(c.members) && TargetsDiffer(c.members, b.members) &&
    DistinctNames(c.members) && DistinctNames(b.parameters) && DistinctTypes(b.parameters) &&
    (forall m :: m in c.members && m.name in c.constructor' ==> Live(m)) &&
    (forall p :: p in b.parameters ==> p in b.members && p.status == Existing && p.target == Place(b.owner, p.name)) &&
    (exists m :: m in b.members && m.target == Place(b.owner, b.tag) && m.status == Existing && Carried(m, t) &&
                 m.source in obj && obj[m.source] in children && children[obj[m.source]] == c)
  }

  lemma IdsApart<V>(b: seq<Member<V>>, c: seq<Member<V>>, obj: Obj<V>, t: Target)
    requires HasAll(b, obj) && HasAll(c, obj) && DistinctIds(b + c)
    ensures DistinctIds(b) && DistinctIds(c) && OtherIds(b, Stream(c, obj, t)) && OtherIds(c, [])
  {
    var all := b + c;
    assert forall i :: 0 <= i < |b| ==> all[i] == b[i];
    assert forall i :: 0 <= i < |c| ==> all[|b| + i] == c[i];
    forall i, j | 0 <= i < j < |c| ensures c[i].id != c[j].id {
      assert all[|b| + i].id != all[|b| + j].id;
    }
    forall i | 0 <= i < |b| ensures NextIsOther(b[i].id, Stream(c, obj, t)) {
      forall j | 0 <= j < |c| ensures c[j].id != b[i].id {
        assert all[i].id != all[|b| + j].id;
      }
      StreamHead(c, obj, t, [], b[i].id);
      assert Stream(c, obj, t) + [] == Stream(c, obj, t);
    }
  }

  /** The base class's own part: its members in locals, its parameters in the context. */
  lemma BaseReads<V>(b: Base<V>, children: map<V, Class<V>>, c: Class<V>, obj: Obj<V>, t: Target)
    returns (r1: Option<Reader<V>>)
    requires SoundPair(b, children, c, obj, t)
    ensures r1 ==
            Exec(ReadsOf(b.members, true) + SetParameters(b.owner, b.parameters),
                 Reader(Serialize(b, c, obj, t), map[], map[], map[]))
    ensures r1.Some? <==> AllReadable(b.members, t)
    ensures r1.Some? ==>
              r1.value.rest == Stream(c.members, obj, t) && r1.value.locals == Loaded(b.members, obj, t, map[]) &&
              r1.value.obj == map[] &&
              (forall p :: p in b.parameters ==> p.ty in r1.value.context && p.target in r1.value.locals &&
                                                 r1.value.context[p.ty] == r1.value.locals[p.target]) &&
              var tag := Place(b.owner, b.tag);
              tag in r1.value.locals && r1.value.locals[tag] in children && children[r1.value.locals[tag]] == c
  {
    hide Stream, Exec, DistinctTargets, DistinctIds, DistinctNames, Loaded, ReadsOf, SetParameters;
    var r0 := Reader(Serialize(b, c, obj, t), map[], map[], map[]);
    r1 := Exec(ReadsOf(b.members, true) + SetParameters(b.owner, b.parameters), r0);
    IdsApart(b.members, c.members, obj, t);
    MembersRoundTrip(b.members, true, obj, t, r0, Stream(c.members, obj, t));
    ExecAppend(ReadsOf(b.members, true), SetParameters(b.owner, b.parameters), r0);
    if AllReadable(b.members, t) {
      var r := Exec(ReadsOf(b.members, true), r0).value;
      forall m | m in b.members && m.status == Existing
        ensures m.target in r.locals && CanWrite(m, obj) && Readable(m, t) && r.locals[m.target] == Expected(m, obj, t)
      {
        var i :| 0 <= i < |b.members| && b.members[i] == m;
        LoadedHas(b.members, obj, t, map[], i);
      }
      SetParametersRun(b.owner, b.parameters, r);
    }
  }

  /** Base then derived: the emitted Deserialize undoes the emitted Serialize for every target
      version. It succeeds exactly when every member without a default is carried, and then every
      existing member of the derived class, every existing plain member of the base class, and every
      base parameter that the constructor takes has its value - the written one where the version
      covers the member, else its default - and nothing else is in the object: deleted members are gone. */
  lemma SerializationRoundTrip<V>(b: Base<V>, children: map<V, Class<V>>, c: Class<V>, obj: Obj<V>, t: Target)
    requires SoundPair(b, children, c, obj, t)
    ensures var o := Deserialize(b, children, Serialize(b, c, obj, t));
            (o.Some? <==> AllReadable(b.members, t) && AllReadable(c.members, t)) &&
            (o.Some? ==>
               Restores(c.members, obj, t, o.value) &&
               (forall m :: m in b.members ==> BaseMemberOk(b, c, m, obj, t, o.value)) &&
               (forall key :: key in o.value ==> OwnedByPair(b, c, key)))
  {
    hide Stream, Exec, DistinctTargets, DistinctIds, DistinctNames, Loaded, ReadsOf, SetParameters;
    hide ReadProgram, MemberOk, AllReadable, HasAll, Restores, Passes;
    var r1 := BaseReads(b, children, c, obj, t);
    if r1.Some? {
      IdsApart(b.members, c.members, obj, t);
      ChildIsSound(b, children, c, obj, t, r1.value.context);
      assert Stream(c.members, obj, t) + [] == Stream(c.members, obj, t);
      ClassRoundTrip(c, b.parameters, obj, t, r1.value.context, []);
      var r2 := Exec(ReadProgram(c, b.parameters), Reader(r1.value.rest, map[], r1.value.context, map[]));
      if r2.Some? {
        BaseAssigns(b, children, c, obj, t, r1.value, r2.value);
      }
    }
  }

  lemma ChildIsSound<V>(b: Base<V>, children: map<V, Class<V>>, c: Class<V>, obj: Obj<V>, t: Target,
                        context: map<string, V>)
    requires SoundPair(b, children, c, obj, t) && DistinctIds(c.members)
    requires forall p :: p in b.parameters ==> p.ty in context
    ensures SoundClass(c, b.parameters, context)
  {
    hide DistinctIds, HasAll, Carried;
    forall j, k | 0 <= j < k < |b.parameters| ensures b.parameters[j].target != b.parameters[k].target {
      assert b.parameters[j] in b.parameters && b.parameters[k] in b.parameters;
    }
  }

  /** Does a base member reach the object: as a plain one, or as a parameter that the constructor takes? */
  predicate Reaches<V(==)>(b: Base<V>, c: Class<V>, m: Member<V>)
  {
    m.status == Existing && (PlainMember(b, m) || (m in b.parameters && m.name in c.constructor'))
  }

  /** What becomes of a base member: a live one is in the object if it reaches it - the tag does not, it
      has selected the class - and then has its value. */
  ghost predicate BaseMemberOk<V>(b: Base<V>, c: Class<V>, m: Member<V>, obj: Obj<V>, t: Target, out: Obj<V>)
  {
    CanWrite(m, obj) && Readable(m, t) &&
    (Live(m) ==> (m.target in out <==> Reaches(b, c, m))) &&
    (Live(m) && m.target in out ==> out[m.target] == Expected(m, obj, t))
  }

  /** `key` is the property of a live member of the class, or of a base member that reaches the object. */
  ghost predicate OwnedByPair<V>(b: Base<V>, c: Class<V>, key: Place)
  {
    (exists m :: m in c.members && Live(m) && m.target == key) ||
    (exists m :: m in b.members && Reaches(b, c, m) && m.target == key)
  }

  /** The base members assigned at the end: the plain existing ones and no property of the class. */
  lemma BaseAssigned<V>(b: Base<V>, c: Class<V>, m: Member<V>)
    requires DistinctTargets(b.members) && TargetsDiffer(c.members, b.members) && Live(m)
    ensures m in b.members ==>
            (AssignedIn(Assignable(b, b.members), [], m.target) <==> PlainMember(b, m) && m.status == Existing)
    ensures m in c.members ==> !AssignedIn(Assignable(b, b.members), [], m.target)
  {
    hide PlainMember, DistinctTargets, Assignable;
    SameTarget(b.members);
    AssignableIs(b, b.members);
    if m in b.members && PlainMember(b, m) && m.status == Existing {
      assert m in Assignable(b, b.members) && m.name !in [];
    }
    if AssignedIn(Assignable(b, b.members), [], m.target) {
      var a :| a in Assignable(b, b.members) && a.status == Existing && a.name !in [] && a.target == m.target;
      assert a in b.members && PlainMember(b, a) && Live(a);
    }
  }

  lemma BaseAssigns<V>(b: Base<V>, children: map<V, Class<V>>, c: Class<V>, obj: Obj<V>, t: Target, r1: Reader<V>,
                       r2: Reader<V>)
    requires SoundPair(b, children, c, obj, t) && AllReadable(b.members, t) && AllReadable(c.members, t)
    requires r1.locals == Loaded(b.members, obj, t, map[])
    requires forall p :: p in b.parameters ==>
               p.ty in r1.context && p.target in r1.locals && r1.context[p.ty] == r1.locals[p.target]
    requires r2.rest == [] && Restores(c.members, obj, t, r2.obj) &&
             Passes(b.parameters, c.constructor', r1.context, r2.obj)
    requires forall key :: key in r2.obj ==> Owned(c, b.parameters, key)
    ensures var r3 := Exec(AssignsOf(Assignable(b, b.members), []), r1.(rest := r2.rest, obj := r2.obj));
            r3.Some? && r3.value.rest == [] && Restores(c.members, obj, t, r3.value.obj) &&
            (forall m :: m in b.members ==> BaseMemberOk(b, c, m, obj, t, r3.value.obj)) &&
            (forall key :: key in r3.value.obj ==> OwnedByPair(b, c, key))
  {
    hide Exec, Loaded, AssignsOf, Assignable, DistinctTargets, DistinctIds, DistinctNames, DistinctTypes;
    hide Expected, PlainMember, Owned, OwnedByPair, BaseMemberOk, AssignedIn;
    var from := r1.(rest := r2.rest, obj := r2.obj);
    var r3 := Exec(AssignsOf(Assignable(b, b.members), []), from);
    AssignableIs(b, b.members);
    forall m | m in b.members && Live(m)
      ensures m.target in r1.locals && CanWrite(m, obj) && Readable(m, t) && r1.locals[m.target] == Expected(m, obj, t)
    {
      var i :| 0 <= i < |b.members| && b.members[i] == m;
      LoadedHas(b.members, obj, t, map[], i);
    }
    AssignsRun(Assignable(b, b.members), [], from, Place("", ""));
    forall m | m in c.members ensures MemberOk(m, obj, t, r3.value.obj) {
      if Live(m) { BaseAssigned(b, c, m); }
      AssignsRun(Assignable(b, b.members), [], from, m.target);
    }
    forall m | m in b.members ensures BaseMemberOk(b, c, m, obj, t, r3.value.obj) {
      if Live(m) { BaseAssigned(b, c, m); }
      AssignsRun(Assignable(b, b.members), [], from, m.target);
      BaseMember(b, children, c, obj, t, r1, r2.obj, r3.value.obj, m);
    }
    forall key | key in r3.value.obj ensures OwnedByPair(b, c, key) {
      AssignsRun(Assignable(b, b.members), [], from, key);
      BaseOwned(b, c, key, AssignedIn(Assignable(b, b.members), [], key));
    }
  }

  lemma BaseOwned<V>(b: Base<V>, c: Class<V>, key: Place, assignedAtEnd: bool)
    requires forall p :: p in b.parameters ==> p in b.members && p.status == Existing
    requires assignedAtEnd == AssignedIn(Assignable(b, b.members), [], key)
    requires assignedAtEnd || Owned(c, b.parameters, key)
    ensures OwnedByPair(b, c, key)
  {
    hide PlainMember, Assignable;
    AssignableIs(b, b.members);
    if assignedAtEnd {
      var a :| a in Assignable(b, b.members) && a.status == Existing && a.name !in [] && a.target == key;
      assert Reaches(b, c, a);
    } else if p :| p in b.parameters && p.name in c.constructor' && p.target == key {
      assert Reaches(b, c, p);
    }
  }

  /** One base member after the assignments. */
  lemma BaseMember<V>(b: Base<V>, children: map<V, Class<V>>, c: Class<V>, obj: Obj<V>, t: Target, r1: Reader<V>,
                      from: Obj<V>, out: Obj<V>, m: Member<V>)
    requires SoundPair(b, children, c, obj, t) && AllReadable(b.members, t) && m in b.members
    requires Live(m) ==>
               CanWrite(m, obj) && Readable(m, t) && m.target in r1.locals && r1.locals[m.target] == Expected(m, obj, t)
    requires forall p :: p in b.parameters ==>
               p.ty in r1.context && p.target in r1.locals && r1.context[p.ty] == r1.locals[p.target]
    requires Passes(b.parameters, c.constructor', r1.context, from)
    requires forall key :: key in from ==> Owned(c, b.parameters, key)
    requires Live(m) ==>
               if PlainMember(b, m) && m.status == Existing
               then m.target in out && out[m.target] == r1.locals[m.target] else SameAt(m.target, from, out)
    ensures BaseMemberOk(b, c, m, obj, t, out)
  {
    hide DistinctTargets, DistinctIds, DistinctNames, DistinctTypes, Expected, Carried;
    SameTarget(b.members);
    if m in b.parameters {
      assert ParameterOk(m, c.constructor', r1.context, from);
      assert IsParameterName(b.parameters, m.name);
    }
    assert Live(m) && m !in b.parameters ==> !Owned(c, b.parameters, m.target);
  }

  // ----- descriptions of note -----

  /** An existing member of storage version 1, of that class, read and written under its own name. */
  function Simple<V>(owner: string, id: nat, name: string, ty: string): Member<V>
  {
    Member(id, name, ty, Place(owner, name), Place(owner, name), None, None, Existing, 1)
  }

  const BASE: string := "B"
  const DERIVED: string := "D"
  const TAG: string := "type"
  const DEPTH: string := "depth"
  const INDEX: string := "index_type"

  lemma Letters()
    ensures BASE != DERIVED && TAG != DEPTH && TAG != INDEX
  {
    assert BASE[0] != DERIVED[0] && TAG[0] != DEPTH[0] && TAG[0] != INDEX[0];
  }

  function TaggedBase<V>(): Base<V>
  {
    Base(BASE, [Simple(BASE, 100, TAG, "Kind"), Simple(BASE, 101, DEPTH, "idx_t")], TAG,
         [Simple(BASE, 101, DEPTH, "idx_t")])
  }

  lemma TaggedIsSound<V>(kind: V, value: V, t: Target)
    ensures var c, obj := Class<V>.Class([], []), map[Place(BASE, TAG) := kind, Place(BASE, DEPTH) := value];
            SoundPair(TaggedBase(), map[kind := c], c, obj, t)
  {
    var b, c := TaggedBase<V>(), Class<V>.Class([], []);
    var obj := map[Place(BASE, TAG) := kind, Place(BASE, DEPTH) := value];
    var tag, parameter := b.members[0], b.parameters[0];
    Letters();
    assert tag in b.members && tag.target == Place(b.owner, b.tag) && Carried(tag, t) && obj[tag.source] == kind;
    assert forall p :: p in b.parameters ==> p == parameter;
    assert parameter in b.members by { assert b.members[1] == parameter; }
    var all, own := [tag, parameter], [parameter];
    assert b.parameters == own && b.members == all && b.members + c.members == all;
    assert DistinctIds(all) && DistinctTargets(all) && DistinctNames(own) && DistinctTypes(own);
    assert HasAll(b.members, obj) && HasAll(c.members, obj) && DistinctNames(c.members) && DistinctTargets(c.members);
    hide DistinctIds, DistinctTargets, DistinctNames, DistinctTypes, HasAll, Carried;
  }

  /** A base class with a tag and a set-parameter, and a derived class whose constructor takes nothing:
      the parameter's value is written, read, and missing from the object. */
  lemma ParameterIsLost<V>(kind: V, value: V, t: Target)
    ensures var b, c := TaggedBase<V>(), Class<V>.Class([], []);
            var obj := map[Place(BASE, TAG) := kind, Place(BASE, DEPTH) := value];
            HasAll(b.members, obj) && HasAll(c.members, obj) &&
            var o := Deserialize(b, map[kind := c], Serialize(b, c, obj, t));
            o.Some? && Place(BASE, DEPTH) in obj && Place(BASE, DEPTH) !in o.value
  {
    var b, c := TaggedBase<V>(), Class<V>.Class([], []);
    var obj := map[Place(BASE, TAG) := kind, Place(BASE, DEPTH) := value];
    var children, parameter := map[kind := c], b.parameters[0];
    TaggedIsSound(kind, value, t);
    assert HasAll(b.members, obj) && HasAll(c.members, obj);
    assert AllReadable(b.members, t) && AllReadable(c.members, t);
    hide Deserialize, Serialize, SoundPair, Restores, OwnedByPair;
    SerializationRoundTrip(b, children, c, obj, t);
    var o := Deserialize(b, children, Serialize(b, c, obj, t));
    assert parameter in b.members by { assert b.members[1] == parameter; }
    assert BaseMemberOk(b, c, parameter, obj, t, o.value);
    assert IsParameterName(b.parameters, parameter.name) by { assert b.parameters[0].name == parameter.name; }
  }

  /** A class as in the catalog's descriptions: a deleted member has handed its property to its
      replacement, and another property has the name of the base class's tag. */
  function Reused<V>(): Class<V>
  {
    Class([Simple(DERIVED, 202, INDEX, "DeprecatedIndexType").(status := Deleted),
           Simple(DERIVED, 203, "index_type_name", "string").(source := Place(DERIVED, INDEX),
                                                              target := Place(DERIVED, INDEX)),
           Simple(DERIVED, 204, "logical_type", "LogicalType").(source := Place(DERIVED, TAG),
                                                                target := Place(DERIVED, TAG))],
          [])
  }

  function ReusedObject<V>(kind: V, depth: V, index: V, ty: V): Obj<V>
  {
    map[Place(BASE, TAG) := kind, Place(BASE, DEPTH) := depth, Place(DERIVED, INDEX) := index,
        Place(DERIVED, TAG) := ty]
  }

  lemma ReusedIsSound<V>(kind: V, depth: V, index: V, ty: V, t: Target)
    ensures SoundPair(TaggedBase(), map[kind := Reused()], Reused(), ReusedObject(kind, depth, index, ty), t)
  {
    var b, c, obj := TaggedBase<V>(), Reused<V>(), ReusedObject(kind, depth, index, ty);
    TaggedIsSound(kind, depth, t);
    ReusedIsDistinct<V>();
    var tag := b.members[0];
    assert tag in b.members && tag.target == Place(b.owner, b.tag) && Carried(tag, t) && obj[tag.source] == kind;
    assert HasAll(b.members, obj) && HasAll(c.members, obj);
    hide DistinctIds, DistinctTargets, TargetsDiffer, DistinctNames, DistinctTypes, HasAll, Carried;
  }

  lemma ReusedIsDistinct<V>()
    ensures var b, c := TaggedBase<V>(), Reused<V>();
            DistinctIds(b.members + c.members) && DistinctTargets(c.members) && TargetsDiffer(c.members, b.members) &&
            DistinctNames(c.members)
  {
    var b, c := TaggedBase<V>(), Reused<V>();
    Letters();
    assert DistinctNames(c.members) by { ReusedNames<V>(); }
    assert b.members + c.members == [b.members[0], b.members[1], c.members[0], c.members[1], c.members[2]];
    assert DistinctIds(b.members + c.members);
    hide DistinctNames, DistinctIds;
    assert forall m :: m in c.members ==> m.target.owner == DERIVED;
    assert forall m :: m in b.members ==> m.target.owner == BASE;
  }

  lemma ReusedNames<V>()
    ensures DistinctNames(Reused<V>().members)
  {
    var c := Reused<V>();
    assert |c.members[0].name| < |c.members[1].name| && c.members[0].name[0] != c.members[2].name[0];
    assert c.members[1].name[0] != c.members[2].name[0];
  }

  lemma ReusedKeys<V>(key: Place)
    requires OwnedByPair(TaggedBase<V>(), Reused<V>(), key)
    ensures key == Place(DERIVED, INDEX) || key == Place(DERIVED, TAG)
  {
    var b, c := TaggedBase<V>(), Reused<V>();
    assert IsParameterName(b.parameters, DEPTH) by { assert b.parameters[0].name == DEPTH; }
  }

  lemma ReusedExpects<V>(kind: V, depth: V, index: V, ty: V, t: Target)
    ensures var b, c, obj := TaggedBase<V>(), Reused<V>(), ReusedObject(kind, depth, index, ty);
            HasAll(b.members, obj) && HasAll(c.members, obj) && AllReadable(b.members, t) && AllReadable(c.members, t)
    ensures var c, obj := Reused<V>(), ReusedObject(kind, depth, index, ty);
            |c.members| == 3 && c.members[1].status == c.members[2].status == Existing &&
            c.members[1].target == Place(DERIVED, INDEX) && c.members[2].target == Place(DERIVED, TAG) &&
            CanWrite(c.members[1], obj) && Readable(c.members[1], t) && Expected(c.members[1], obj, t) == index &&
            CanWrite(c.members[2], obj) && Readable(c.members[2], t) && Expected(c.members[2], obj, t) == ty
  {
    Letters();
  }

  /** Both properties come back, each in its own place, and nothing else does: the tag has selected the
      class, and the constructor takes no parameter. */
  lemma ReusedRoundTrip<V>(kind: V, depth: V, index: V, ty: V, t: Target)
    ensures var b, c, obj := TaggedBase<V>(), Reused<V>(), ReusedObject(kind, depth, index, ty);
            HasAll(b.members, obj) && HasAll(c.members, obj) &&
            Deserialize(b, map[kind := c], Serialize(b, c, obj, t)) ==
            Some(map[Place(DERIVED, INDEX) := index, Place(DERIVED, TAG) := ty])
  {
    hide TaggedBase, Reused, ReusedObject, Deserialize, Serialize, SoundPair, OwnedByPair, BaseMemberOk;
    hide HasAll, AllReadable, Expected, CanWrite, Readable;
    var b, c, obj := TaggedBase<V>(), Reused<V>(), ReusedObject(kind, depth, index, ty);
    ReusedIsSound(kind, depth, index, ty, t);
    ReusedExpects(kind, depth, index, ty, t);
    SerializationRoundTrip(b, map[kind := c], c, obj, t);
    var o := Deserialize(b, map[kind := c], Serialize(b, c, obj, t)).value;
    assert c.members[1] in c.members && c.members[2] in c.members;
    assert MemberOk(c.members[1], obj, t, o) && MemberOk(c.members[2], obj, t, o);
    forall key | key in o ensures key == Place(DERIVED, INDEX) || key == Place(DERIVED, TAG) {
      ReusedKeys<V>(key);
    }
    assert o == map[Place(DERIVED, INDEX) := index, Place(DERIVED, TAG) := ty];
  }
}
