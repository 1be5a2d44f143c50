/** Chunked execution of `list_transform` and `list_filter`: the elements of many lists are streamed
    through fixed-size chunks, and the result lists are put together again from carried state. */
module LambdaFunctions {
  import opened Wrappers

  datatype ListEntry = ListEntry(offset: nat, length: nat)

  /** A captured column: one value for all rows, or a value per row. */
  datatype Column<V> = Constant(value: V) | Flat(data: seq<V>)

  /** The argument chunk. Row r is list entry sel[r], NULL unless valid; entries index into child. */
  datatype Args<V> = Args(
    sel: seq<nat>,
    entries: seq<ListEntry>,
    valid: seq<bool>,
    child: seq<V>,
    columns: seq<Column<V>>,
    hasIndex: bool)
  {
    ghost predicate WellFormed()
    {
      |entries| == |valid| &&
      (forall r :: 0 <= r < |sel| ==> sel[r] < |entries|) &&
      (forall e :: 0 <= e < |entries| && valid[e] ==> entries[e].offset + entries[e].length <= |child|) &&
      (forall c :: 0 <= c < |columns| && columns[c].Flat? ==> |columns[c].data| >= |sel|)
    }

    predicate IsNull(r: nat)
      requires WellFormed() && r < |sel|
    {
      !valid[sel[r]]
    }

    function Length(r: nat): (n: nat)
      requires WellFormed() && r < |sel|
    {
      if IsNull(r) then 0 else entries[sel[r]].length
    }

    /** What the lambda is given for element k of row r: its 1-based position if asked for, the
        element, and the row's own captured values. */
    function ArgumentsAt(position: nat, elem: nat, row: nat): (i: Input<V>)
      requires WellFormed() && elem < |child| && row < |sel|
    {
      Input(if hasIndex then Some(position) else None, child[elem],
            seq(|columns|, c requires 0 <= c < |columns| =>
                  if columns[c].Constant? then columns[c].value else columns[c].data[row]))
    }

    function RowInputs(r: nat): (s: seq<Input<V>>)
      requires WellFormed() && r < |sel|
    {
      seq(Length(r), k requires 0 <= k < Length(r) => ArgumentsAt(k + 1, entries[sel[r]].offset + k, r))
    }

    function Lengths(rows: nat): (s: seq<nat>)
      requires WellFormed() && rows <= |sel|
    {
      seq<nat>(rows, r requires 0 <= r < rows => Length(r))
    }

    /** The inputs of the rows before `rows`, in order. */
    function Inputs(rows: nat): (s: seq<Input<V>>)
      requires WellFormed() && rows <= |sel|
    {
      if rows == 0 then [] else Inputs(rows - 1) + RowInputs(rows - 1)
    }
  }

  datatype Input<V> = Input(index: Option<nat>, elem: V, captured: seq<V>)

  datatype Functor = Transform | Filter

  // ----- specification -----

  /** Where row r starts when rows have these lengths. */
  function Start(lengths: seq<nat>, r: nat): (n: nat)
    requires r <= |lengths|
  {
    if r == 0 then 0 else Start(lengths, r - 1) + lengths[r - 1]
  }

  function Mapped<V>(lam: Input<V> -> V, ins: seq<Input<V>>): (s: seq<V>)
  {
    seq(|ins|, k requires 0 <= k < |ins| => lam(ins[k]))
  }

  /** The elements whose lambda value is valid and true. */
  function Kept<V>(keep: Input<V> -> bool, ins: seq<Input<V>>): (s: seq<V>)
    ensures |s| <= |ins|
  {
    if ins == [] then []
    else
      var last := ins[|ins| - 1];
      Kept(keep, ins[..|ins| - 1]) + (if keep(last) then [last.elem] else [])
  }

  lemma {:induction false} KeptAppend<V>(keep: Input<V> -> bool, a: seq<Input<V>>, b: seq<Input<V>>)
    ensures Kept(keep, a + b) == Kept(keep, a) + Kept(keep, b)
  {
    if b == [] {
      assert a + b == a;
    } else {
      assert (a + b)[..|a + b| - 1] == a + b[..|b| - 1];
      KeptAppend(keep, a, b[..|b| - 1]);
    }
  }

  lemma {:induction false} KeptPrefix<V>(keep: Input<V> -> bool, ins: seq<Input<V>>, n: nat)
    requires n <= |ins|
    ensures Kept(keep, ins) == Kept(keep, ins[..n]) + Kept(keep, ins[n..])
  {
    assert ins == ins[..n] + ins[n..];
    KeptAppend(keep, ins[..n], ins[n..]);
  }

  lemma {:induction false} StartPrefix(a: seq<nat>, b: seq<nat>, r: nat)
    requires r <= |a|
    ensures Start(a + b, r) == Start(a, r)
  {
    if r > 0 { StartPrefix(a, b, r - 1); }
  }

  lemma {:induction false} StartMono(lengths: seq<nat>, r: nat, s: nat)
    requires r <= s <= |lengths|
    ensures Start(lengths, r) <= Start(lengths, s)
    decreases s
  {
    if r < s { StartMono(lengths, r, s - 1); }
  }

  lemma {:induction false} InputsLength<V>(a: Args<V>, rows: nat)
    requires a.WellFormed() && rows <= |a.sel|
    ensures |a.Inputs(rows)| == Start(a.Lengths(rows), rows)
  {
    if rows > 0 {
      InputsLength(a, rows - 1);
      assert a.Lengths(rows) == a.Lengths(rows - 1) + [a.Length(rows - 1)];
      StartPrefix(a.Lengths(rows - 1), [a.Length(rows - 1)], rows - 1);
    }
  }

  lemma StartsKept<V>(a: Args<V>, rows: nat, r: nat)
    requires a.WellFormed() && r < rows <= |a.sel|
    ensures Start(a.Lengths(rows), r) == Start(a.Lengths(rows - 1), r)
  {
    assert a.Lengths(rows) == a.Lengths(rows - 1) + [a.Length(rows - 1)];
    StartPrefix(a.Lengths(rows - 1), [a.Length(rows - 1)], r);
  }

  lemma SlicesKept<T>(p: seq<T>, q: seq<T>, from: nat, to: nat)
    requires from <= to <= |p|
    ensures (p + q)[from..to] == p[from..to] && (p + q)[..from] == p[..from]
  {
  }

  /** Row r's inputs are the slice of all inputs between its start and the next row's. */
  lemma {:induction false} RowSlice<V>(a: Args<V>, rows: nat, r: nat)
    requires a.WellFormed() && r < rows <= |a.sel|
    ensures Start(a.Lengths(rows), r) <= Start(a.Lengths(rows), r + 1) <= |a.Inputs(rows)|
    ensures a.Inputs(rows)[Start(a.Lengths(rows), r)..Start(a.Lengths(rows), r + 1)] == a.RowInputs(r)
    ensures a.Inputs(rows)[..Start(a.Lengths(rows), r)] == a.Inputs(r)
    decreases rows
  {
    hide Start;
    StartsKept(a, rows, r);
    InputsLength(a, rows);
    InputsLength(a, rows - 1);
    var before, last := a.Inputs(rows - 1), a.RowInputs(rows - 1);
    assert a.Inputs(rows) == before + last;
    if r < rows - 1 {
      RowSlice(a, rows - 1, r);
      StartsKept(a, rows, r + 1);
      SlicesKept(before, last, Start(a.Lengths(rows - 1), r), Start(a.Lengths(rows - 1), r + 1));
    }
  }

  // ----- what the inputs and the kept elements are -----

  /** Element k of row r is read at the row's own offset in the child vector, with its 1-based position if the
      lambda has an index, and with each captured column's single value or its value in row r. */
  lemma RowInputIs<V>(a: Args<V>, r: nat, k: nat)
    requires a.WellFormed() && r < |a.sel|
    ensures |a.RowInputs(r)| == if a.valid[a.sel[r]] then a.entries[a.sel[r]].length else 0
    ensures k < |a.RowInputs(r)| ==>
            a.entries[a.sel[r]].offset + k < |a.child| &&
            var i := a.RowInputs(r)[k];
            i.elem == a.child[a.entries[a.sel[r]].offset + k] &&
            i.index == (if a.hasIndex then Some(k + 1) else None) &&
            |i.captured| == |a.columns| &&
            forall c :: 0 <= c < |a.columns| ==>
              match a.columns[c]
              case Constant(value) => i.captured[c] == value
              case Flat(data) => r < |data| && i.captured[c] == data[r]
  {
  }

  ghost predicate Increasing(at: seq<nat>)
  {
    forall j, k :: 0 <= j < k < |at| ==> at[j] < at[k]
  }

  /** The kept elements are those of the inputs that `keep` holds of, all of them and in order. */
  ghost predicate Selects<V>(keep: Input<V> -> bool, ins: seq<Input<V>>, at: seq<nat>, s: seq<V>)
  {
    |s| == |at| && Increasing(at) &&
    (forall j :: 0 <= j < |at| ==> at[j] < |ins| && s[j] == ins[at[j]].elem) &&
    (forall k :: 0 <= k < |ins| ==> (keep(ins[k]) <==> k in at))
  }

  lemma {:induction false} KeptSelects<V>(keep: Input<V> -> bool, ins: seq<Input<V>>) returns (at: seq<nat>)
    ensures Selects(keep, ins, at, Kept(keep, ins))
  {
    hide Selects;
    at := [];
    if ins == [] {
      NothingSelected(keep);
    } else {
      var before, last := ins[..|ins| - 1], ins[|ins| - 1];
      assert ins == before + [last];
      at := KeptSelects(keep, before);
      SelectsOneMore(keep, before, at, Kept(keep, before), last);
      OneMore(keep, before, last);
      assert Kept(keep, before) + [] == Kept(keep, before);
      if keep(last) { at := at + [|before|]; }
    }
  }

  lemma NothingSelected<V>(keep: Input<V> -> bool)
    ensures Selects(keep, [], [], [])
  {
  }

  lemma SelectsOneMore<V>(keep: Input<V> -> bool, ins: seq<Input<V>>, at: seq<nat>, s: seq<V>, i: Input<V>)
    requires Selects(keep, ins, at, s)
    ensures if keep(i) then Selects(keep, ins + [i], at + [|ins|], s + [i.elem]) else Selects(keep, ins + [i], at, s)
  {
    var more, at' := ins + [i], if keep(i) then at + [|ins|] else at;
    forall k | 0 <= k < |more| ensures keep(more[k]) <==> k in at' {
      if k < |ins| {
        assert more[k] == ins[k];
      } else {
        assert k !in at;
      }
    }
  }

  /** A filtered row: the elements for which the lambda's value is valid and true, in order. */
  lemma FilteredRowIs<V>(a: Args<V>, lam: Input<V> -> V, truth: V -> Option<bool>, r: nat) returns (at: seq<nat>)
    requires a.WellFormed() && r < |a.sel|
    ensures var row, s := a.RowInputs(r), Kept(KeepIf(lam, truth), a.RowInputs(r));
            |s| == |at| && Increasing(at) &&
            (forall j :: 0 <= j < |at| ==> at[j] < |row| && s[j] == row[at[j]].elem) &&
            (forall k :: 0 <= k < |row| ==> (truth(lam(row[k])) == Some(true) <==> k in at))
  {
    at := KeptSelects(KeepIf(lam, truth), a.RowInputs(r));
  }

  /** A transformed row: the lambda's value for each element, in order. */
  lemma MappedRowIs<V>(a: Args<V>, lam: Input<V> -> V, r: nat)
    requires a.WellFormed() && r < |a.sel|
    ensures var row, s := a.RowInputs(r), Mapped(lam, a.RowInputs(r));
            |s| == |row| && forall k :: 0 <= k < |row| ==> s[k] == lam(row[k])
  {
  }

  // ----- carried state of list_filter -----

  class ListFilterInfo {
    var entryLengths: seq<nat>
    var length: nat
    var offset: nat
    var rowIdx: nat
    var srcLength: nat

    constructor ()
      ensures entryLengths == [] && length == 0 && offset == 0 && rowIdx == 0 && srcLength == 0
    {
      entryLengths := [];
      length, offset, rowIdx, srcLength := 0, 0, 0, 0;
    }
  }

  /** The result entry of row r when the lists of these lengths are filtered one after another. */
  ghost function FilteredEntry<V>(keep: Input<V> -> bool, lengths: seq<nat>, ins: seq<Input<V>>, r: nat): ListEntry
    requires r < |lengths| && Start(lengths, r + 1) <= |ins|
  {
    var from := |Kept(keep, ins[..Start(lengths, r)])|;
    KeptPrefix(keep, ins[..Start(lengths, r + 1)], Start(lengths, r));
    assert ins[..Start(lengths, r + 1)][..Start(lengths, r)] == ins[..Start(lengths, r)];
    ListEntry(from, |Kept(keep, ins[..Start(lengths, r + 1)])| - from)
  }

  /** After the inputs `ins`: rowIdx is the row in progress, srcLength and length count its processed
      and kept elements, offset the elements kept before it, and the rows before it are entered. */
  ghost predicate FilterState<V>(keep: Input<V> -> bool, ins: seq<Input<V>>, info: ListFilterInfo,
                                 entries: array<ListEntry>)
    reads info, entries
  {
    info.rowIdx <= |info.entryLengths| <= entries.Length &&
    Start(info.entryLengths, info.rowIdx) + info.srcLength == |ins| &&
    (if info.rowIdx < |info.entryLengths| && info.entryLengths[info.rowIdx] != 0
     then info.srcLength < info.entryLengths[info.rowIdx] else info.srcLength == 0) &&
    info.offset == |Kept(keep, ins[..Start(info.entryLengths, info.rowIdx)])| &&
    info.offset + info.length == |Kept(keep, ins)| &&
    Entered(keep, ins, info.entryLengths, info.rowIdx, entries)
  }

  ghost predicate Entered<V>(keep: Input<V> -> bool, ins: seq<Input<V>>, lengths: seq<nat>, rows: nat,
                             entries: array<ListEntry>)
    reads entries
  {
    rows <= |lengths| && rows <= entries.Length &&
    forall r :: 0 <= r < rows ==> EntryOk(keep, ins, lengths, r, entries[r])
  }

  ghost predicate EntryOk<V>(keep: Input<V> -> bool, ins: seq<Input<V>>, lengths: seq<nat>, r: nat, e: ListEntry)
  {
    r < |lengths| && Start(lengths, r + 1) <= |ins| && e == FilteredEntry(keep, lengths, ins, r)
  }

  /** More inputs and more rows do not change the entries already made. */
  lemma FilterStateGrows<V>(keep: Input<V> -> bool, lengths: seq<nat>, ins: seq<Input<V>>, more: seq<nat>,
                            ins': seq<Input<V>>, r: nat)
    requires r < |lengths| && Start(lengths, r + 1) <= |ins| <= |ins'| && ins == ins'[..|ins|]
    ensures Start(lengths + more, r + 1) == Start(lengths, r + 1)
    ensures FilteredEntry(keep, lengths + more, ins', r) == FilteredEntry(keep, lengths, ins, r)
  {
    StartPrefix(lengths, more, r);
    StartPrefix(lengths, more, r + 1);
    StartMono(lengths, r, r + 1);
    assert ins'[..Start(lengths, r)] == ins[..Start(lengths, r)];
    assert ins'[..Start(lengths, r + 1)] == ins[..Start(lengths, r + 1)];
  }

  /** Enter the empty lists at the front of the remaining rows. */
  method SkipEmptyLists<V>(info: ListFilterInfo, entries: array<ListEntry>, ghost keep: Input<V> -> bool,
                           ghost ins: seq<Input<V>>)
    requires FilterState(keep, ins, info, entries)
    modifies info, entries
    ensures FilterState(keep, ins, info, entries) && info.entryLengths == old(info.entryLengths)
    ensures info.rowIdx < |info.entryLengths| ==> info.entryLengths[info.rowIdx] != 0
  {
    while info.rowIdx < |info.entryLengths| && info.entryLengths[info.rowIdx] == 0
      invariant FilterState(keep, ins, info, entries) && info.entryLengths == old(info.entryLengths)
      decreases |info.entryLengths| - info.rowIdx
    {
      assert ins[..|ins|] == ins;
      EnterRow(info, entries, keep, ins, 0);
      info.rowIdx := info.rowIdx + 1;
    }
  }

  /** Write the entry of the row in progress, all of whose elements are processed. */
  method EnterRow<V>(info: ListFilterInfo, entries: array<ListEntry>, ghost keep: Input<V> -> bool,
                     ghost ins: seq<Input<V>>, length: nat)
    requires info.rowIdx < |info.entryLengths| <= entries.Length && Start(info.entryLengths, info.rowIdx + 1) == |ins|
    requires info.offset == |Kept(keep, ins[..Start(info.entryLengths, info.rowIdx)])|
    requires info.offset + length == |Kept(keep, ins)|
    requires Entered(keep, ins, info.entryLengths, info.rowIdx, entries)
    modifies entries
    ensures Entered(keep, ins, info.entryLengths, info.rowIdx + 1, entries)
  {
    entries[info.rowIdx] := ListEntry(info.offset, length);
    assert ins[..|ins|] == ins;
    assert EntryOk(keep, ins, info.entryLengths, info.rowIdx, entries[info.rowIdx]);
  }

  /** The filter's AppendResult: one chunk of lambda values and its elements. */
  method AppendFiltered<V>(child: seq<V>, info: ListFilterInfo, entries: array<ListEntry>, verdicts: seq<bool>,
                           elems: seq<V>, ghost keep: Input<V> -> bool, ghost ins: seq<Input<V>>,
                           ghost chunk: seq<Input<V>>)
    returns (child': seq<V>)
    requires FilterState(keep, ins, info, entries) && child == Kept(keep, ins)
    requires |ins| + |chunk| <= Start(info.entryLengths, |info.entryLengths|)
    requires |verdicts| == |elems| == |chunk|
    requires forall k :: 0 <= k < |chunk| ==> verdicts[k] == keep(chunk[k]) && elems[k] == chunk[k].elem
    modifies info, entries
    ensures FilterState(keep, ins + chunk, info, entries) && info.entryLengths == old(info.entryLengths)
    ensures child' == Kept(keep, ins + chunk)
    ensures info.rowIdx < |info.entryLengths| ==> info.entryLengths[info.rowIdx] != 0
  {
    hide Kept, FilterState, Start;
    var selected: seq<V> := [];
    assert ins + chunk[..0] == ins;
    for i := 0 to |verdicts|
      invariant info.entryLengths == old(info.entryLengths)
      invariant FilterState(keep, ins + chunk[..i], info, entries)
      invariant child + selected == Kept(keep, ins + chunk[..i])
    {
      ghost var done := ins + chunk[..i];
      assert ins + chunk[..i + 1] == done + [chunk[i]];
      OneMore(keep, done, chunk[i]);
      if verdicts[i] {
        selected := selected + [elems[i]];
      }
      AppendOne(info, entries, verdicts[i], keep, done, chunk[i]);
    }
    assert chunk[..|chunk|] == chunk;
    SkipEmptyLists(info, entries, keep, ins + chunk);
    child' := child + selected;
  }

  /** One verdict: the empty lists in front are entered, then the element is counted. */
  method AppendOne<V>(info: ListFilterInfo, entries: array<ListEntry>, verdict: bool,
                      ghost keep: Input<V> -> bool, ghost done: seq<Input<V>>, ghost i: Input<V>)
    requires FilterState(keep, done, info, entries) && verdict == keep(i)
    requires |done| < Start(info.entryLengths, |info.entryLengths|)
    modifies info, entries
    ensures FilterState(keep, done + [i], info, entries) && info.entryLengths == old(info.entryLengths)
  {
    hide Kept, Entered, Start;
    SkipEmptyLists(info, entries, keep, done);
    RowInProgress(info.entryLengths, info.rowIdx, info.srcLength, |done| + 1);
    CountElement(info, entries, verdict, keep, done, i);
  }

  /** One more element of the row in progress, which is entered when it is complete. */
  method CountElement<V>(info: ListFilterInfo, entries: array<ListEntry>, verdict: bool,
                         ghost keep: Input<V> -> bool, ghost done: seq<Input<V>>, ghost i: Input<V>)
    requires FilterState(keep, done, info, entries) && verdict == keep(i)
    requires info.rowIdx < |info.entryLengths| && info.entryLengths[info.rowIdx] != 0
    modifies info, entries
    ensures FilterState(keep, done + [i], info, entries) && info.entryLengths == old(info.entryLengths)
  {
    hide Kept, FilteredEntry, EntryOk;
    ghost var next := done + [i];
    OneMore(keep, done, i);
    StartStep(info.entryLengths, info.rowIdx);
    EnteredGrows(keep, info.entryLengths, done, next, info.rowIdx, entries);
    assert next[..Start(info.entryLengths, info.rowIdx)] == done[..Start(info.entryLengths, info.rowIdx)];
    if verdict {
      info.length := info.length + 1;
    }
    info.srcLength := info.srcLength + 1;
    if info.entryLengths[info.rowIdx] == info.srcLength {
      EnterRow(info, entries, keep, next, info.length);
      info.offset := info.offset + info.length;
      info.rowIdx := info.rowIdx + 1;
      info.length := 0;
      info.srcLength := 0;
      assert next[..|next|] == next;
    }
  }

  lemma StartStep(lengths: seq<nat>, r: nat)
    requires r < |lengths|
    ensures Start(lengths, r + 1) == Start(lengths, r) + lengths[r]
  {
  }

  lemma OneMore<V>(keep: Input<V> -> bool, ins: seq<Input<V>>, i: Input<V>)
    ensures Kept(keep, ins + [i]) == Kept(keep, ins) + (if keep(i) then [i.elem] else [])
  {
    assert (ins + [i])[..|ins|] == ins;
  }

  /** While elements are left, the row index stays in bounds. */
  lemma RowInProgress(lengths: seq<nat>, row: nat, src: nat, total: nat)
    requires row <= |lengths| && Start(lengths, row) + src + 1 == total <= Start(lengths, |lengths|)
    requires row == |lengths| ==> src == 0
    ensures row < |lengths|
  {
  }

  lemma EnteredGrows<V>(keep: Input<V> -> bool, lengths: seq<nat>, ins: seq<Input<V>>, ins': seq<Input<V>>, rows: nat,
                        entries: array<ListEntry>)
    requires Entered(keep, ins, lengths, rows, entries) && |ins| <= |ins'| && ins == ins'[..|ins|]
    ensures Entered(keep, ins', lengths, rows, entries)
  {
    assert lengths + [] == lengths;
    forall r | 0 <= r < rows
      ensures EntryOk(keep, ins', lengths, r, entries[r])
    {
      assert EntryOk(keep, ins, lengths, r, entries[r]);
      FilterStateGrows(keep, lengths, ins, [], ins', r);
    }
  }

  /** SetResultEntry and PushEmptyList of the filter: one more source list. */
  method PushLength<V>(info: ListFilterInfo, length: nat, ghost entries: array<ListEntry>, ghost keep: Input<V> -> bool,
                       ghost ins: seq<Input<V>>)
    requires FilterState(keep, ins, info, entries) && |info.entryLengths| < entries.Length
    modifies info`entryLengths
    ensures info.entryLengths == old(info.entryLengths) + [length]
    ensures FilterState(keep, ins, info, entries)
  {
    ghost var lengths := info.entryLengths;
    StartPrefix(lengths, [length], info.rowIdx);
    forall r | 0 <= r < info.rowIdx ensures EntryOk(keep, ins, lengths + [length], r, entries[r]) {
      assert EntryOk(keep, ins, lengths, r, entries[r]);
      FilterStateGrows(keep, lengths, ins, [length], ins, r);
    }
    info.entryLengths := info.entryLengths + [length];
  }

  // ----- the executor -----

  /** The lambda expression's executor; `trace` records the inputs it is run on. */
  class Executor<V> {
    const lam: Input<V> -> V
    ghost var trace: seq<Input<V>>

    constructor (lam: Input<V> -> V)
      ensures this.lam == lam && trace == []
    {
      this.lam := lam;
      trace := [];
    }

    method Evaluate(i: Input<V>) returns (v: V)
      modifies this`trace
      ensures v == lam(i) && trace == old(trace) + [i]
    {
      trace := trace + [i];
      v := lam(i);
    }
  }

  // ----- chunks -----

  /** The selection and index vectors of the chunk being filled. */
  class Chunk {
    const childSel: array<nat>
    const rowSel: array<nat>
    const index: array<nat>

    constructor (capacity: nat)
      ensures fresh(childSel) && fresh(rowSel) && fresh(index) && childSel != rowSel && childSel != index &&
              rowSel != index
      ensures childSel.Length == rowSel.Length == index.Length == capacity
    {
      childSel := new nat[capacity];
      rowSel := new nat[capacity];
      index := new nat[capacity];
    }

    ghost predicate Holds<V>(a: Args<V>, ins: seq<Input<V>>)
      requires a.WellFormed()
      reads this, childSel, rowSel, index
    {
      |ins| <= childSel.Length == rowSel.Length == index.Length &&
      forall j :: 0 <= j < |ins| ==>
        childSel[j] < |a.child| && rowSel[j] < |a.sel| && ins[j] == a.ArgumentsAt(index[j], childSel[j], rowSel[j])
    }

    method Add<V>(a: Args<V>, at: nat, elem: nat, row: nat, position: nat, ghost ins: seq<Input<V>>)
      requires a.WellFormed() && Holds(a, ins) && at == |ins| < childSel.Length && elem < |a.child| && row < |a.sel|
      requires childSel != rowSel && childSel != index && rowSel != index
      modifies childSel, rowSel, index
      ensures Holds(a, ins + [a.ArgumentsAt(position, elem, row)])
    {
      childSel[at] := elem;
      rowSel[at] := row;
      if a.hasIndex {
        index[at] := position;
      }
      assert a.ArgumentsAt(index[at], childSel[at], rowSel[at]) == a.ArgumentsAt(position, elem, row);
    }

    /** Entry j of the input chunk: the index vector if there is one, the child vector sliced by its
        selection, and the columns, of which the inconstant ones are sliced by the rows' selection. */
    method InputAt<V>(a: Args<V>, j: nat) returns (i: Input<V>)
      requires a.WellFormed() && j < childSel.Length == rowSel.Length == index.Length
      requires childSel[j] < |a.child| && rowSel[j] < |a.sel|
      ensures i == a.ArgumentsAt(index[j], childSel[j], rowSel[j])
    {
      var captured: seq<V> := [];
      for c := 0 to |a.columns|
        invariant captured == a.ArgumentsAt(index[j], childSel[j], rowSel[j]).captured[..c]
      {
        match a.columns[c] {
          case Constant(value) => captured := captured + [value];
          case Flat(data) => captured := captured + [data[rowSel[j]]];
        }
      }
      i := Input(if a.hasIndex then Some(index[j]) else None, a.child[childSel[j]], captured);
    }

    /** ExecuteExpression: the lambda on the first cnt entries of the chunk. */
    method Execute<V>(a: Args<V>, cnt: nat, exec: Executor<V>, ghost ins: seq<Input<V>>)
      returns (values: seq<V>, elems: seq<V>)
      requires a.WellFormed() && Holds(a, ins) && cnt == |ins|
      modifies exec`trace
      ensures values == Mapped(exec.lam, ins) && exec.trace == old(exec.trace) + ins
      ensures |elems| == cnt && forall j :: 0 <= j < cnt ==> elems[j] == ins[j].elem
    {
      values, elems := [], [];
      for j := 0 to cnt
        invariant values == Mapped(exec.lam, ins[..j]) && exec.trace == old(exec.trace) + ins[..j]
        invariant |elems| == j && forall k :: 0 <= k < j ==> elems[k] == ins[k].elem
      {
        var i := InputAt(a, j);
        assert ins[..j + 1] == ins[..j] + [i];
        var v := exec.Evaluate(i);
        values := values + [v];
        elems := elems + [i.elem];
      }
      assert ins[..cnt] == ins;
    }
  }

  // ----- the driver -----

  class ListResult<V> {
    var child: seq<V>
    var nulls: set<nat>
    const entries: array<ListEntry>

    constructor (rows: nat)
      ensures child == [] && nulls == {} && fresh(entries) && entries.Length == rows
    {
      child, nulls := [], {};
      entries := new ListEntry[rows](_ => ListEntry(0, 0));
    }
  }

  /** A lambda value keeps its element if it is valid and true. */
  predicate IsTrue(value: Option<bool>)
  {
    value.Some? && value.value
  }

  ghost function KeepIf<V>(lam: Input<V> -> V, truth: V -> Option<bool>): Input<V> -> bool
  {
    i => truth(lam(i)) == Some(true)
  }

  /** What the result holds after the inputs `done` have been flushed. */
  ghost predicate Flushed<V>(functor: Functor, exec: Executor<V>, truth: V -> Option<bool>, done: seq<Input<V>>,
                             result: ListResult<V>, info: ListFilterInfo)
    reads result, result.entries, info, exec
  {
    exec.trace == done &&
    if functor.Transform? then result.child == Mapped(exec.lam, done)
    else result.child == Kept(KeepIf(exec.lam, truth), done) &&
         FilterState(KeepIf(exec.lam, truth), done, info, result.entries)
  }

  method Flush<V>(a: Args<V>, functor: Functor, exec: Executor<V>, truth: V -> Option<bool>, chunk: Chunk, cnt: nat,
                  result: ListResult<V>, info: ListFilterInfo, ghost done: seq<Input<V>>, ghost buffered: seq<Input<V>>)
    requires a.WellFormed() && chunk.Holds(a, buffered) && cnt == |buffered|
    requires Flushed(functor, exec, truth, done, result, info)
    requires functor.Filter? ==> |done| + |buffered| <= Start(info.entryLengths, |info.entryLengths|)
    modifies result`child, info, exec, if functor.Filter? then {result.entries} else {}
    ensures Flushed(functor, exec, truth, done + buffered, result, info) && info.entryLengths == old(info.entryLengths)
    ensures functor.Filter? && info.rowIdx < |info.entryLengths| ==> info.entryLengths[info.rowIdx] != 0
  {
    var values, elems := chunk.Execute(a, cnt, exec, buffered);
    match functor {
      case Transform =>
        result.child := result.child + values;
        assert result.child == Mapped(exec.lam, done + buffered);
      case Filter =>
        var verdicts := seq(|values|, k requires 0 <= k < |values| => IsTrue(truth(values[k])));
        ghost var keep := KeepIf(exec.lam, truth);
        result.child := AppendFiltered(result.child, info, result.entries, verdicts, elems, keep, done, buffered);
    }
  }

  /** The rows of a transform entered so far: each non-NULL row where the lengths before it end. */
  ghost predicate Laid<V>(a: Args<V>, rows: nat, entries: seq<ListEntry>)
    requires a.WellFormed() && rows <= |a.sel|
  {
    rows <= |entries| &&
    forall r :: 0 <= r < rows && !a.IsNull(r) ==> entries[r] == ListEntry(Start(a.Lengths(r), r), a.Length(r))
  }

  ghost function Slice<V>(child: seq<V>, e: ListEntry): seq<V>
    requires e.offset + e.length <= |child|
  {
    child[e.offset..e.offset + e.length]
  }

  ghost predicate CutsOut<V>(child: seq<V>, e: ListEntry, s: seq<V>)
  {
    e.offset + e.length <= |child| && Slice(child, e) == s
  }

  lemma RowFits<V>(a: Args<V>, row: nat)
    requires a.WellFormed() && row < |a.sel|
    ensures |a.Inputs(row)| + |a.RowInputs(row)| == |a.Inputs(row + 1)| ==
            Start(a.Lengths(row + 1), |a.Lengths(row + 1)|)
  {
    InputsLength(a, row + 1);
  }

  /** The inner loop: the elements of one list go through the chunk, which is flushed when full. */
  method StreamRow<V>(a: Args<V>, functor: Functor, exec: Executor<V>, truth: V -> Option<bool>, row: nat, chunk: Chunk,
                      cnt: nat, result: ListResult<V>, info: ListFilterInfo, ghost done: seq<Input<V>>,
                      ghost buffered: seq<Input<V>>)
    returns (cnt': nat, ghost done': seq<Input<V>>, ghost buffered': seq<Input<V>>)
    requires a.WellFormed() && row < |a.sel| && !a.IsNull(row)
    requires chunk.childSel != chunk.rowSel && chunk.childSel != chunk.index && chunk.rowSel != chunk.index
    requires 0 < chunk.childSel.Length && chunk.Holds(a, buffered) && cnt == |buffered|
    requires Flushed(functor, exec, truth, done, result, info) && done + buffered == a.Inputs(row)
    requires functor.Filter? ==> info.entryLengths == a.Lengths(row + 1)
    modifies chunk.childSel, chunk.rowSel, chunk.index, result`child, info, exec,
             if functor.Filter? then {result.entries} else {}
    ensures chunk.Holds(a, buffered') && cnt' == |buffered'|
    ensures Flushed(functor, exec, truth, done', result, info) && done' + buffered' == a.Inputs(row + 1)
    ensures info.entryLengths == old(info.entryLengths)
  {
    hide Flushed, FilterState, Start, Kept, Mapped;
    var entry := a.entries[a.sel[row]];
    RowFits(a, row);
    cnt', done', buffered' := cnt, done, buffered;
    var k := 0;
    while k < entry.length
      invariant 0 <= k <= entry.length
      invariant chunk.Holds(a, buffered') && cnt' == |buffered'|
      invariant Flushed(functor, exec, truth, done', result, info)
      invariant done' + buffered' == a.Inputs(row) + a.RowInputs(row)[..k]
      invariant info.entryLengths == old(info.entryLengths)
    {
      cnt', done', buffered' :=
        StreamElement(a, functor, exec, truth, row, k, chunk, cnt', result, info, done', buffered');
      assert a.RowInputs(row)[..k + 1] == a.RowInputs(row)[..k] + [a.RowInputs(row)[k]];
      k := k + 1;
    }
    assert a.RowInputs(row)[..entry.length] == a.RowInputs(row);
  }

  /** One element: a full chunk is flushed first, then the element is added to it. */
  method StreamElement<V>(a: Args<V>, functor: Functor, exec: Executor<V>, truth: V -> Option<bool>, row: nat, k: nat,
                          chunk: Chunk, cnt: nat, result: ListResult<V>, info: ListFilterInfo,
                          ghost done: seq<Input<V>>, ghost buffered: seq<Input<V>>)
    returns (cnt': nat, ghost done': seq<Input<V>>, ghost buffered': seq<Input<V>>)
    requires a.WellFormed() && row < |a.sel| && !a.IsNull(row) && k < a.entries[a.sel[row]].length
    requires chunk.childSel != chunk.rowSel && chunk.childSel != chunk.index && chunk.rowSel != chunk.index
    requires 0 < chunk.childSel.Length && chunk.Holds(a, buffered) && cnt == |buffered|
    requires Flushed(functor, exec, truth, done, result, info)
    requires functor.Filter? ==> |done| + |buffered| <= Start(info.entryLengths, |info.entryLengths|)
    modifies chunk.childSel, chunk.rowSel, chunk.index, result`child, info, exec,
             if functor.Filter? then {result.entries} else {}
    ensures chunk.Holds(a, buffered') && cnt' == |buffered'|
    ensures Flushed(functor, exec, truth, done', result, info)
    ensures done' + buffered' == done + buffered + [a.RowInputs(row)[k]]
    ensures info.entryLengths == old(info.entryLengths)
  {
    hide Flushed, FilterState, Start, Kept, Mapped;
    var entry := a.entries[a.sel[row]];
    cnt', done', buffered' := cnt, done, buffered;
    if cnt == chunk.childSel.Length {
      Flush(a, functor, exec, truth, chunk, cnt, result, info, done, buffered);
      done', buffered', cnt' := done + buffered, [], 0;
    }
    chunk.Add(a, cnt', entry.offset + k, row, k + 1, buffered');
    ghost var next := a.RowInputs(row)[k];
    assert next == a.ArgumentsAt(k + 1, entry.offset + k, row);
    assert done' + (buffered' + [next]) == (done' + buffered') + [next];
    buffered', cnt' := buffered' + [next], cnt' + 1;
  }

  /** The entry of row r in the chunked result cuts out row r's own filtered list. */
  lemma FilterCuts<V>(a: Args<V>, keep: Input<V> -> bool, r: nat, e: ListEntry)
    requires a.WellFormed() && r < |a.sel| && EntryOk(keep, a.Inputs(|a.sel|), a.Lengths(|a.sel|), r, e)
    ensures CutsOut(Kept(keep, a.Inputs(|a.sel|)), e, Kept(keep, a.RowInputs(r)))
  {
    var ins, lengths := a.Inputs(|a.sel|), a.Lengths(|a.sel|);
    var from, to := Start(lengths, r), Start(lengths, r + 1);
    RowSlice(a, |a.sel|, r);
    KeptPrefix(keep, ins, to);
    KeptPrefix(keep, ins[..to], from);
    assert ins[..to][..from] == ins[..from] && ins[..to][from..] == ins[from..to];
  }

  lemma TransformCuts<V>(a: Args<V>, lam: Input<V> -> V, r: nat)
    requires a.WellFormed() && r < |a.sel|
    ensures CutsOut(Mapped(lam, a.Inputs(|a.sel|)), ListEntry(Start(a.Lengths(r), r), a.Length(r)),
                    Mapped(lam, a.RowInputs(r)))
  {
    RowSlice(a, |a.sel|, r);
    InputsLength(a, r);
    var from := Start(a.Lengths(|a.sel|), r);
    assert from == Start(a.Lengths(r), r) by { assert |a.Inputs(|a.sel|)[..from]| == |a.Inputs(r)|; }
    MappedSlice(lam, a.Inputs(|a.sel|), from, a.RowInputs(r));
  }

  lemma MappedSlice<V>(lam: Input<V> -> V, ins: seq<Input<V>>, from: nat, part: seq<Input<V>>)
    requires from + |part| <= |ins| && ins[from..from + |part|] == part
    ensures CutsOut(Mapped(lam, ins), ListEntry(from, |part|), Mapped(lam, part))
  {
    forall k | 0 <= k < |part| ensures Mapped(lam, ins)[from + k] == Mapped(lam, part)[k] {
      assert ins[from..from + |part|][k] == ins[from + k];
    }
  }

  /** When every element has been flushed, every row has been entered and nothing is carried over. */
  lemma AllEntered<V>(a: Args<V>, keep: Input<V> -> bool, info: ListFilterInfo, entries: array<ListEntry>)
    requires a.WellFormed() && entries.Length == |a.sel| && info.entryLengths == a.Lengths(|a.sel|)
    requires FilterState(keep, a.Inputs(|a.sel|), info, entries)
    requires info.rowIdx < |info.entryLengths| ==> info.entryLengths[info.rowIdx] != 0
    ensures info.rowIdx == |a.sel| && info.srcLength == 0 && info.length == 0
    ensures forall r :: 0 <= r < |a.sel| ==> EntryOk(keep, a.Inputs(|a.sel|), a.Lengths(|a.sel|), r, entries[r])
  {
    var ins := a.Inputs(|a.sel|);
    InputsLength(a, |a.sel|);
    if info.rowIdx < |a.sel| {
      StartMono(info.entryLengths, info.rowIdx + 1, |a.sel|);
    }
    assert ins[..|ins|] == ins;
  }

  lemma StartsFlushed<V>(functor: Functor, exec: Executor<V>, truth: V -> Option<bool>, result: ListResult<V>,
                         info: ListFilterInfo)
    requires exec.trace == [] && result.child == [] && info.entryLengths == [] &&
             info.rowIdx == info.srcLength == info.length == info.offset == 0
    ensures Flushed(functor, exec, truth, [], result, info)
  {
  }

  /** Streams every element of every row through chunks of the given capacity. Whatever the capacity,
      each element is evaluated once, in order, with its own position and its own row's captured
      values; a transform's entries cut out the mapped lists, a filter's the filtered lists, of
      which the child vector is the concatenation. */
  method ExecuteLambda<V>(a: Args<V>, functor: Functor, exec: Executor<V>, truth: V -> Option<bool>, capacity: nat,
                          result: ListResult<V>)
    requires a.WellFormed() && capacity > 0 && exec.trace == []
    requires result.child == [] && result.nulls == {} && result.entries.Length == |a.sel|
    modifies result, result.entries, exec
    ensures exec.trace == a.Inputs(|a.sel|)
    ensures forall r: nat :: r in result.nulls <==> r < |a.sel| && !a.valid[a.sel[r]]
    ensures PerRow(a, functor, exec.lam, truth, result)
  {
    var info := new ListFilterInfo();
    var chunk := new Chunk(capacity);
    StartsFlushed(functor, exec, truth, result, info);
    hide FilterState, Flushed, PerRow, Laid;
    var cnt;
    ghost var done, buffered;
    cnt, done, buffered := StreamRows(a, functor, exec, truth, chunk, result, info);
    LastFlush(a, functor, exec, truth, chunk, cnt, result, info, done, buffered);
  }

  /** The result after all: for a transform the child vector is all mapped elements and each non-NULL
      row's entry cuts out its own mapped list; for a filter, the same with the kept elements, and every
      row has its entry. */
  ghost predicate PerRow<V>(a: Args<V>, functor: Functor, lam: Input<V> -> V, truth: V -> Option<bool>,
                            result: ListResult<V>)
    requires a.WellFormed() && result.entries.Length == |a.sel|
    reads result, result.entries
  {
    match functor
    case Transform =>
      result.child == Mapped(lam, a.Inputs(|a.sel|)) &&
      forall r :: 0 <= r < |a.sel| && !a.IsNull(r) ==>
        CutsOut(result.child, result.entries[r], Mapped(lam, a.RowInputs(r)))
    case Filter =>
      result.child == Kept(KeepIf(lam, truth), a.Inputs(|a.sel|)) &&
      forall r :: 0 <= r < |a.sel| ==>
        CutsOut(result.child, result.entries[r], Kept(KeepIf(lam, truth), a.RowInputs(r)))
  }

  /** What is still buffered after the row loop is flushed. */
  method LastFlush<V>(a: Args<V>, functor: Functor, exec: Executor<V>, truth: V -> Option<bool>, chunk: Chunk, cnt: nat,
                      result: ListResult<V>, info: ListFilterInfo, ghost done: seq<Input<V>>,
                      ghost buffered: seq<Input<V>>)
    requires a.WellFormed() && chunk.Holds(a, buffered) && cnt == |buffered| && result.entries.Length == |a.sel|
    requires Flushed(functor, exec, truth, done, result, info) && done + buffered == a.Inputs(|a.sel|)
    requires functor.Filter? ==> info.entryLengths == a.Lengths(|a.sel|)
    requires functor.Transform? ==> Laid(a, |a.sel|, result.entries[..])
    modifies result`child, info, exec, if functor.Filter? then {result.entries} else {}
    ensures exec.trace == a.Inputs(|a.sel|) && PerRow(a, functor, exec.lam, truth, result)
  {
    hide FilterState, Flushed, PerRow, Laid, Start;
    InputsLength(a, |a.sel|);
    Flush(a, functor, exec, truth, chunk, cnt, result, info, done, buffered);
    ResultIsCorrect(a, functor, exec, truth, result, info);
  }

  lemma ResultIsCorrect<V>(a: Args<V>, functor: Functor, exec: Executor<V>, truth: V -> Option<bool>,
                           result: ListResult<V>,
                           info: ListFilterInfo)
    requires a.WellFormed() && result.entries.Length == |a.sel|
    requires Flushed(functor, exec, truth, a.Inputs(|a.sel|), result, info)
    requires functor.Filter? ==> info.entryLengths == a.Lengths(|a.sel|)
    requires functor.Filter? && info.rowIdx < |info.entryLengths| ==> info.entryLengths[info.rowIdx] != 0
    requires functor.Transform? ==> Laid(a, |a.sel|, result.entries[..])
    ensures exec.trace == a.Inputs(|a.sel|) && PerRow(a, functor, exec.lam, truth, result)
  {
    hide FilterState, Start, Kept, Mapped, EntryOk, CutsOut;
    var keep := KeepIf(exec.lam, truth);
    if functor.Filter? {
      AllEntered(a, keep, info, result.entries);
      forall r | 0 <= r < |a.sel| ensures CutsOut(result.child, result.entries[r], Kept(keep, a.RowInputs(r))) {
        FilterCuts(a, keep, r, result.entries[r]);
      }
    } else {
      forall r | 0 <= r < |a.sel| && !a.IsNull(r)
        ensures CutsOut(result.child, result.entries[r], Mapped(exec.lam, a.RowInputs(r)))
      {
        TransformCuts(a, exec.lam, r);
        assert result.entries[r] == result.entries[..][r];
      }
    }
  }

  /** The row loop; what is still buffered at the end is left to the last flush. */
  method StreamRows<V>(a: Args<V>, functor: Functor, exec: Executor<V>, truth: V -> Option<bool>, chunk: Chunk,
                       result: ListResult<V>, info: ListFilterInfo)
    returns (cnt: nat, ghost done: seq<Input<V>>, ghost buffered: seq<Input<V>>)
    requires a.WellFormed() && result.nulls == {} && result.entries.Length == |a.sel| && info.entryLengths == []
    requires chunk.childSel != chunk.rowSel && chunk.childSel != chunk.index && chunk.rowSel != chunk.index
    requires 0 < chunk.childSel.Length == chunk.rowSel.Length == chunk.index.Length
    requires Flushed(functor, exec, truth, [], result, info)
    modifies chunk.childSel, chunk.rowSel, chunk.index, result, info, exec, result.entries
    ensures chunk.Holds(a, buffered) && cnt == |buffered|
    ensures Flushed(functor, exec, truth, done, result, info) && done + buffered == a.Inputs(|a.sel|)
    ensures forall r: nat :: r in result.nulls <==> r < |a.sel| && a.IsNull(r)
    ensures functor.Filter? ==> info.entryLengths == a.Lengths(|a.sel|)
    ensures functor.Transform? ==> Laid(a, |a.sel|, result.entries[..])
  {
    hide Flushed, Start;
    done, buffered := [], [];
    var offset: nat := 0;
    cnt := 0;
    StartIsZero();
    assert a.Lengths(0) == [];
    var row: nat := 0;
    while row < |a.sel|
      invariant row <= |a.sel|
      invariant Progress(a, functor, row, offset, chunk, cnt, result, info, done, buffered)
      invariant Flushed(functor, exec, truth, done, result, info)
    {
      offset, cnt, done, buffered :=
        ProcessRow(a, functor, exec, truth, row, offset, chunk, cnt, result, info, done, buffered);
      row := row + 1;
    }
  }

  lemma StartIsZero()
    ensures Start([], 0) == 0
  {
  }

  /** The state of the row loop before row `row`. */
  ghost predicate Progress<V>(a: Args<V>, functor: Functor, row: nat, offset: nat, chunk: Chunk, cnt: nat,
                              result: ListResult<V>, info: ListFilterInfo, done: seq<Input<V>>, buffered: seq<Input<V>>)
    requires a.WellFormed() && row <= |a.sel|
    reads chunk, chunk.childSel, chunk.rowSel, chunk.index, result, info, result.entries
  {
    chunk.Holds(a, buffered) && cnt == |buffered| && done + buffered == a.Inputs(row) &&
    (forall r: nat :: r in result.nulls <==> r < row && a.IsNull(r)) &&
    (functor.Filter? ==> info.entryLengths == a.Lengths(row)) &&
    (functor.Transform? ==> offset == Start(a.Lengths(row), row) && Laid(a, row, result.entries[..]))
  }

  method ProcessRow<V>(a: Args<V>, functor: Functor, exec: Executor<V>, truth: V -> Option<bool>, row: nat, offset: nat,
                       chunk: Chunk, cnt: nat, result: ListResult<V>, info: ListFilterInfo,
                       ghost done: seq<Input<V>>, ghost buffered: seq<Input<V>>)
    returns (offset': nat, cnt': nat, ghost done': seq<Input<V>>, ghost buffered': seq<Input<V>>)
    requires a.WellFormed() && row < |a.sel| == result.entries.Length
    requires chunk.childSel != chunk.rowSel && chunk.childSel != chunk.index && chunk.rowSel != chunk.index
    requires 0 < chunk.childSel.Length == chunk.rowSel.Length == chunk.index.Length
    requires Progress(a, functor, row, offset, chunk, cnt, result, info, done, buffered)
    requires Flushed(functor, exec, truth, done, result, info)
    modifies chunk.childSel, chunk.rowSel, chunk.index, result, info, exec, result.entries
    ensures Progress(a, functor, row + 1, offset', chunk, cnt', result, info, done', buffered')
    ensures Flushed(functor, exec, truth, done', result, info)
  {
    hide FilterState, Kept, Mapped, Start, Flushed, Laid;
    NextStart(a, row);
    offset' := BeginRow(a, functor, row, offset, result, info, exec, truth, done);
    if !a.IsNull(row) {
      cnt', done', buffered' := StreamRow(a, functor, exec, truth, row, chunk, cnt, result, info, done, buffered);
    } else {
      assert a.RowInputs(row) == [];
      cnt', done', buffered' := cnt, done, buffered;
    }
  }

  lemma NextStart<V>(a: Args<V>, row: nat)
    requires a.WellFormed() && row < |a.sel|
    ensures Start(a.Lengths(row + 1), row + 1) == Start(a.Lengths(row), row) + a.Length(row)
  {
    assert a.Lengths(row + 1) == a.Lengths(row) + [a.Length(row)];
    StartPrefix(a.Lengths(row), [a.Length(row)], row);
  }

  /** The head of the row loop: NULL rows are marked, and the functor is told the row's length. */
  method BeginRow<V>(a: Args<V>, functor: Functor, row: nat, offset: nat, result: ListResult<V>, info: ListFilterInfo,
                     ghost exec: Executor<V>, ghost truth: V -> Option<bool>, ghost done: seq<Input<V>>)
    returns (offset': nat)
    requires a.WellFormed() && row < |a.sel| == result.entries.Length
    requires Flushed(functor, exec, truth, done, result, info)
    requires functor.Filter? ==> info.entryLengths == a.Lengths(row)
    requires functor.Transform? ==> Laid(a, row, result.entries[..]) && offset == Start(a.Lengths(row), row)
    modifies result`nulls, info`entryLengths, if functor.Transform? then {result.entries} else {}
    ensures result.nulls == old(result.nulls) + if a.IsNull(row) then {row} else {}
    ensures Flushed(functor, exec, truth, done, result, info)
    ensures functor.Filter? ==> info.entryLengths == a.Lengths(row + 1)
    ensures functor.Transform? ==> Laid(a, row + 1, result.entries[..]) && offset' == offset + a.Length(row)
  {
    hide FilterState, Start, Kept;
    ghost var keep := KeepIf(exec.lam, truth);
    offset' := offset;
    if a.IsNull(row) {
      result.nulls := result.nulls + {row};
      if functor.Filter? {
        PushLength(info, 0, result.entries, keep, done);
      }
    } else if functor.Filter? {
      PushLength(info, a.entries[a.sel[row]].length, result.entries, keep, done);
    } else {
      result.entries[row] := ListEntry(offset, a.entries[a.sel[row]].length);
      offset' := offset + a.entries[a.sel[row]].length;
    }
    assert a.Lengths(row + 1) == a.Lengths(row) + [a.Length(row)];
  }
}
