/** `StripUnicodeSpaces`: a byte machine with five lexical states that records the Unicode spaces
    outside quotes, dollar quotes and comments, followed by a splice that replaces each by a space. */
module UnicodeSpaces {

  type Byte = b: int | 0 <= b < 256

  const SPACE: Byte := 0x20
  const DOLLAR: Byte := 0x24
  const DASH: Byte := 0x2D

  datatype Span = Span(pos: nat, bytes: nat)

  datatype Mode =
    | Regular
    | InQuotes(quote: Byte)
    | InTag(tag: seq<Byte>)
    | InDollar(tag: seq<Byte>)
    | InComment

  predicate IsQuote(b: Byte)
  {
    b == 0x22 || b == 0x27
  }

  predicate IsNewline(b: Byte)
  {
    b == 0x0A || b == 0x0D
  }

  predicate TagFirst(b: Byte)
  {
    0x41 <= b <= 0x5A || 0x61 <= b <= 0x7A || b == 0x5F || b >= 0x80
  }

  predicate TagNext(b: Byte)
  {
    TagFirst(b) || 0x30 <= b <= 0x39
  }

  /** The length of the Unicode space that s starts with, or 0. */
  function SpaceLen(s: seq<Byte>): (n: nat)
    requires |s| > 2
    ensures n == 0 || n == 2 || n == 3
  {
    if s[0] == 0xC2 then (if s[1] == 0xA0 then 2 else 0)
    else if s[0] == 0xE2 then
      if s[1] == 0x80 then (if 0x80 <= s[2] <= 0x8B || s[2] == 0xAF then 3 else 0)
      else if s[1] == 0x81 then (if s[2] == 0x9F || s[2] == 0xA0 then 3 else 0)
      else 0
    else if s[0] == 0xE3 then (if s[1] == 0x80 && s[2] == 0x80 then 3 else 0)
    else if s[0] == 0xEF then (if s[1] == 0xBB && s[2] == 0xBF then 3 else 0)
    else 0
  }

  /** The closing delimiter of a dollar quote stands at the front of s. */
  predicate Closes(s: seq<Byte>, tag: seq<Byte>)
  {
    |s| > 2 && s[0] == DOLLAR && |s| - 1 >= |tag| + 1 && s[|tag| + 1] == DOLLAR && s[1..|tag| + 1] == tag
  }

  /** One turn of the machine on the bytes left: the bytes passed and the next state, or the end. */
  datatype Turn = End | Turn(skip: nat, mode: Mode)

  function TurnOf(s: seq<Byte>, m: Mode): (t: Turn)
    ensures t.Turn? ==> t.skip <= |s|
  {
    match m
    case Regular =>
      if |s| <= 2 then End
      else if IsQuote(s[0]) then Turn(1, InQuotes(s[0]))
      else if s[0] == DOLLAR && (s[1] == DOLLAR || TagFirst(s[1])) then Turn(1, InTag([]))
      else if s[0] == DASH && s[1] == DASH then Turn(0, InComment)
      else Turn(1, Regular)
    case InQuotes(quote) =>
      if |s| <= 1 then End
      else if s[0] != quote then Turn(1, m)
      else if s[1] == quote then Turn(2, m)
      else Turn(1, Regular)
    case InTag(tag) =>
      if |s| <= 2 then End
      else if s[0] == DOLLAR then Turn(0, InDollar(tag))
      else if !TagNext(s[0]) then Turn(0, Regular)
      else Turn(1, InTag(tag + [s[0]]))
    case InDollar(tag) =>
      if |s| <= 2 then End
      else if Closes(s, tag) then Turn(|tag| + 1, Regular)
      else Turn(1, m)
    case InComment =>
      if |s| == 0 then End
      else if IsNewline(s[0]) then Turn(0, Regular)
      else Turn(1, m)
  }

  /** A turn that passes no byte leads to a state that will pass one. */
  function Rank(s: seq<Byte>, m: Mode): (r: nat)
  {
    match m
    case Regular => 1
    case InTag(_) => 3
    case InComment => if |s| > 0 && IsNewline(s[0]) then 2 else 0
    case _ => 0
  }

  /** The spans recorded from state m on, where s is what is left from byte `pos` on. */
  function Scan(s: seq<Byte>, pos: nat, m: Mode): (spans: seq<Span>)
    decreases |s|, Rank(s, m)
  {
    var t := TurnOf(s, m);
    if t.End? then []
    else
      var rest := Scan(s[t.skip..], pos + t.skip, t.mode);
      if m.Regular? && SpaceLen(s) > 0 then [Span(pos, SpaceLen(s))] + rest else rest
  }

  // ----- the code -----

  method StripUnicodeSpaces(query: seq<Byte>) returns (found: bool, newQuery: seq<Byte>)
    ensures found <==> Scan(query, 0, Regular) != []
    ensures newQuery == if found then Cleaned(query, Regular) else []
  {
    hide Scan, TurnOf, Spliced, Ordered, Cleaned;
    var pos: nat := 0;
    var mode := Regular;
    var spaces: seq<Span> := [];
    var running := true;
    assert query[0..] == query;
    while running
      invariant pos <= |query|
      invariant if running then spaces + Scan(query[pos..], pos, mode) == Scan(query, 0, Regular)
                else spaces == Scan(query, 0, Regular)
      decreases running, |query| - pos, Rank(query[pos..], mode)
    {
      ScanTurn(query, pos, mode);
      if mode.Regular? && pos + 2 < |query| {
        var len := SpaceLen(query[pos..pos + 3]);
        SpaceLenLocal(query[pos..], query[pos..pos + 3]);
        if len > 0 {
          spaces := spaces + [Span(pos, len)];
        }
      }
      running, pos, mode := TakeTurn(query, pos, mode);
    }
    SplicedIsCleaned(query, 0, 0, Regular);
    SpansOrdered(query, 0, Regular);
    found, newQuery := ReplaceUnicodeSpaces(query, spaces);
  }

  /** One pass through the loop of the current state, up to its jump. */
  method TakeTurn(query: seq<Byte>, at: nat, state: Mode) returns (running: bool, pos: nat, mode: Mode)
    requires at <= |query|
    ensures var t := TurnOf(query[at..], state);
            if t.End? then !running && pos == at else running && pos == at + t.skip && mode == t.mode
  {
    running, pos, mode := true, at, state;
    match state {
      case Regular =>
        if pos + 2 >= |query| {
          running := false;
        } else if IsQuote(query[pos]) {
          pos, mode := pos + 1, InQuotes(query[pos]);
        } else if query[pos] == DOLLAR && (query[pos + 1] == DOLLAR || TagFirst(query[pos + 1])) {
          pos, mode := pos + 1, InTag([]);
        } else if query[pos] == DASH && query[pos + 1] == DASH {
          mode := InComment;
        } else {
          pos := pos + 1;
        }
      case InQuotes(quote) =>
        if pos + 1 >= |query| {
          running := false;
        } else if query[pos] != quote {
          pos := pos + 1;
        } else if query[pos + 1] == quote {
          pos := pos + 2;
        } else {
          pos, mode := pos + 1, Regular;
        }
      case InTag(tag) =>
        if pos + 2 >= |query| {
          running := false;
        } else if query[pos] == DOLLAR {
          mode := InDollar(tag);
        } else if !TagNext(query[pos]) {
          mode := Regular;
        } else {
          pos, mode := pos + 1, InTag(tag + [query[pos]]);
        }
      case InDollar(tag) =>
        if pos + 2 >= |query| {
          running := false;
        } else if query[pos] == DOLLAR && |query| - (pos + 1) >= |tag| + 1 && query[pos + |tag| + 1] == DOLLAR &&
                  query[pos + 1..pos + |tag| + 1] == tag {
          assert query[pos..][1..|tag| + 1] == query[pos + 1..pos + |tag| + 1];
          pos, mode := pos + |tag| + 1, Regular;
        } else {
          assert |query| - (pos + 1) >= |tag| + 1 ==> query[pos..][1..|tag| + 1] == query[pos + 1..pos + |tag| + 1];
          pos := pos + 1;
        }
      case InComment =>
        if pos >= |query| {
          running := false;
        } else if IsNewline(query[pos]) {
          mode := Regular;
        } else {
          pos := pos + 1;
        }
    }
  }

  lemma SpaceLenLocal(s: seq<Byte>, front: seq<Byte>)
    requires |s| > 2 && front == s[..3]
    ensures SpaceLen(s) == SpaceLen(front)
  {
  }

  /** What one turn contributes to the scan. */
  lemma ScanTurn(query: seq<Byte>, pos: nat, m: Mode)
    requires pos <= |query|
    ensures var s := query[pos..];
            var t := TurnOf(s, m);
            if t.End? then Scan(s, pos, m) == [] && (m.Regular? ==> |s| <= 2)
            else pos + t.skip <= |query| && query[pos + t.skip..] == s[t.skip..] && (m.Regular? ==> |s| > 2) &&
                 (t.skip > 0 || Rank(query[pos + t.skip..], t.mode) < Rank(s, m)) &&
                 Scan(s, pos, m) == (if m.Regular? && SpaceLen(s) > 0 then [Span(pos, SpaceLen(s))] else [])
                                    + Scan(query[pos + t.skip..], pos + t.skip, t.mode)
  {
    var s := query[pos..];
    var t := TurnOf(s, m);
    if t.Turn? {
      assert query[pos + t.skip..] == s[t.skip..];
    }
  }

  /** The spans, in order, disjoint, each two or three bytes, between lo and n. */
  ghost predicate Ordered(spans: seq<Span>, lo: nat, n: nat)
  {
    spans == [] ||
    (lo <= spans[0].pos && 2 <= spans[0].bytes <= 3 && spans[0].pos + spans[0].bytes <= n &&
     Ordered(spans[1..], spans[0].pos + spans[0].bytes, n))
  }

  /** The query from `prev` on, with each span replaced by one space. */
  ghost function Spliced(query: seq<Byte>, spans: seq<Span>, prev: nat): (r: seq<Byte>)
    requires prev <= |query| && Ordered(spans, prev, |query|)
    decreases |spans|
  {
    if spans == [] then query[prev..]
    else query[prev..spans[0].pos] + [SPACE] + Spliced(query, spans[1..], spans[0].pos + spans[0].bytes)
  }

  method ReplaceUnicodeSpaces(query: seq<Byte>, spaces: seq<Span>) returns (replaced: bool, newQuery: seq<Byte>)
    requires Ordered(spaces, 0, |query|)
    ensures replaced <==> spaces != []
    ensures newQuery == if replaced then Spliced(query, spaces, 0) else []
  {
    if spaces == [] {
      return false, [];
    }
    var prev: nat := 0;
    newQuery := [];
    var k := 0;
    assert spaces[0..] == spaces;
    while k < |spaces|
      invariant 0 <= k <= |spaces| && prev <= |query|
      invariant Ordered(spaces[k..], prev, |query|)
      invariant newQuery + Spliced(query, spaces[k..], prev) == Spliced(query, spaces, 0)
    {
      var usp := spaces[k];
      assert spaces[k..][0] == usp && spaces[k..][1..] == spaces[k + 1..];
      ghost var rest := Spliced(query, spaces[k + 1..], usp.pos + usp.bytes);
      Regroup(newQuery, query[prev..usp.pos], [SPACE], rest);
      newQuery := newQuery + query[prev..usp.pos];
      newQuery := newQuery + [SPACE];
      prev := usp.pos + usp.bytes;
      k := k + 1;
    }
    newQuery := newQuery + query[prev..];
    replaced := true;
  }

  lemma Regroup(a: seq<Byte>, b: seq<Byte>, c: seq<Byte>, d: seq<Byte>)
    ensures a + (b + c + d) == a + b + c + d
  {
  }

  // ----- the cleaned text, defined on its own -----

  /** The text from state m on, every Unicode space met in the regular state turned into a space. */
  function Cleaned(s: seq<Byte>, m: Mode): (r: seq<Byte>)
    ensures |r| <= |s|
    decreases |s|, Rank(s, m)
  {
    var t := TurnOf(s, m);
    if t.End? then s
    else if m.Regular? && SpaceLen(s) > 0 then [SPACE] + Cleaned(s[SpaceLen(s)..], Regular)
    else s[..t.skip] + Cleaned(s[t.skip..], t.mode)
  }

  /** The bytes inside a Unicode space start nothing: passing them one by one is skipping them. */
  lemma SpaceIsSkipped(s: seq<Byte>, pos: nat)
    requires |s| > 2 && SpaceLen(s) > 0
    ensures Scan(s, pos, Regular) == [Span(pos, SpaceLen(s))] + Scan(s[SpaceLen(s)..], pos + SpaceLen(s), Regular)
  {
    var n := SpaceLen(s);
    assert TurnOf(s, Regular) == Turn(1, Regular);
    FirstTurn(s, pos);
    hide Scan, TurnOf;
    PassContinuation(s[1..], pos + 1);
    assert s[1..][1..] == s[2..];
    if n == 3 {
      PassContinuation(s[2..], pos + 2);
      assert s[2..][1..] == s[3..];
    }
  }

  lemma FirstTurn(s: seq<Byte>, pos: nat)
    requires |s| > 2 && SpaceLen(s) > 0 && TurnOf(s, Regular) == Turn(1, Regular)
    ensures Scan(s, pos, Regular) == [Span(pos, SpaceLen(s))] + Scan(s[1..], pos + 1, Regular)
  {
  }

  lemma PassContinuation(s: seq<Byte>, pos: nat)
    requires |s| > 0 && 0x80 <= s[0] <= 0xBF
    ensures Scan(s, pos, Regular) == Scan(s[1..], pos + 1, Regular)
  {
  }

  /** Spans are found in order, disjoint and in bounds, on every byte string. */
  lemma {:induction false} SpansOrdered(query: seq<Byte>, pos: nat, m: Mode)
    requires pos <= |query|
    ensures Ordered(Scan(query[pos..], pos, m), pos, |query|)
    decreases |query| - pos, Rank(query[pos..], m)
  {
    hide Scan, TurnOf, SpaceLen;
    var s := query[pos..];
    var t := TurnOf(s, m);
    ScanTurn(query, pos, m);
    if t.Turn? {
      if m.Regular? && SpaceLen(s) > 0 {
        var n := SpaceLen(s);
        SpaceIsSkipped(s, pos);
        assert s[n..] == query[pos + n..];
        SpansOrdered(query, pos + n, Regular);
        var rest := Scan(s[n..], pos + n, Regular);
        assert ([Span(pos, n)] + rest)[1..] == rest;
      } else {
        assert s[t.skip..] == query[pos + t.skip..];
        SpansOrdered(query, pos + t.skip, t.mode);
        assert Scan(s, pos, m) == Scan(s[t.skip..], pos + t.skip, t.mode);
        OrderedLower(Scan(s[t.skip..], pos + t.skip, t.mode), pos + t.skip, pos, |query|);
      }
    }
  }

  lemma OrderedLower(spans: seq<Span>, lo: nat, lo': nat, n: nat)
    requires Ordered(spans, lo, n) && lo' <= lo
    ensures Ordered(spans, lo', n)
  {
  }

  /** Splicing the recorded spans is cleaning. */
  lemma {:induction false} SplicedIsCleaned(query: seq<Byte>, prev: nat, pos: nat, m: Mode)
    requires prev <= pos <= |query|
    ensures Ordered(Scan(query[pos..], pos, m), prev, |query|)
    ensures Spliced(query, Scan(query[pos..], pos, m), prev) == query[prev..pos] + Cleaned(query[pos..], m)
    decreases |query| - pos, Rank(query[pos..], m)
  {
    hide TurnOf, SpaceLen, Ordered, Scan, Spliced, Cleaned;
    var s := query[pos..];
    var t := TurnOf(s, m);
    SpansOrdered(query, pos, m);
    OrderedLower(Scan(s, pos, m), pos, prev, |query|);
    ScanTurn(query, pos, m);
    CleanedTurn(s, m);
    if t.End? {
      assert query[prev..] == query[prev..pos] + s;
      SplicedNone(query, prev);
    } else if m.Regular? && SpaceLen(s) > 0 {
      var n := SpaceLen(s);
      SpaceIsSkipped(s, pos);
      assert s[n..] == query[pos + n..];
      SplicedIsCleaned(query, pos + n, pos + n, Regular);
      SplicedFirst(query, prev, pos, n, Scan(s[n..], pos + n, Regular));
      JoinSpace(query, prev, pos, pos + n, Cleaned(s[n..], Regular));
    } else {
      SplicedIsCleaned(query, prev, pos + t.skip, t.mode);
      assert Scan(s, pos, m) == Scan(query[pos + t.skip..], pos + t.skip, t.mode);
      JoinPassed(query, prev, pos, t.skip, Cleaned(s[t.skip..], t.mode));
    }
  }

  lemma JoinSpace(query: seq<Byte>, prev: nat, pos: nat, next: nat, rest: seq<Byte>)
    requires prev <= pos <= next <= |query|
    ensures query[prev..pos] + [SPACE] + (query[next..next] + rest) == query[prev..pos] + ([SPACE] + rest)
  {
    assert query[next..next] + rest == rest;
  }

  lemma JoinPassed(query: seq<Byte>, prev: nat, pos: nat, skip: nat, rest: seq<Byte>)
    requires prev <= pos && pos + skip <= |query|
    ensures query[prev..pos + skip] + rest == query[prev..pos] + (query[pos..][..skip] + rest)
  {
    assert query[prev..pos + skip] == query[prev..pos] + query[pos..][..skip];
  }

  lemma SplicedNone(query: seq<Byte>, prev: nat)
    requires prev <= |query|
    ensures Ordered([], prev, |query|) && Spliced(query, [], prev) == query[prev..]
  {
  }

  lemma CleanedTurn(s: seq<Byte>, m: Mode)
    ensures var t := TurnOf(s, m);
            if t.End? then Cleaned(s, m) == s
            else (m.Regular? ==> |s| > 2) && t.skip <= |s| &&
                 Cleaned(s, m) == if m.Regular? && SpaceLen(s) > 0 then [SPACE] + Cleaned(s[SpaceLen(s)..], Regular)
                                  else s[..t.skip] + Cleaned(s[t.skip..], t.mode)
  {
  }

  lemma SplicedFirst(query: seq<Byte>, prev: nat, pos: nat, n: nat, rest: seq<Span>)
    requires prev <= pos && pos + n <= |query| && 2 <= n <= 3 && Ordered(rest, pos + n, |query|)
    ensures Ordered([Span(pos, n)] + rest, prev, |query|)
    ensures Spliced(query, [Span(pos, n)] + rest, prev) == query[prev..pos] + [SPACE] + Spliced(query, rest, pos + n)
  {
    assert ([Span(pos, n)] + rest)[1..] == rest;
  }

  /** The bytes dropped: all but one of each span. */
  ghost function Dropped(spans: seq<Span>): (n: int)
  {
    if spans == [] then 0 else spans[0].bytes - 1 + Dropped(spans[1..])
  }

  lemma {:induction false} SplicedLength(query: seq<Byte>, spans: seq<Span>, prev: nat)
    requires prev <= |query| && Ordered(spans, prev, |query|)
    ensures |Spliced(query, spans, prev)| == |query| - prev - Dropped(spans)
    decreases |spans|
  {
    if spans != [] {
      SplicedLength(query, spans[1..], spans[0].pos + spans[0].bytes);
    }
  }

  /** The text shrinks by exactly the extra bytes of the spans. */
  lemma StripLength(query: seq<Byte>)
    ensures |Cleaned(query, Regular)| == |query| - Dropped(Scan(query, 0, Regular))
  {
    assert query[0..] == query;
    SpansOrdered(query, 0, Regular);
    SplicedIsCleaned(query, 0, 0, Regular);
    SplicedLength(query, Scan(query, 0, Regular), 0);
  }

  // ----- a second run finds nothing -----

  /** The first byte is kept, unless it starts a Unicode space met in the regular state. */
  lemma {:induction false} FirstByte(s: seq<Byte>, m: Mode)
    requires |s| > 0
    ensures |Cleaned(s, m)| > 0
    ensures Cleaned(s, m)[0] == s[0] || (Cleaned(s, m)[0] == SPACE && m.Regular? && s[0] >= 0x80)
    decreases Rank(s, m)
  {
    var t := TurnOf(s, m);
    if t.Turn? && t.skip == 0 {
      FirstByte(s, t.mode);
    }
  }

  /** Inside a dollar quote the next closing delimiter's length is kept unchanged. */
  lemma {:induction false} DollarPrefix(s: seq<Byte>, tag: seq<Byte>, j: nat)
    requires j < |s| && j < |tag| + 1
    ensures j < |Cleaned(s, InDollar(tag))| && Cleaned(s, InDollar(tag))[j] == s[j]
    decreases |s|
  {
    if |s| > 2 && !Closes(s, tag) && j > 0 {
      DollarPrefix(s[1..], tag, j - 1);
    }
  }

  lemma ContinuationIsNoSpace(s: seq<Byte>)
    requires |s| > 2 && 0x80 <= s[0] <= 0xBF
    ensures SpaceLen(s) == 0
  {
  }

  /** A text that differs from one without a Unicode space in front only by a space, or that does not go
      on with a continuation byte, starts with none either. */
  lemma StaysNoSpace(s: seq<Byte>, t: seq<Byte>)
    requires |s| > 2 && |t| > 2 && SpaceLen(s) == 0 && t[0] == s[0]
    requires !(0x80 <= t[1] <= 0xBF) || (t[1] == s[1] && (t[2] == s[2] || t[2] == SPACE))
    ensures SpaceLen(t) == 0
  {
  }

  /** Cleaning leaves no Unicode space where there was none to find. */
  lemma NoNewSpace(s: seq<Byte>)
    requires |s| > 2 && SpaceLen(s) == 0 && s[0] >= 0x80 && |Cleaned(s, Regular)| > 2
    ensures SpaceLen(Cleaned(s, Regular)) == 0
  {
    hide Cleaned, SpaceLen;
    var t, rest := Cleaned(s, Regular), Cleaned(s[1..], Regular);
    CleanedTurn(s, Regular);
    assert t == [s[0]] + rest;
    FirstByte(s[1..], Regular);
    CleanedTurn(s[1..], Regular);
    if |s| == 3 {
      assert t == s;
    } else if 0x80 <= s[1] <= 0xBF {
      ContinuationIsNoSpace(s[1..]);
      FirstByte(s[2..], Regular);
      assert s[1..][1..] == s[2..] && rest == [s[1]] + Cleaned(s[2..], Regular);
      StaysNoSpace(s, t);
    } else {
      StaysNoSpace(s, t);
    }
  }

  ghost predicate GoodMode(m: Mode)
  {
    m.InQuotes? ==> IsQuote(m.quote)
  }

  /** On cleaned text the machine takes the same turns, or ends sooner, and records nothing. */
  lemma {:induction false} NothingLeft(s: seq<Byte>, pos: nat, m: Mode)
    requires GoodMode(m)
    ensures Scan(Cleaned(s, m), pos, m) == []
    decreases |s|, Rank(s, m)
  {
    hide Scan, SpaceLen, TurnOf;
    var t := TurnOf(s, m);
    var c := Cleaned(s, m);
    if t.Turn? { TurnFacts(s, m); }
    if t.End? {
      ScanEnds(s, pos, m);
    } else if m.Regular? && SpaceLen(s) > 0 {
      NothingLeft(s[SpaceLen(s)..], pos + 1, Regular);
      assert c[1..] == Cleaned(s[SpaceLen(s)..], Regular);
      ScanSpace(c, pos);
    } else {
      NothingLeft(s[t.skip..], pos + t.skip, t.mode);
      assert c[t.skip..] == Cleaned(s[t.skip..], t.mode);
      SameTurn(s, m);
      ScanSame(c, pos, m, t);
    }
  }

  lemma TurnFacts(s: seq<Byte>, m: Mode)
    requires GoodMode(m) && TurnOf(s, m).Turn?
    ensures TurnOf(s, m).skip <= |s| && GoodMode(TurnOf(s, m).mode) && (m.Regular? ==> |s| > 2)
    ensures TurnOf(s, m).skip > 0 || Rank(s[TurnOf(s, m).skip..], TurnOf(s, m).mode) < Rank(s, m)
  {
  }

  lemma ScanEnds(s: seq<Byte>, pos: nat, m: Mode)
    requires TurnOf(s, m).End?
    ensures Scan(s, pos, m) == []
  {
  }

  lemma ScanSpace(c: seq<Byte>, pos: nat)
    requires |c| > 0 && c[0] == SPACE && Scan(c[1..], pos + 1, Regular) == []
    ensures Scan(c, pos, Regular) == []
  {
  }

  lemma ScanSame(c: seq<Byte>, pos: nat, m: Mode, t: Turn)
    requires t.Turn? && (TurnOf(c, m).End? || TurnOf(c, m) == t) && (m.Regular? && |c| > 2 ==> SpaceLen(c) == 0)
    requires t.skip <= |c| && Scan(c[t.skip..], pos + t.skip, t.mode) == []
    ensures Scan(c, pos, m) == []
  {
  }

  /** The machine on cleaned text takes the turn it took on the original, unless it ends. */
  lemma SameTurn(s: seq<Byte>, m: Mode)
    requires GoodMode(m) && TurnOf(s, m).Turn? && (m.Regular? ==> SpaceLen(s) == 0)
    ensures TurnOf(Cleaned(s, m), m).End? || TurnOf(Cleaned(s, m), m) == TurnOf(s, m)
    ensures m.Regular? && |Cleaned(s, m)| > 2 ==> SpaceLen(Cleaned(s, m)) == 0
  {
    FirstByte(s, m);
    match m
    case Regular => SameTurnRegular(s);
    case InQuotes(quote) =>
      if s[0] == quote {
        FirstByte(s[1..], TurnOf(s, m).mode);
        if s[1] == quote { assert Cleaned(s, m) == s[..2] + Cleaned(s[2..], m); }
      }
    case InTag(_) =>
    case InDollar(tag) => SameTurnDollar(s, tag);
    case InComment =>
  }

  lemma SameTurnRegular(s: seq<Byte>)
    requires |s| > 2 && SpaceLen(s) == 0
    ensures TurnOf(Cleaned(s, Regular), Regular).End? || TurnOf(Cleaned(s, Regular), Regular) == TurnOf(s, Regular)
    ensures |Cleaned(s, Regular)| > 2 ==> SpaceLen(Cleaned(s, Regular)) == 0
  {
    hide Cleaned, SpaceLen, TurnOf;
    var c := Cleaned(s, Regular);
    SecondByte(s);
    if |c| > 2 {
      SameStart(s, c);
      if s[0] >= 0x80 { NoNewSpace(s); } else { AsciiIsNoSpace(c); }
    } else {
      ShortEnds(c);
    }
  }

  /** The second byte is kept too, unless it starts a Unicode space. */
  lemma SecondByte(s: seq<Byte>)
    requires |s| > 2 && SpaceLen(s) == 0
    ensures var c := Cleaned(s, Regular);
            |c| > 1 && c[0] == s[0] &&
            (c[1] == s[1] || (c[1] == SPACE && s[1] >= 0x80 && TurnOf(s, Regular) == Turn(1, Regular)))
  {
    hide Cleaned, SpaceLen;
    CleanedTurn(s, Regular);
    var t := TurnOf(s, Regular);
    if t.skip == 0 { CleanedTurn(s, InComment); }
    FirstByte(s[1..], t.mode);
  }

  lemma SameStart(s: seq<Byte>, c: seq<Byte>)
    requires |s| > 2 && |c| > 2 && c[0] == s[0]
    requires c[1] == s[1] || (c[1] == SPACE && s[1] >= 0x80 && TurnOf(s, Regular) == Turn(1, Regular))
    ensures TurnOf(c, Regular) == TurnOf(s, Regular)
  {
  }

  lemma AsciiIsNoSpace(c: seq<Byte>)
    requires |c| > 2 && c[0] < 0x80
    ensures SpaceLen(c) == 0
  {
  }

  lemma ShortEnds(c: seq<Byte>)
    requires |c| <= 2
    ensures TurnOf(c, Regular).End?
  {
  }

  lemma SameTurnDollar(s: seq<Byte>, tag: seq<Byte>)
    requires |s| > 2
    ensures TurnOf(Cleaned(s, InDollar(tag)), InDollar(tag)).End?
         || TurnOf(Cleaned(s, InDollar(tag)), InDollar(tag)) == TurnOf(s, InDollar(tag))
  {
    var c, k := Cleaned(s, InDollar(tag)), |tag| + 1;
    if Closes(s, tag) {
      assert c == s[..k] + Cleaned(s[k..], Regular);
      FirstByte(s[k..], Regular);
      assert c[1..k] == s[1..k];
    } else {
      NoEarlyClose(s, tag);
    }
  }

  lemma NoEarlyClose(s: seq<Byte>, tag: seq<Byte>)
    requires |s| > 2 && !Closes(s, tag)
    ensures !Closes(Cleaned(s, InDollar(tag)), tag)
  {
    hide Cleaned;
    var c, rest := Cleaned(s, InDollar(tag)), Cleaned(s[1..], InDollar(tag));
    CleanedTurn(s, InDollar(tag));
    assert c == [s[0]] + rest;
    if |c| > |tag| + 1 {
      forall j | 0 <= j < |tag| + 1 ensures rest[j] == s[1..][j] {
        DollarPrefix(s[1..], tag, j);
      }
      SameDelimiter(s, c, rest, tag);
    }
  }

  lemma SameDelimiter(s: seq<Byte>, c: seq<Byte>, rest: seq<Byte>, tag: seq<Byte>)
    requires |s| >= |c| > |tag| + 1 && c == [s[0]] + rest && !Closes(s, tag) && |s| > 2
    requires forall j :: 0 <= j < |tag| + 1 ==> rest[j] == s[1..][j]
    ensures !Closes(c, tag)
  {
    assert c[1..|tag| + 1] == rest[..|tag|] == s[1..][..|tag|] == s[1..|tag| + 1];
    assert c[|tag| + 1] == rest[|tag|] == s[1..][|tag|] == s[|tag| + 1];
  }

  /** Stripping is idempotent: a second run on the output records no span. */
  lemma StripIdempotent(query: seq<Byte>)
    ensures Scan(Cleaned(query, Regular), 0, Regular) == []
    ensures Cleaned(Cleaned(query, Regular), Regular) == Cleaned(query, Regular)
  {
    var once := Cleaned(query, Regular);
    NothingLeft(query, 0, Regular);
    assert once[0..] == once;
    SplicedIsCleaned(once, 0, 0, Regular);
  }
}
