/** What `StripUnicodeSpaces` does, said of the text alone: a text falls into quotes, dollar quotes, comments,
    Unicode spaces and other bytes, and only the spaces are touched. */
module UnicodePieces {
  import opened UnicodeSpaces

  // ----- the spaces -----

  predicate IsSpacePoint(code: nat)
  {
    code == 0x00A0 || 0x2000 <= code <= 0x200B || code in {0x202F, 0x205F, 0x2060, 0x3000, 0xFEFF}
  }

  /** The UTF-8 form of a code point of two or three bytes. */
  function Utf8(code: nat): (r: seq<Byte>)
    requires 0x80 <= code < 0x10000
  {
    if code < 0x800 then [0xC0 + code / 64, 0x80 + code % 64]
    else [0xE0 + code / 4096, 0x80 + code / 64 % 64, 0x80 + code % 64]
  }

  /** The text begins with a Unicode space of n bytes; two bytes must follow its first. */
  ghost predicate Blank(s: seq<Byte>, n: nat)
  {
    |s| > 2 && exists code :: IsSpacePoint(code) && Utf8(code) <= s && n == |Utf8(code)|
  }

  // ----- quotes, comments and dollar quotes -----

  /** Every quote in the text is doubled. */
  predicate Doubled(s: seq<Byte>, quote: Byte)
  {
    s == [] || (s[0] != quote && Doubled(s[1..], quote)) ||
    (|s| > 1 && s[0] == s[1] == quote && Doubled(s[2..], quote))
  }

  /** The first n bytes are a quoted text: up to the first quote that is not doubled, or all of it. */
  ghost predicate Quoted(s: seq<Byte>, n: nat)
  {
    0 < n <= |s| && (s[0] == 0x22 || s[0] == 0x27) &&
    if n > 1 && Doubled(s[1..n - 1], s[0]) && s[n - 1] == s[0] then n == |s| || s[n] != s[0]
    else n == |s| && Doubled(s[1..], s[0])
  }

  predicate LineEnd(b: Byte)
  {
    b == 0x0A || b == 0x0D
  }

  /** The first n bytes are a comment: two dashes, up to the end of the line. */
  ghost predicate Comment(s: seq<Byte>, n: nat)
  {
    2 <= n <= |s| && s[0] == s[1] == 0x2D && (forall k :: 0 <= k < n ==> !LineEnd(s[k])) &&
    (n == |s| || LineEnd(s[n]))
  }

  /** Letters, underscores and bytes above ASCII; digits may follow them. */
  predicate TagByte(b: Byte, first: bool)
  {
    0x41 <= b <= 0x5A || 0x61 <= b <= 0x7A || b == 0x5F || b >= 0x80 || (!first && 0x30 <= b <= 0x39)
  }

  /** A dollar sign and the longest run of tag bytes behind it, t bytes in all. */
  ghost predicate Tag(s: seq<Byte>, t: nat)
  {
    1 <= t <= |s| && |s| > 2 && s[0] == 0x24 && (s[1] == 0x24 || TagByte(s[1], true)) &&
    (forall k :: 1 <= k < t ==> TagByte(s[k], false)) && (t == |s| || !TagByte(s[t], false))
  }

  /** The delimiter `$tag$` stands at byte k of s. */
  ghost predicate Delimiter(s: seq<Byte>, k: nat, tag: seq<Byte>)
  {
    k + |tag| + 2 <= |s| && s[k] == 0x24 && s[k + 1..k + 1 + |tag|] == tag && s[k + 1 + |tag|] == 0x24
  }

  /** The first n bytes are what a dollar sign opens: the run of tag bytes alone if no dollar sign ends it,
      else everything up to the last byte of the next delimiter - which may begin with the dollar sign that
      ends the tag, and whose last dollar sign is read again - or all of the text. */
  ghost predicate Dollar(s: seq<Byte>, n: nat)
  {
    exists t: nat :: Tag(s, t) && DollarFrom(s, t, n)
  }

  ghost predicate DollarFrom(s: seq<Byte>, t: nat, n: nat)
    requires 1 <= t <= |s|
  {
    if t == |s| || s[t] != 0x24 then n == t
    else
      n <= |s| && t <= n && var tag := s[1..t];
      if n > t + |tag| && Delimiter(s, n - |tag| - 1, tag)
      then forall k :: t <= k < n - |tag| - 1 ==> !Delimiter(s, k, tag)
      else n == |s| && forall k :: t <= k < |s| ==> !Delimiter(s, k, tag)
  }

  /** Anything else: one byte. */
  ghost predicate Other(s: seq<Byte>, n: nat)
  {
    n == 1 <= |s| && s[0] != 0x22 && s[0] != 0x27 &&
    !(|s| > 1 && s[0] == s[1] == 0x2D) && !(|s| > 2 && s[0] == 0x24 && (s[1] == 0x24 || TagByte(s[1], true))) &&
    !Blank(s, 2) && !Blank(s, 3)
  }

  /** The first n bytes of a text read from its regular state, and what is not a space. */
  ghost predicate Piece(s: seq<Byte>, n: nat)
  {
    Quoted(s, n) || Comment(s, n) || Dollar(s, n) || Other(s, n)
  }

  lemma SpaceIs(s: seq<Byte>)
    requires |s| > 2
    ensures SpaceLen(s) > 0 ==> Blank(s, SpaceLen(s))
    ensures forall n :: Blank(s, n) ==> n == SpaceLen(s)
  {
    var n := SpaceLen(s);
    if n == 2 {
      assert Utf8(0xA0) == [0xC2, 0xA0] == s[..2];
      assert Utf8(0xA0) <= s && IsSpacePoint(0xA0);
    } else if n == 3 {
      var a: int, b: int, c: int := s[0], s[1], s[2];
      var code: nat := (a - 0xE0) * 4096 + (b - 0x80) * 64 + c - 0x80;
      assert Utf8(code) == s[..3];
      assert Utf8(code) <= s && IsSpacePoint(code);
    }
    forall m | Blank(s, m) ensures m == SpaceLen(s) {
      var code: nat :| IsSpacePoint(code) && Utf8(code) <= s && m == |Utf8(code)|;
      assert forall k :: 0 <= k < m ==> s[k] == Utf8(code)[k];
      SpacePointBytes(code);
    }
  }

  lemma SpacePointBytes(code: nat)
    requires IsSpacePoint(code)
    ensures code == 0xA0 ==> Utf8(code) == [0xC2, 0xA0]
    ensures 0x2000 <= code <= 0x200B ==> Utf8(code) == [0xE2, 0x80, 0x80 + code - 0x2000]
    ensures code == 0x202F ==> Utf8(code) == [0xE2, 0x80, 0xAF]
    ensures code == 0x205F ==> Utf8(code) == [0xE2, 0x81, 0x9F]
    ensures code == 0x2060 ==> Utf8(code) == [0xE2, 0x81, 0xA0]
    ensures code == 0x3000 ==> Utf8(code) == [0xE3, 0x80, 0x80]
    ensures code == 0xFEFF ==> Utf8(code) == [0xEF, 0xBB, 0xBF]
  {
  }

  // ----- passing over text -----

  /** From state m the first n bytes are kept and hold no span, and the machine goes on in state m'. */
  ghost predicate Passes(s: seq<Byte>, pos: nat, m: Mode, n: nat, m': Mode)
  {
    n <= |s| && Scan(s, pos, m) == Scan(s[n..], pos + n, m') && Cleaned(s, m) == s[..n] + Cleaned(s[n..], m')
  }

  lemma PassesMore(s: seq<Byte>, pos: nat, m: Mode, n: nat, m': Mode, k: nat, m'': Mode)
    requires Passes(s, pos, m, n, m') && Passes(s[n..], pos + n, m', k, m'')
    ensures Passes(s, pos, m, n + k, m'')
  {
    hide Scan, Cleaned;
    var rest := Cleaned(s[n + k..], m'');
    assert s[n..][k..] == s[n + k..];
    assert s[..n] + (s[n..][..k] + rest) == s[..n + k] + rest;
  }

  lemma PassesTurn(s: seq<Byte>, pos: nat, m: Mode, n: nat, m': Mode)
    requires TurnOf(s, m) == Turn(n, m') && (m.Regular? && |s| > 2 ==> SpaceLen(s) == 0)
    ensures Passes(s, pos, m, n, m')
  {
  }

  /** Where the machine ends, it makes no difference where it ends. */
  lemma PassesEnd(s: seq<Byte>, pos: nat, m: Mode, n: nat, m': Mode)
    requires n <= |s| && TurnOf(s, m).End? && TurnOf(s[n..], m').End?
    ensures Passes(s, pos, m, n, m')
  {
    assert s == s[..n] + s[n..];
  }

  lemma {:induction false} QuotePasses(s: seq<Byte>, pos: nat, quote: Byte, n: nat)
    requires n <= |s|
    requires if n > 0 && s[n - 1] == quote && Doubled(s[..n - 1], quote) then n == |s| || s[n] != quote
             else n == |s| && Doubled(s, quote)
    ensures Passes(s, pos, InQuotes(quote), n, Regular)
    decreases |s|
  {
    hide Scan, Cleaned;
    var m := InQuotes(quote);
    if |s| <= 1 {
      PassesEnd(s, pos, m, n, Regular);
    } else if s[0] == quote && n == 1 {
      PassesTurn(s, pos, m, 1, Regular);
    } else {
      var k := if s[0] == quote then 2 else 1;
      if s[n - 1] == quote && Doubled(s[..n - 1], quote) {
        assert s[..n - 1][k..] == s[k..][..n - 1 - k];
      }
      PassesTurn(s, pos, m, k, m);
      QuotePasses(s[k..], pos + k, quote, n - k);
      PassesMore(s, pos, m, k, m, n - k, Regular);
    }
  }

  lemma {:induction false} CommentPasses(s: seq<Byte>, pos: nat, n: nat)
    requires n <= |s| && (forall k :: 0 <= k < n ==> !LineEnd(s[k])) && (n == |s| || LineEnd(s[n]))
    ensures Passes(s, pos, InComment, n, Regular)
    decreases |s|
  {
    hide Scan, Cleaned;
    if |s| == 0 {
      PassesEnd(s, pos, InComment, n, Regular);
    } else if n == 0 {
      PassesTurn(s, pos, InComment, 0, Regular);
    } else {
      PassesTurn(s, pos, InComment, 1, InComment);
      CommentPasses(s[1..], pos + 1, n - 1);
      PassesMore(s, pos, InComment, 1, InComment, n - 1, Regular);
    }
  }

  /** Inside a dollar quote, up to the last byte of the next delimiter. */
  lemma {:induction false} DollarPasses(s: seq<Byte>, pos: nat, tag: seq<Byte>, k: nat)
    requires k <= |s| && (forall j :: 0 <= j < k ==> !Delimiter(s, j, tag)) && (k == |s| || Delimiter(s, k, tag))
    ensures Passes(s, pos, InDollar(tag), if k == |s| then k else k + |tag| + 1, Regular)
    decreases |s|
  {
    hide Scan, Cleaned, Delimiter, Closes, Passes;
    var m, n := InDollar(tag), if k == |s| then k else k + |tag| + 1;
    DelimiterFits(s, k, tag);
    DelimiterCloses(s, tag);
    if |s| <= 2 {
      PassesEnd(s, pos, m, n, Regular);
    } else if k == 0 {
      PassesTurn(s, pos, m, |tag| + 1, Regular);
    } else {
      PassesTurn(s, pos, m, 1, m);
      forall j | 0 <= j <= k - 1 ensures Delimiter(s[1..], j, tag) <==> Delimiter(s, j + 1, tag) {
        DelimiterBehind(s, j, tag);
      }
      DollarPasses(s[1..], pos + 1, tag, k - 1);
      PassesMore(s, pos, m, 1, m, n - 1, Regular);
    }
  }

  lemma DelimiterCloses(s: seq<Byte>, tag: seq<Byte>)
    ensures |s| > 2 ==> (Closes(s, tag) <==> Delimiter(s, 0, tag))
  {
  }

  lemma DelimiterFits(s: seq<Byte>, k: nat, tag: seq<Byte>)
    ensures Delimiter(s, k, tag) ==> k + |tag| + 2 <= |s|
  {
  }

  lemma DelimiterBehind(s: seq<Byte>, j: nat, tag: seq<Byte>)
    requires |s| > 0
    ensures Delimiter(s[1..], j, tag) <==> Delimiter(s, j + 1, tag)
  {
    if j + 1 + |tag| + 2 <= |s| {
      assert s[1..][j + 1..j + 1 + |tag|] == s[j + 2..j + 2 + |tag|];
    }
  }

  /** Behind a dollar sign and some tag bytes: the run of tag bytes is passed, into the dollar quote if a
      dollar sign ends it. */
  lemma {:induction false} TagPasses(s: seq<Byte>, pos: nat, tag: seq<Byte>, t: nat)
    requires t <= |s| && (forall k :: 0 <= k < t ==> TagByte(s[k], false)) && (t == |s| || !TagByte(s[t], false))
    ensures t < |s| && s[t] == 0x24 ==> |s| - t <= 2 || Passes(s, pos, InTag(tag), t, InDollar(tag + s[..t]))
    ensures t == |s| || s[t] != 0x24 || |s| - t <= 2 ==> Passes(s, pos, InTag(tag), t, Regular)
    decreases |s|
  {
    hide Scan, Cleaned;
    if |s| <= 2 {
      PassesEnd(s, pos, InTag(tag), t, Regular);
    } else if t == 0 {
      assert tag + s[..0] == tag;
      if s[0] == 0x24 {
        PassesTurn(s, pos, InTag(tag), 0, InDollar(tag));
      } else {
        PassesTurn(s, pos, InTag(tag), 0, Regular);
      }
    } else {
      var more := tag + [s[0]];
      PassesTurn(s, pos, InTag(tag), 1, InTag(more));
      TagPasses(s[1..], pos + 1, more, t - 1);
      assert more + s[1..][..t - 1] == tag + s[..t];
      if t < |s| && s[t] == 0x24 && |s| - t > 2 {
        PassesMore(s, pos, InTag(tag), 1, InTag(more), t - 1, InDollar(tag + s[..t]));
      } else {
        PassesMore(s, pos, InTag(tag), 1, InTag(more), t - 1, Regular);
      }
    }
  }

  // ----- main results -----

  /** A Unicode space becomes one space, and is recorded. */
  lemma SpaceIsReplaced(s: seq<Byte>, pos: nat, n: nat)
    requires Blank(s, n)
    ensures n <= |s| && Scan(s, pos, Regular) == [Span(pos, n)] + Scan(s[n..], pos + n, Regular)
    ensures Cleaned(s, Regular) == [0x20] + Cleaned(s[n..], Regular)
  {
    hide Scan;
    SpaceIs(s);
    SpaceIsSkipped(s, pos);
    CleanedTurn(s, Regular);
    assert |s| > 2 && TurnOf(s, Regular).Turn?;
  }

  /** Every other piece is kept as it is and holds no span: quoted text up to its closing quote, a comment up
      to the end of the line, what a dollar sign opens, and single bytes. */
  lemma PieceIsKept(s: seq<Byte>, pos: nat, n: nat)
    requires Piece(s, n)
    ensures n <= |s| && Scan(s, pos, Regular) == Scan(s[n..], pos + n, Regular)
    ensures Cleaned(s, Regular) == s[..n] + Cleaned(s[n..], Regular)
  {
    hide Scan, Cleaned, SpaceLen, Quoted, Comment, Dollar, Other, TurnOf;
    PieceFits(s, n);
    if |s| <= 2 {
      ShortEnds(s);
      ShortEnds(s[n..]);
      PassesEnd(s, pos, Regular, n, Regular);
    } else if Quoted(s, n) {
      QuotedIsKept(s, pos, n);
    } else if Comment(s, n) {
      CommentIsKept(s, pos, n);
    } else if Dollar(s, n) {
      DollarIsKept(s, pos, n);
    } else {
      OtherIsKept(s, pos, n);
    }
  }

  lemma QuotedIsKept(s: seq<Byte>, pos: nat, n: nat)
    requires Quoted(s, n) && |s| > 2
    ensures Passes(s, pos, Regular, n, Regular)
  {
    hide Scan, Cleaned, SpaceLen, Passes, Doubled;
    OpeningIsNoSpace(s);
    PassesTurn(s, pos, Regular, 1, InQuotes(s[0]));
    assert n > 1 ==> s[1..n - 1] == s[1..][..n - 2];
    QuotePasses(s[1..], pos + 1, s[0], n - 1);
    PassesMore(s, pos, Regular, 1, InQuotes(s[0]), n - 1, Regular);
  }

  lemma CommentIsKept(s: seq<Byte>, pos: nat, n: nat)
    requires Comment(s, n) && |s| > 2
    ensures Passes(s, pos, Regular, n, Regular)
  {
    hide Scan, Cleaned, SpaceLen, Passes;
    OpeningIsNoSpace(s);
    PassesTurn(s, pos, Regular, 0, InComment);
    CommentPasses(s, pos, n);
    assert s[0..] == s;
    PassesMore(s, pos, Regular, 0, InComment, n, Regular);
  }

  lemma OtherIsKept(s: seq<Byte>, pos: nat, n: nat)
    requires Other(s, n) && |s| > 2
    ensures Passes(s, pos, Regular, n, Regular)
  {
    hide Scan, Cleaned, SpaceLen, Passes, Blank;
    SpaceIs(s);
    SpaceLengths(s);
    PassesTurn(s, pos, Regular, 1, Regular);
  }

  lemma SpaceLengths(s: seq<Byte>)
    requires |s| > 2
    ensures SpaceLen(s) in {0, 2, 3}
  {
  }

  lemma PieceFits(s: seq<Byte>, n: nat)
    requires Piece(s, n)
    ensures n <= |s|
  {
  }

  lemma OpeningIsNoSpace(s: seq<Byte>)
    requires |s| > 2 && s[0] < 0x80
    ensures SpaceLen(s) == 0
  {
  }

  lemma DollarIsKept(s: seq<Byte>, pos: nat, n: nat)
    requires Dollar(s, n)
    ensures Passes(s, pos, Regular, n, Regular)
  {
    hide Scan, Cleaned, SpaceLen, Passes, Delimiter;
    var t: nat :| Tag(s, t) && DollarFrom(s, t, n);
    var x, tag := s[t..], s[1..t];
    OpeningIsNoSpace(s);
    PassesTurn(s, pos, Regular, 1, InTag([]));
    TagPasses(s[1..], pos + 1, [], t - 1);
    assert [] + s[1..][..t - 1] == tag;
    if t == |s| || s[t] != 0x24 {
      PassesMore(s, pos, Regular, 1, InTag([]), t - 1, Regular);
    } else if |s| - t <= 2 {
      PassesMore(s, pos, Regular, 1, InTag([]), t - 1, Regular);
      PassesEnd(x, pos + t, Regular, n - t, Regular);
      PassesMore(s, pos, Regular, t, Regular, n - t, Regular);
    } else {
      PassesMore(s, pos, Regular, 1, InTag([]), t - 1, InDollar(tag));
      DollarCloses(s, pos, t, n);
      PassesMore(s, pos, Regular, t, InDollar(tag), n - t, Regular);
    }
  }

  lemma DollarCloses(s: seq<Byte>, pos: nat, t: nat, n: nat)
    requires Tag(s, t) && t < |s| && s[t] == 0x24 && DollarFrom(s, t, n)
    ensures Passes(s[t..], pos + t, InDollar(s[1..t]), n - t, Regular)
  {
    hide Passes, Delimiter;
    var x, tag := s[t..], s[1..t];
    var closed := n > t + |tag| && Delimiter(s, n - |tag| - 1, tag);
    var k := if closed then n - |tag| - 1 - t else |x|;
    forall j | 0 <= j <= k ensures Delimiter(x, j, tag) <==> Delimiter(s, t + j, tag) {
      DelimiterInside(s, t, j, tag);
    }
    if closed { DelimiterFits(s, t + k, tag); }
    DollarPasses(x, pos + t, tag, k);
  }

  lemma DelimiterInside(s: seq<Byte>, t: nat, j: nat, tag: seq<Byte>)
    requires t <= |s|
    ensures Delimiter(s[t..], j, tag) <==> Delimiter(s, t + j, tag)
  {
    if t + j + |tag| + 2 <= |s| {
      assert s[t..][j + 1..j + 1 + |tag|] == s[t + j + 1..t + j + 1 + |tag|];
    }
  }

  // ----- every text falls into pieces -----

  lemma {:induction false} QuoteEnd(s: seq<Byte>, quote: Byte) returns (n: nat)
    ensures n <= |s|
    ensures if n > 0 && Doubled(s[..n - 1], quote) && s[n - 1] == quote then n == |s| || s[n] != quote
            else n == |s| && Doubled(s, quote)
    decreases |s|
  {
    if s == [] {
      n := 0;
    } else if s[0] == quote && (|s| == 1 || s[1] != quote) {
      n := 1;
    } else {
      var k := if s[0] == quote then 2 else 1;
      n := QuoteEnd(s[k..], quote);
      var closed := n > 0 && Doubled(s[k..][..n - 1], quote) && s[k..][n - 1] == quote;
      n := n + k;
      if n > k { assert s[..n - 1][k..] == s[k..][..n - 1 - k]; }
      if !closed { NotClosed(s, quote); }
    }
  }

  /** In a text whose quotes are all doubled no quote ends it. */
  lemma {:induction false} NotClosed(s: seq<Byte>, quote: Byte)
    requires Doubled(s, quote)
    ensures !(|s| > 0 && Doubled(s[..|s| - 1], quote) && s[|s| - 1] == quote)
    decreases |s|
  {
    if |s| > 1 {
      var k := if s[0] == quote then 2 else 1;
      NotClosed(s[k..], quote);
      if |s| > k { assert s[..|s| - 1][k..] == s[k..][..|s| - 1 - k]; }
    }
  }

  lemma {:induction false} LineEndsAt(s: seq<Byte>, from: nat) returns (n: nat)
    requires from <= |s| && forall k :: 0 <= k < from ==> !LineEnd(s[k])
    ensures from <= n <= |s| && (forall k :: 0 <= k < n ==> !LineEnd(s[k])) && (n == |s| || LineEnd(s[n]))
    decreases |s| - from
  {
    n := from;
    if from < |s| && !LineEnd(s[from]) { n := LineEndsAt(s, from + 1); }
  }

  lemma {:induction false} TagEnd(s: seq<Byte>, from: nat) returns (t: nat)
    requires 1 <= from <= |s| && forall k :: 1 <= k < from ==> TagByte(s[k], false)
    ensures from <= t <= |s| && (forall k :: 1 <= k < t ==> TagByte(s[k], false))
    ensures t == |s| || !TagByte(s[t], false)
    decreases |s| - from
  {
    t := from;
    if from < |s| && TagByte(s[from], false) { t := TagEnd(s, from + 1); }
  }

  lemma {:induction false} DelimiterAt(s: seq<Byte>, from: nat, at: nat, tag: seq<Byte>) returns (k: nat)
    requires from <= at <= |s| && forall j :: from <= j < at ==> !Delimiter(s, j, tag)
    ensures at <= k <= |s| && (forall j :: from <= j < k ==> !Delimiter(s, j, tag)) &&
            (k == |s| || Delimiter(s, k, tag))
    decreases |s| - at
  {
    k := at;
    if at < |s| && !Delimiter(s, at, tag) { k := DelimiterAt(s, from, at + 1, tag); }
  }

  lemma DollarEnd(s: seq<Byte>) returns (n: nat)
    requires |s| > 2 && s[0] == 0x24 && (s[1] == 0x24 || TagByte(s[1], true))
    ensures 0 < n <= |s| && Dollar(s, n)
  {
    hide Delimiter;
    var t := TagEnd(s, 1);
    assert Tag(s, t);
    if t == |s| || s[t] != 0x24 {
      n := t;
    } else {
      var tag := s[1..t];
      var k := DelimiterAt(s, t, t, tag);
      DelimiterFits(s, k, tag);
      n := if k == |s| then k else k + |tag| + 1;
      assert k < |s| ==> n - |tag| - 1 == k;
    }
    assert DollarFrom(s, t, n);
  }

  /** No text is left over: every text begins with a space or with another piece. */
  lemma PieceExists(s: seq<Byte>) returns (n: nat)
    requires s != []
    ensures 0 < n <= |s| && (Blank(s, n) || Piece(s, n))
  {
    hide Dollar, Blank, Doubled;
    if |s| > 2 { SpaceIs(s); }
    if |s| > 2 && SpaceLen(s) > 0 {
      n := SpaceLen(s);
    } else if s[0] == 0x22 || s[0] == 0x27 {
      n := QuoteEnd(s[1..], s[0]);
      n := n + 1;
      assert n > 1 ==> s[1..n - 1] == s[1..][..n - 2];
    } else if |s| > 1 && s[0] == s[1] == 0x2D {
      n := LineEndsAt(s, 2);
    } else if |s| > 2 && s[0] == 0x24 && (s[1] == 0x24 || TagByte(s[1], true)) {
      n := DollarEnd(s);
    } else {
      n := 1;
      ShortIsNotBlank(s);
    }
  }

  lemma ShortIsNotBlank(s: seq<Byte>)
    ensures |s| <= 2 ==> forall n :: !Blank(s, n)
  {
  }

  // ----- the whole text -----

  /** The text is cut into spaces and other pieces of these lengths. */
  ghost predicate Cut(s: seq<Byte>, ns: seq<nat>)
    decreases |ns|
  {
    if ns == [] then s == []
    else 0 < ns[0] <= |s| && (Blank(s, ns[0]) || Piece(s, ns[0])) && Cut(s[ns[0]..], ns[1..])
  }

  /** Where the spaces are. */
  ghost function SpacesOf(s: seq<Byte>, ns: seq<nat>, pos: nat): seq<Span>
    requires Cut(s, ns)
    decreases |ns|
  {
    if ns == [] then []
    else (if Blank(s, ns[0]) then [Span(pos, ns[0])] else []) + SpacesOf(s[ns[0]..], ns[1..], pos + ns[0])
  }

  /** The pieces put together again, with one space for each Unicode space. */
  ghost function Respaced(s: seq<Byte>, ns: seq<nat>): seq<Byte>
    requires Cut(s, ns)
    decreases |ns|
  {
    if ns == [] then []
    else (if Blank(s, ns[0]) then [0x20] else s[..ns[0]]) + Respaced(s[ns[0]..], ns[1..])
  }

  lemma {:induction false} CutExists(s: seq<Byte>) returns (ns: seq<nat>)
    ensures Cut(s, ns)
    decreases |s|
  {
    hide Blank, Piece;
    ns := [];
    if s != [] {
      var n := PieceExists(s);
      ns := CutExists(s[n..]);
      ns := [n] + ns;
    }
  }

  /** For every text, however it is cut: the machine records exactly the spaces between the other pieces, and
      the cleaned text is the pieces with one space for each of those. */
  lemma {:induction false} StripsSpaces(s: seq<Byte>, ns: seq<nat>, pos: nat)
    requires Cut(s, ns)
    ensures Scan(s, pos, Regular) == SpacesOf(s, ns, pos) && Cleaned(s, Regular) == Respaced(s, ns)
    decreases |ns|
  {
    hide Scan, Cleaned, Blank, Piece;
    if ns == [] {
      NothingToRead(pos);
    } else {
      var n := ns[0];
      StripsSpaces(s[n..], ns[1..], pos + n);
      if Blank(s, n) {
        SpaceIsReplaced(s, pos, n);
      } else {
        PieceIsKept(s, pos, n);
      }
    }
  }

  lemma NothingToRead(pos: nat)
    ensures Scan([], pos, Regular) == [] && Cleaned([], Regular) == []
  {
  }

  /** The span is a Unicode space of the text s, which stands at byte `pos`. */
  ghost predicate Occurs(s: seq<Byte>, pos: nat, span: Span)
  {
    pos <= span.pos <= pos + |s| && Blank(s[span.pos - pos..], span.bytes)
  }

  lemma OccursBehind(s: seq<Byte>, pos: nat, n: nat, span: Span)
    requires n <= |s| && span.pos >= pos + n
    ensures Occurs(s, pos, span) <==> Occurs(s[n..], pos + n, span)
  {
    if span.pos <= pos + |s| { assert s[n..][span.pos - pos - n..] == s[span.pos - pos..]; }
  }

  lemma OccursHere(s: seq<Byte>, pos: nat, span: Span)
    requires |s| > 2
    ensures span.pos == pos ==> (Occurs(s, pos, span) <==> SpaceLen(s) > 0 && span.bytes == SpaceLen(s))
    ensures pos < span.pos < pos + SpaceLen(s) ==> !Occurs(s, pos, span)
  {
    hide Blank, SpaceLen;
    SpaceIs(s);
    if span.pos == pos {
      assert s[0..] == s;
      BlankIsLong(s, span.bytes);
    }
    if pos < span.pos < pos + SpaceLen(s) { InsideSpace(s, span.pos - pos); }
  }

  /** In a text without quotes, dollar signs and double dashes the spans are exactly the occurrences of the
      listed code points whose first byte has two bytes after it. */
  lemma {:induction false} SpansAreOccurrences(s: seq<Byte>, pos: nat, span: Span)
    requires forall k :: 0 <= k < |s| ==> s[k] != 0x22 && s[k] != 0x27 && s[k] != 0x24
    requires forall k :: 0 <= k < |s| - 1 ==> !(s[k] == s[k + 1] == 0x2D)
    ensures span in Scan(s, pos, Regular) <==> Occurs(s, pos, span)
    decreases |s|
  {
    hide Scan, Occurs, SpaceLen;
    if |s| <= 2 {
      ScanEnds(s, pos, Regular);
      ShortOccurs(s, pos, span);
    } else {
      var n := if SpaceLen(s) > 0 then SpaceLen(s) else 1;
      PlainStep(s, pos);
      assert forall k :: 0 <= k < |s| - n ==> s[n..][k] == s[n + k];
      SpansAreOccurrences(s[n..], pos + n, span);
      OccursHere(s, pos, span);
      OccursLater(s, pos, span);
      OccursLater(s[n..], pos + n, span);
      if span.pos >= pos + n { OccursBehind(s, pos, n, span); }
    }
  }

  lemma OccursLater(s: seq<Byte>, pos: nat, span: Span)
    ensures Occurs(s, pos, span) ==> pos <= span.pos
  {
  }

  lemma ShortOccurs(s: seq<Byte>, pos: nat, span: Span)
    ensures |s| <= 2 ==> !Occurs(s, pos, span)
  {
    if |s| <= 2 && pos <= span.pos <= pos + |s| { ShortIsNotBlank(s[span.pos - pos..]); }
  }

  lemma PlainStep(s: seq<Byte>, pos: nat)
    requires |s| > 2 && s[0] != 0x22 && s[0] != 0x27 && s[0] != 0x24 && !(s[0] == s[1] == 0x2D)
    ensures SpaceLen(s) <= |s|
    ensures Scan(s, pos, Regular) ==
            if SpaceLen(s) > 0 then [Span(pos, SpaceLen(s))] + Scan(s[SpaceLen(s)..], pos + SpaceLen(s), Regular)
            else Scan(s[1..], pos + 1, Regular)
  {
    hide Scan, Blank, SpaceLen;
    SpaceIs(s);
    if SpaceLen(s) > 0 { SpaceIsReplaced(s, pos, SpaceLen(s)); } else { PieceIsKept(s, pos, 1); }
  }

  /** A byte behind the first of a Unicode space begins none. */
  lemma InsideSpace(s: seq<Byte>, k: nat)
    requires |s| > 2 && 0 < k < SpaceLen(s)
    ensures forall n :: !Blank(s[k..], n)
  {
    if |s| - k > 2 {
      SpaceIs(s[k..]);
      ContinuationIsNoSpace(s[k..]);
      forall n ensures !Blank(s[k..], n) { if Blank(s[k..], n) { BlankIsLong(s[k..], n); } }
    }
  }

  lemma BlankIsLong(s: seq<Byte>, n: nat)
    ensures Blank(s, n) ==> n >= 2
  {
  }
}
