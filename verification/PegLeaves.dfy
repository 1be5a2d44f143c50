/** Which tokens the leaf matchers accept, said of the token's characters and of the keyword tables. The PEG
    relation is built on this, and the code's tests are proved equal to it. */
module PegLeaves {
  import opened PegGraph

  // ----- texts up to case -----

  /** Equal, or the capital and the small form of one ASCII letter. */
  predicate SameLetter(a: char, b: char)
  {
    a == b || ('A' <= a <= 'Z' && b as int == a as int + 32) || ('A' <= b <= 'Z' && a as int == b as int + 32)
  }

  predicate SameText(s: string, t: string)
  {
    |s| == |t| && forall k :: 0 <= k < |s| ==> SameLetter(s[k], t[k])
  }

  ghost predicate Listed(words: set<string>, text: string)
  {
    exists w :: w in words && SameText(w, text)
  }

  lemma LowerIsSame(s: string, t: string)
    ensures Lower(s) == Lower(t) <==> SameText(s, t)
  {
    if Lower(s) == Lower(t) {
      assert |Lower(s)| == |Lower(t)|;
      forall k | 0 <= k < |s| ensures SameLetter(s[k], t[k]) {
        assert Lower(s)[k] == Lower(t)[k];
      }
    }
  }

  lemma CategoryIsListed(text: string, words: set<string>)
    ensures InCategory(text, words) <==> Listed(words, text)
  {
    forall w | w in words ensures Lower(w) == Lower(text) <==> SameText(w, text) {
      LowerIsSame(w, text);
    }
  }

  // ----- the shapes of tokens -----

  const PUNCTUATION: set<char> :=
    {'!', '"', '#', '$', '%', '&', '\'', '(', ')', '*', '+', ',', '-', '.', '/', ':', ';', '<', '=', '>', '?', '@',
     '[', '\\', ']', '^', '`', '{', '|', '}', '~'}

  const DIGITS: set<char> := {'0', '1', '2', '3', '4', '5', '6', '7', '8', '9'}

  const OPERATORS: set<char> := {'+', '-', '*', '/', '%', '^', '<', '>', '=', '~', '!', '@', '&', '|'}

  const ARITHMETIC: set<char> := {'*', '/', '+', '-', '%'}

  /** Space, tab, line feed, vertical tab, form feed and carriage return. */
  predicate Blank(ch: char)
  {
    ch as int in {32, 9, 10, 11, 12, 13}
  }

  predicate BeginsName(text: string)
  {
    text != "" && text[0] !in PUNCTUATION && !Blank(text[0])
  }

  /** It begins and ends with the quote; a lone quote does both. */
  predicate Quoted(text: string, quote: char)
  {
    text != "" && text[0] == quote && text[|text| - 1] == quote
  }

  predicate NameShape(kind: NameKind, text: string)
  {
    BeginsName(text) || Quoted(text, '"') || (kind in {TableName, FileName} && Quoted(text, '\''))
  }

  /** A quote, or a letter of a special string and a quote; and another quote at the end. */
  predicate StringShape(text: string)
  {
    (Quoted(text, '\'') && |text| > 1) ||
    (|text| > 2 && text[0] in {'N', 'n', 'X', 'x', 'E', 'e'} && text[1] == '\'' && text[|text| - 1] == '\'')
  }

  predicate ExponentAt(text: string, k: int)
  {
    1 <= k < |text| && text[k] in {'e', 'E'}
  }

  /** A character that may continue a number: a sign may do so only behind an exponent. */
  ghost predicate ContinuesNumber(text: string, k: int)
    requires 0 <= k < |text|
  {
    text[k] in DIGITS + {'.', '_', 'e', 'E'} || (text[k] in {'+', '-'} && exists j :: j < k && ExponentAt(text, j))
  }

  predicate BeginsNumber(text: string)
  {
    text != "" && (text[0] in DIGITS || text[0] == '.')
  }

  ghost predicate NumberShape(text: string)
  {
    BeginsNumber(text) && (forall k :: 1 <= k < |text| ==> ContinuesNumber(text, k)) &&
    forall j, k :: j < k && ExponentAt(text, j) ==> !ExponentAt(text, k)
  }

  /** A second exponent in what was a number so far: the source throws. */
  ghost predicate TwoExponents(text: string)
  {
    BeginsNumber(text) &&
    exists j, k :: j < k && ExponentAt(text, j) && ExponentAt(text, k) &&
                   forall i :: 1 <= i < k ==> ContinuesNumber(text, i)
  }

  // ----- names and keywords -----

  /** Function names may be typeFunc words but no colName words, other names the reverse; being reserved or in
      the wrong table is forgiven a word that is also unreserved or in the right one, except for types. */
  ghost predicate MayName(kw: Keywords, kind: NameKind, text: string)
  {
    match kind
    case TypeName => !Listed(kw.reserved, text) && !Listed(kw.typeFunc, text)
    case ScalarFunctionName | TableFunctionName =>
      Listed(kw.reserved, text) || Listed(kw.colName, text) ==> Listed(kw.unreserved, text) || Listed(kw.typeFunc, text)
    case _ =>
      Listed(kw.reserved, text) || Listed(kw.typeFunc, text) ==> Listed(kw.unreserved, text) || Listed(kw.colName, text)
  }

  ghost predicate Accepts(kw: Keywords, leaf: Leaf, text: string)
  {
    match leaf
    case Keyword(keyword) => SameText(keyword, text)
    case Identifier(kind) => NameShape(kind, text) && MayName(kw, kind, text)
    case ReservedIdentifier(kind) => NameShape(kind, text)
    case StringLiteral => StringShape(text)
    case NumberLiteral => NumberShape(text)
    case Operator => forall ch :: ch in text ==> ch in OPERATORS
    case ArithmeticOperator => forall ch :: ch in text ==> ch in ARITHMETIC
  }

  ghost predicate Throws(leaf: Leaf, text: string)
  {
    leaf.NumberLiteral? && TwoExponents(text)
  }

  // ----- the code's tests -----

  lemma NameCharIs(ch: char)
    ensures IsKeywordChar(ch) <==> ch !in PUNCTUATION && !Blank(ch)
  {
    assert IsPunctuation(ch) <==> ch in PUNCTUATION;
  }

  lemma NameShapeIs(kind: NameKind, text: string)
    ensures IsIdentifierText(kind, text) <==> NameShape(kind, text)
  {
    if text != "" { NameCharIs(text[0]); }
  }

  lemma MayNameIs(kw: Keywords, kind: NameKind, text: string)
    ensures IdentifierAllowed(kw, kind, text) <==> MayName(kw, kind, text)
  {
    hide InCategory, Listed;
    CategoryIsListed(text, kw.reserved);
    CategoryIsListed(text, kw.unreserved);
    CategoryIsListed(text, kw.typeFunc);
    CategoryIsListed(text, kw.colName);
  }

  ghost predicate NumberSoFar(text: string, i: nat)
    requires i <= |text|
  {
    (forall k :: 1 <= k < i ==> ContinuesNumber(text, k)) &&
    forall j, k :: j < k < i && ExponentAt(text, j) ==> !ExponentAt(text, k)
  }

  /** From a place up to which the text is a number, the loop decides whether all of it is. */
  lemma {:induction false} NumberFrom(text: string, i: nat, scientific: bool)
    requires 1 <= i <= |text| && BeginsNumber(text) && NumberSoFar(text, i)
    requires scientific <==> exists j :: j < i && ExponentAt(text, j)
    ensures NumberVerdict(text, i, scientific).Accept? <==> NumberShape(text)
    ensures NumberVerdict(text, i, scientific).Throw? <==> TwoExponents(text)
    decreases |text| - i
  {
    if i < |text| {
      assert ExponentAt(text, i) <==> IsScientific(text[i]);
      if IsScientific(text[i]) && scientific {
        assert TwoExponents(text);
      } else {
        var sci := scientific || IsScientific(text[i]);
        assert ContinuesNumber(text, i) <==> (sci && (text[i] == '+' || text[i] == '-')) || IsNumber(text[i]);
        if ContinuesNumber(text, i) {
          NumberFrom(text, i + 1, sci);
        }
      }
    }
  }

  lemma NumberIs(kw: Keywords, text: string)
    ensures LeafVerdict(kw, NumberLiteral, text).Accept? <==> NumberShape(text)
    ensures LeafVerdict(kw, NumberLiteral, text).Throw? <==> TwoExponents(text)
  {
    if BeginsNumber(text) { NumberFrom(text, 1, false); }
  }

  /** Every leaf accepts exactly the tokens it is for, and throws exactly on a number with two exponents. */
  lemma LeafAccepts(kw: Keywords, leaf: Leaf, text: string)
    ensures LeafVerdict(kw, leaf, text).Accept? <==> Accepts(kw, leaf, text)
    ensures LeafVerdict(kw, leaf, text).Throw? <==> Throws(leaf, text)
  {
    hide NumberShape, TwoExponents, MayName, NameShape, Lower, SameText;
    match leaf
    case Keyword(keyword) => LowerIsSame(keyword, text);
    case Identifier(kind) =>
      NameShapeIs(kind, text);
      MayNameIs(kw, kind, text);
    case ReservedIdentifier(kind) => NameShapeIs(kind, text);
    case StringLiteral =>
    case NumberLiteral => NumberIs(kw, text);
    case Operator =>
      forall k | 0 <= k < |text| ensures text[k] in "+-*/%^<>=~!@&|" <==> text[k] in OPERATORS {
        OperatorIs(text[k]);
      }
    case ArithmeticOperator =>
      forall k | 0 <= k < |text| ensures text[k] in "*/+-%" <==> text[k] in ARITHMETIC {
        OperatorIs(text[k]);
      }
  }

  lemma OperatorIs(ch: char)
    ensures ch in "+-*/%^<>=~!@&|" <==> ch in OPERATORS
    ensures ch in "*/+-%" <==> ch in ARITHMETIC
  {
  }

  // ----- what the tables mean for names -----

  /** A reserved word that no table excuses is no name of any kind, but may be read as a reserved one. */
  lemma ReservedWordIsNoName(kw: Keywords, kind: NameKind, text: string)
    requires Listed(kw.reserved, text) && !Listed(kw.unreserved, text)
    requires !Listed(kw.typeFunc, text) && !Listed(kw.colName, text) && BeginsName(text)
    ensures LeafVerdict(kw, Identifier(kind), text) == Reject
    ensures LeafVerdict(kw, ReservedIdentifier(kind), text) == Accept
  {
    hide Listed;
    LeafAccepts(kw, Identifier(kind), text);
    LeafAccepts(kw, ReservedIdentifier(kind), text);
  }

  /** A word of no table names anything; a quoted text does unless it is itself banned. */
  lemma PlainNamesAreAccepted(kw: Keywords, kind: NameKind, text: string)
    requires BeginsName(text) || Quoted(text, '"')
    requires !Listed(kw.reserved, text) && !Listed(kw.typeFunc, text) && !Listed(kw.colName, text)
    ensures LeafVerdict(kw, Identifier(kind), text) == Accept
    ensures LeafVerdict(kw, ReservedIdentifier(kind), text) == Accept
  {
    hide Listed;
    LeafAccepts(kw, Identifier(kind), text);
    LeafAccepts(kw, ReservedIdentifier(kind), text);
  }

  /** A word of one of the two name tables alone names functions if that is the typeFunc table, and everything
      else if it is the colName table. */
  lemma TablesSeparate(kw: Keywords, kind: NameKind, text: string)
    requires BeginsName(text) && !Listed(kw.reserved, text) && !Listed(kw.unreserved, text)
    requires Listed(kw.colName, text) != Listed(kw.typeFunc, text)
    ensures LeafVerdict(kw, Identifier(kind), text).Accept? <==>
            (kind in {ScalarFunctionName, TableFunctionName} <==> Listed(kw.typeFunc, text))
  {
    hide Listed;
    LeafAccepts(kw, Identifier(kind), text);
  }
}
