/** The matcher graph of the autocomplete PEG engine: tokens, leaf matchers and the nodes that
    `MatcherFactory` allocates. A graph is an arena: a matcher is its index, so rules may be
    (mutually) recursive. */
module PegGraph {

  datatype Token = Token(text: string, offset: nat)

  /** What an identifier matcher looks for (the source's SuggestionState). */
  datatype NameKind =
    | Variable | CatalogName | SchemaName | TableName | TypeName | ColumnName | FileName
    | ScalarFunctionName | TableFunctionName | PragmaName | SettingName

  datatype Leaf =
    | Keyword(keyword: string)
    | Identifier(kind: NameKind)
    | ReservedIdentifier(kind: NameKind)
    | StringLiteral
    | NumberLiteral
    | Operator
    | ArithmeticOperator

  datatype Node =
    | LeafNode(leaf: Leaf)
    | List(children: seq<nat>, name: string, suppress: bool)
    | Optional(child: nat)
    | Choice(children: seq<nat>)
    | Repeat(child: nat)

  type Graph = seq<Node>

  /** The keyword tables of the keyword helper; membership is case insensitive. */
  datatype Keywords = Keywords(reserved: set<string>, unreserved: set<string>,
                               typeFunc: set<string>, colName: set<string>)

  /** Everything a run reads and never changes. */
  datatype Ctx = Ctx(g: Graph, kw: Keywords, ts: seq<Token>)

  function ChildrenOf(n: Node): (ids: seq<nat>)
  {
    match n
    case LeafNode(_) => []
    case List(children, _, _) => children
    case Optional(child) => [child]
    case Choice(children) => children
    case Repeat(child) => [child]
  }

  /** Every child reference is a matcher of the arena (references in the source are never null). */
  ghost predicate Closed(g: Graph)
  {
    forall id, k :: 0 <= id < |g| && 0 <= k < |ChildrenOf(g[id])| ==> ChildrenOf(g[id])[k] < |g|
  }

  ghost predicate Ids(g: Graph, ids: seq<nat>)
  {
    forall k :: 0 <= k < |ids| ==> ids[k] < |g|
  }

  function Max(a: nat, b: nat): nat
  {
    if a < b then b else a
  }

  // ----- character classes of the tokenizer -----

  function LowerChar(ch: char): char
  {
    if 'A' <= ch <= 'Z' then (ch as int + 32) as char else ch
  }

  function Lower(s: string): (r: string)
  {
    seq(|s|, i requires 0 <= i < |s| => LowerChar(s[i]))
  }

  predicate IsInitialNumber(ch: char)
  {
    '0' <= ch <= '9' || ch == '.'
  }

  predicate IsScientific(ch: char)
  {
    ch == 'e' || ch == 'E'
  }

  predicate IsNumber(ch: char)
  {
    IsInitialNumber(ch) || ch == 'e' || ch == 'E' || ch == '_'
  }

  predicate IsPunctuation(ch: char)
  {
    ch != '_' && ('!' <= ch <= '/' || ':' <= ch <= '@' || '[' <= ch <= '`' || '{' <= ch <= '~')
  }

  predicate IsSpace(ch: char)
  {
    ch == ' ' || ch == '\t' || ch == '\n' || ch as int == 11 || ch as int == 12 || ch == '\r'
  }

  /** CharacterIsKeyword; the single-byte operators and control-flow characters are all punctuation. */
  predicate IsKeywordChar(ch: char)
  {
    !IsPunctuation(ch) && !IsSpace(ch)
  }

  predicate Wrapped(text: string, quote: char)
    requires |text| > 0
  {
    text[0] == quote && text[|text| - 1] == quote
  }

  // ----- leaf tests -----

  /** A leaf accepts a token, rejects it, or throws a parser exception. */
  datatype Verdict = Accept | Reject | Throw

  predicate InCategory(text: string, words: set<string>)
  {
    exists w | w in words :: Lower(w) == Lower(text)
  }

  predicate IsIdentifierText(kind: NameKind, text: string)
  {
    |text| > 0 &&
    ((Wrapped(text, '\'') && (kind.TableName? || kind.FileName?)) ||
     Wrapped(text, '"') ||
     IsKeywordChar(text[0]))
  }

  predicate IdentifierAllowed(kw: Keywords, kind: NameKind, text: string)
  {
    var isFunction := kind.ScalarFunctionName? || kind.TableFunctionName?;
    var banned := if isFunction then kw.colName else kw.typeFunc;
    var override := if isFunction then kw.typeFunc else kw.colName;
    if kind.TypeName? then
      !InCategory(text, kw.reserved) && !InCategory(text, banned)
    else
      !((InCategory(text, kw.reserved) || InCategory(text, banned)) &&
        !(InCategory(text, kw.unreserved) || InCategory(text, override)))
  }

  function NumberVerdict(text: string, i: nat, scientific: bool): (v: Verdict)
    requires i <= |text|
    decreases |text| - i
  {
    if i == |text| then Accept
    else if IsScientific(text[i]) && scientific then Throw
    else
      var sci := scientific || IsScientific(text[i]);
      if (sci && (text[i] == '+' || text[i] == '-')) || IsNumber(text[i])
      then NumberVerdict(text, i + 1, sci) else Reject
  }

  /** The length of a string literal's prefix, up to and including the opening quote. */
  function StringPrefix(text: string): (n: nat)
  {
    if text == "" then 0
    else if |text| > 1 && text[0] != '\'' && text[1] == '\'' && text[0] in "NnXxEe" then 2
    else 1
  }

  function LeafVerdict(kw: Keywords, leaf: Leaf, text: string): (v: Verdict)
  {
    match leaf
    case Keyword(keyword) => if Lower(keyword) == Lower(text) then Accept else Reject
    case Identifier(kind) =>
      if IdentifierAllowed(kw, kind, text) && IsIdentifierText(kind, text) then Accept else Reject
    case ReservedIdentifier(kind) => if IsIdentifierText(kind, text) then Accept else Reject
    case StringLiteral =>
      var p := StringPrefix(text);
      if |text| >= p + 1 && p > 0 && text[p - 1] == '\'' && text[|text| - 1] == '\'' then Accept else Reject
    case NumberLiteral =>
      if text == "" || !IsInitialNumber(text[0]) then Reject else NumberVerdict(text, 1, false)
    case Operator =>
      if forall k :: 0 <= k < |text| ==> text[k] in "+-*/%^<>=~!@&|" then Accept else Reject
    case ArithmeticOperator =>
      if forall k :: 0 <= k < |text| ==> text[k] in "*/+-%" then Accept else Reject
  }

  /** `Match` of these leaves tests the token index itself; the other leaves read the token unguarded. */
  predicate Guarded(leaf: Leaf)
  {
    leaf.Keyword? || leaf.StringLiteral?
  }

  /** The leaves that push a suggestion of their own. */
  predicate Suggests(leaf: Leaf)
  {
    leaf.Keyword? || leaf.Identifier? || leaf.ReservedIdentifier?
  }
}
