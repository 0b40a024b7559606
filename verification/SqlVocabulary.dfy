/** How SQL is written: the text of every kind of token, what may stand between tokens, and
    where a token ends, said of the characters alone. */
module SqlVocabulary {
  import opened SemanticTables
  import opened SqlTokens
  import opened SqlLexers

  // ----- letters -----

  /** The same letter, whatever its case. */
  predicate SameLetter(a: char, b: char) {
    || a == b
    || ('a' <= a <= 'z' && a as int - b as int == 32)
    || ('a' <= b <= 'z' && b as int - a as int == 32)
  }

  ghost predicate AnyCase(text: string, word: string) {
    |text| == |word| && forall k :: 0 <= k < |text| ==> SameLetter(text[k], word[k])
  }

  ghost predicate NoCapitals(text: string) {
    forall k :: 0 <= k < |text| ==> !('A' <= text[k] <= 'Z')
  }

  ghost predicate NoSmalls(text: string) {
    forall k :: 0 <= k < |text| ==> !('a' <= text[k] <= 'z')
  }

  // ----- names and keywords -----

  /** A character that a name may begin with. */
  predicate Begins(lex: Lexicon, c: char) {
    'a' <= c <= 'z' || 'A' <= c <= 'Z' || c == '_' || (c as int >= 128 && lex.letter(c))
  }

  /** A character that a name may go on with. */
  predicate Continues(lex: Lexicon, c: char) {
    Begins(lex, c) || '0' <= c <= '9' || c == '$' || (c as int >= 128 && lex.digit(c))
  }

  ghost predicate Unquoted(lex: Lexicon, text: string) {
    text != "" && Begins(lex, text[0]) && forall k :: 1 <= k < |text| ==> Continues(lex, text[k])
  }

  /** The word of a keyword; other tokens have none. */
  function Keyword(kind: TokenKind): string {
    match kind
    case TrueToken => "true"
    case FalseToken => "false"
    case NullToken => "null"
    case AndToken => "and"
    case OrToken => "or"
    case NotToken => "not"
    case InToken => "in"
    case IsToken => "is"
    case AsToken => "as"
    case ForToken => "for"
    case ToToken => "to"
    case UsingToken => "using"
    case WithToken => "with"
    case CheckToken => "check"
    case CreateToken => "create"
    case PolicyToken => "policy"
    case OnToken => "on"
    case PermissiveToken => "permissive"
    case RestrictiveToken => "restrictive"
    case AllToken => "all"
    case SelectToken => "select"
    case InsertToken => "insert"
    case UpdateToken => "update"
    case DeleteToken => "delete"
    case PublicToken => "public"
    case _ => ""
  }

  ghost predicate Reserved(text: string) {
    exists kind :: Keyword(kind) != "" && AnyCase(text, Keyword(kind))
  }

  /** The signs of a comparison or a mark. */
  function Signs(kind: TokenKind): seq<string> {
    match kind
    case CompareToken(Equal) => ["="]
    case CompareToken(NotEqual) => ["<>", "!="]
    case CompareToken(Less) => ["<"]
    case CompareToken(LessEqual) => ["<="]
    case CompareToken(Greater) => [">"]
    case CompareToken(GreaterEqual) => [">="]
    case LParenToken => ["("]
    case RParenToken => [")"]
    case CommaToken => [","]
    case SemicolonToken => [";"]
    case DotToken => ["."]
    case MinusToken => ["-"]
    case _ => []
  }

  // ----- numbers, names in quotes and parameters -----

  const NUMERALS := "0123456789"

  /** Decimal digits, leading zeros allowed. */
  predicate Denotes(text: string, n: nat) {
    if |text| <= 1 then n < 10 && text == [NUMERALS[n]]
    else Denotes(text[..|text| - 1], n / 10) && text[|text| - 1] == NUMERALS[n % 10]
  }

  const TWO_63: int := 0x8000_0000_0000_0000

  /** A number is below 2^63; after a minus sign 2^63 itself is one too, and is then already
      the least integer. */
  ghost predicate NumberText(text: string, integer: int, afterMinus: bool) {
    || (0 <= integer < TWO_63 && Denotes(text, integer))
    || (afterMinus && integer == -TWO_63 && Denotes(text, TWO_63))
  }

  ghost predicate QuotedText(dialect: Dialect, text: string, name: string) {
    || (text == Quoted('"', name) && (dialect == PostgreSql ==> name != ""))
    || (text == Quoted('`', name) && dialect == Databricks)
  }

  /** Parameters are $1, $2 and so on in PostgreSQL, and elsewhere a question mark or a
      colon and a name of ASCII letters. */
  ghost predicate MarkerText(dialect: Dialect, text: string) {
    if dialect == PostgreSql then
      && |text| >= 2 && text[0] == '$' && text[1] != '0'
      && forall k :: 1 <= k < |text| ==> text[k] in NUMERALS
    else
      || text == "?"
      || (&& |text| >= 2 && text[0] == ':' && text[1] !in NUMERALS
          && forall k :: 1 <= k < |text| ==> AsciiName(text[k]))
  }

  predicate AsciiName(c: char) {
    'a' <= c <= 'z' || 'A' <= c <= 'Z' || '0' <= c <= '9' || c == '_'
  }

  /** The text is a token of the kind; only numbers have an integer. */
  ghost predicate Says(lex: Lexicon, kind: TokenKind, integer: int, text: string, afterMinus: bool) {
    match kind
    case EofToken => false
    case IntegerToken => NumberText(text, integer, afterMinus)
    case StringToken => integer == 0 && exists value :: text == Quoted('\'', value)
    case IdentifierToken =>
      integer == 0 && ((exists name :: QuotedText(lex.dialect, text, name)) || (Unquoted(lex, text) && !Reserved(text)))
    case ParameterToken => integer == 0 && MarkerText(lex.dialect, text)
    case _ => integer == 0 && if Keyword(kind) != "" then AnyCase(text, Keyword(kind)) else text in Signs(kind)
  }

  // ----- between tokens -----

  predicate IsBlank(c: char) {
    c in " \t\r\n\U{000C}"
  }

  predicate Pair(source: string, k: nat, two: string) {
    k + 2 <= |source| && source[k..k + 2] == two
  }

  /** From two dashes to the end of the line. */
  ghost predicate LineComment(source: string, start: nat, end: nat) {
    && start + 2 <= end <= |source| && Pair(source, start, "--")
    && '\n' !in source[start..end] && (end < |source| ==> source[end] == '\n')
  }

  /** From an opening to the first closing, with no other opening between. */
  ghost predicate BlockComment(source: string, start: nat, end: nat) {
    && start + 4 <= end <= |source| && Pair(source, start, "/*") && Pair(source, end - 2, "*/")
    && forall k: nat :: start + 2 <= k < end - 2 ==> !Pair(source, k, "/*") && !Pair(source, k, "*/")
  }

  ghost predicate Comment(source: string, start: nat, end: nat) {
    LineComment(source, start, end) || BlockComment(source, start, end)
  }

  /** Nothing but blanks and comments. */
  ghost predicate Gap(source: string, start: nat, end: nat)
    decreases end - start
  {
    && start <= end <= |source|
    && (|| start == end
        || (IsBlank(source[start]) && Gap(source, start + 1, end))
        || exists mid: nat :: start < mid <= end && Comment(source, start, mid) && Gap(source, mid, end))
  }

  /** A token that begins like the text would take the next character in. */
  predicate GoesOn(lex: Lexicon, text: string, next: char) {
    if text == "" then false
    else if text[0] in "'\"`" then next == text[0]
    else if text[0] in NUMERALS || text[0] == '$' then next in NUMERALS
    else if text[0] == ':' then AsciiName(next)
    else if text == "<" then next in "=>"
    else if text == ">" then next == '='
    else if text == "-" then next == '-'
    else Begins(lex, text[0]) && Continues(lex, next)
  }

  datatype Span = Span(start: nat, end: nat)

  /** Where the k-th span may begin. */
  function Before(spans: seq<Span>, k: nat): nat
    requires k <= |spans|
  {
    if k == 0 then 0 else spans[k - 1].end
  }

  ghost predicate SpanOk(lex: Lexicon, source: string, from: nat, span: Span) {
    && Gap(source, from, span.start) && span.start < span.end <= |source|
    && (span.end < |source| ==> !GoesOn(lex, source[span.start..span.end], source[span.end]))
  }

  /** The source is cut into texts, each as long as it can be, with gaps between them. */
  ghost predicate Cut(lex: Lexicon, source: string, spans: seq<Span>) {
    && (forall k :: 0 <= k < |spans| ==> SpanOk(lex, source, Before(spans, k), spans[k]))
    && Gap(source, Before(spans, |spans|), |source|)
  }

  function Slice(source: string, spans: seq<Span>, k: int): string {
    if 0 <= k < |spans| && spans[k].start <= spans[k].end <= |source| then source[spans[k].start..spans[k].end] else ""
  }
}
