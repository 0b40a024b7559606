/** SQL tokens and their resolution to grammar words: quoted text, field names by dialect,
    and named and positional parameters. */
module SqlTokens {
  import opened Optional
  import opened SemanticTables
  import opened SqlGrammar

  datatype Dialect = PostgreSql | Snowflake | Databricks

  datatype TokenKind =
    | EofToken | IdentifierToken | StringToken | IntegerToken | ParameterToken
    | TrueToken | FalseToken | NullToken | AndToken | OrToken | NotToken | InToken | IsToken
    | AsToken | ForToken | ToToken | UsingToken | WithToken | CheckToken | CreateToken | PolicyToken | OnToken
    | PermissiveToken | RestrictiveToken | AllToken | SelectToken
    | InsertToken | UpdateToken | DeleteToken | PublicToken
    | CompareToken(op: Operation)
    | LParenToken | RParenToken | CommaToken | SemicolonToken | DotToken | MinusToken

  /** A token is a slice of the source; only integers carry a value. */
  datatype Token = Token(kind: TokenKind, start: nat, end: nat, integer: int)

  predicate TokenOk(source: string, token: Token) {
    token.start <= token.end <= |source|
  }

  ghost predicate TokensOk(source: string, tokens: seq<Token>) {
    forall k :: 0 <= k < |tokens| ==> TokenOk(source, tokens[k])
  }

  function Text(source: string, token: Token): string
    requires TokenOk(source, token)
  {
    source[token.start..token.end]
  }

  // ----- quoted text -----

  /** Quotes inside the text are doubled. */
  function Doubled(quote: char, text: string): string {
    if text == "" then ""
    else (if text[0] == quote then [quote, quote] else [text[0]]) + Doubled(quote, text[1..])
  }

  function Quoted(quote: char, text: string): string {
    [quote] + Doubled(quote, text) + [quote]
  }

  /** Undo the doubling. */
  function Undoubled(quote: char, body: string): string {
    if body == "" then ""
    else if body[0] == quote && |body| >= 2 && body[1] == quote then [quote] + Undoubled(quote, body[2..])
    else [body[0]] + Undoubled(quote, body[1..])
  }

  lemma {:induction false} UndoubledDoubled(quote: char, text: string)
    ensures Undoubled(quote, Doubled(quote, text)) == text
  {
    if text != "" {
      UndoubledDoubled(quote, text[1..]);
      var rest := Doubled(quote, text[1..]);
      assert text == [text[0]] + text[1..];
      if text[0] == quote {
        assert ([quote, quote] + rest)[2..] == rest;
      } else {
        assert ([text[0]] + rest)[1..] == rest;
      }
    }
  }

  /** The text that a quoted token decodes to. */
  function Decoded(token: string): string {
    if |token| < 2 then "" else Undoubled(token[0], token[1..|token| - 1])
  }

  lemma DecodedQuoted(quote: char, text: string)
    ensures Decoded(Quoted(quote, text)) == text
  {
    var token, body := Quoted(quote, text), Doubled(quote, text);
    assert token[1..|token| - 1] == body;
    UndoubledDoubled(quote, text);
  }

  /** Append the text of a quoted token. */
  method AppendDecodedQuote(dst: string, token: string) returns (result: string)
    ensures result == dst + Decoded(token)
    ensures forall quote, text :: token == Quoted(quote, text) ==> result == dst + text
  {
    hide Quoted;
    forall quote: char, text: string | token == Quoted(quote, text)
      ensures Decoded(token) == text
    {
      DecodedQuoted(quote, text);
    }
    result := dst;
    if |token| < 2 {
      return;
    }
    var quote, row := token[0], 1;
    ghost var body := token[1..|token| - 1];
    assert body[0..] == body;
    while row < |token| - 1
      invariant 1 <= row <= |token| - 1
      invariant result + Undoubled(quote, body[row - 1..]) == dst + Undoubled(quote, body)
    {
      var rest := body[row - 1..];
      assert token[row] == rest[0] && (row + 1 < |token| - 1 ==> token[row + 1] == rest[1]);
      if token[row] == quote && row + 1 < |token| - 1 && token[row + 1] == quote {
        row := row + 1;
        assert rest[2..] == body[row..];
      } else {
        assert rest[1..] == body[row..];
      }
      result := result + [token[row]];
      row := row + 1;
    }
  }

  // ----- fields -----

  datatype Schema = Schema(dialect: Dialect, names: seq<string>, kinds: seq<ValueKind>,
                           parameters: seq<(string, Literal)>)

  predicate SchemaOk(schema: Schema) {
    |schema.names| == |schema.kinds|
  }

  function Upper(c: char): char {
    if 'a' <= c <= 'z' then 'A' + (c - 'a') else c
  }

  function Lower(c: char): char {
    if 'A' <= c <= 'Z' then 'a' + (c - 'A') else c
  }

  /** Unquoted names fold to upper case in Snowflake and to lower case elsewhere. */
  function Folded(dialect: Dialect, text: string): string {
    seq(|text|, k requires 0 <= k < |text| => if dialect == Snowflake then Upper(text[k]) else Lower(text[k]))
  }

  method FoldedIdentifierEqual(token: string, binding: string, dialect: Dialect) returns (equal: bool)
    ensures equal <==> Folded(dialect, token) == binding
  {
    var folded := Folded(dialect, token);
    if |token| != |binding| {
      return false;
    }
    for row := 0 to |token|
      invariant forall j :: 0 <= j < row ==> folded[j] == binding[j]
    {
      var current := if dialect == Snowflake then Upper(token[row]) else Lower(token[row]);
      if current != binding[row] {
        assert folded[row] != binding[row];
        return false;
      }
    }
    equal := true;
  }

  predicate IsQuoted(token: string) {
    |token| >= 2 && (token[0] == '"' || token[0] == '`')
  }

  /** The name a token denotes. */
  function NameOf(dialect: Dialect, token: string): string {
    if IsQuoted(token) then Decoded(token) else Folded(dialect, token)
  }

  /** The first declaration of a name from a row on; 0 if there is none. */
  function FieldFrom(names: seq<string>, name: string, row: nat): (field: nat)
    requires row <= |names|
    ensures field != 0 ==> row < field <= |names| && names[field - 1] == name
    ensures field == 0 ==> forall k :: row <= k < |names| ==> names[k] != name
    decreases |names| - row
  {
    if row == |names| then 0 else if names[row] == name then row + 1 else FieldFrom(names, name, row + 1)
  }

  method FindField(schema: Schema, token: string) returns (field: nat)
    ensures field == FieldFrom(schema.names, NameOf(schema.dialect, token), 0)
  {
    var name := token;
    var quoted := IsQuoted(token);
    if quoted {
      name := AppendDecodedQuote("", token);
      assert name == Decoded(token);
    }
    ghost var wanted := NameOf(schema.dialect, token);
    for row := 0 to |schema.names|
      invariant FieldFrom(schema.names, wanted, 0) == FieldFrom(schema.names, wanted, row)
    {
      var candidate := schema.names[row];
      var equal := name == candidate;
      if !quoted {
        equal := FoldedIdentifierEqual(name, candidate, schema.dialect);
      }
      if equal {
        return row + 1;
      }
    }
    field := 0;
  }

  // ----- parameters -----

  /** The value of the declaration of a name from a row on. */
  function NamedFrom(parameters: seq<(string, Literal)>, name: string, row: nat): Option<Literal>
    requires row <= |parameters|
    decreases |parameters| - row
  {
    if row == |parameters| then None
    else if parameters[row].0 == name then Some(parameters[row].1)
    else NamedFrom(parameters, name, row + 1)
  }

  /** The value of the n-th positional declaration from a row on. */
  function PositionalFrom(parameters: seq<(string, Literal)>, n: nat, row: nat): Option<Literal>
    requires row <= |parameters|
    decreases |parameters| - row
  {
    if row == |parameters| then None
    else if parameters[row].0 != "?" then PositionalFrom(parameters, n, row + 1)
    else if n == 0 then Some(parameters[row].1)
    else PositionalFrom(parameters, n - 1, row + 1)
  }

  /** The value of a marker, given how many positional markers came before it. */
  function ParameterOf(schema: Schema, token: string, before: nat): Option<Literal> {
    if token == "?" then PositionalFrom(schema.parameters, before, 0) else NamedFrom(schema.parameters, token, 0)
  }

  method FindParameter(schema: Schema, token: string, before: nat) returns (value: Option<Literal>)
    ensures value == ParameterOf(schema, token, before)
  {
    if token == "?" {
      var unnamed := before;
      for row := 0 to |schema.parameters|
        invariant PositionalFrom(schema.parameters, before, 0) == PositionalFrom(schema.parameters, unnamed, row)
      {
        if schema.parameters[row].0 == "?" {
          if unnamed == 0 {
            return Some(schema.parameters[row].1);
          }
          unnamed := unnamed - 1;
        }
      }
      return None;
    }
    for row := 0 to |schema.parameters|
      invariant NamedFrom(schema.parameters, token, 0) == NamedFrom(schema.parameters, token, row)
    {
      if schema.parameters[row].0 == token {
        return Some(schema.parameters[row].1);
      }
    }
    value := None;
  }

  // ----- words -----

  predicate IsPositional(source: string, token: Token) {
    TokenOk(source, token) && token.kind == ParameterToken && Text(source, token) == "?"
  }

  /** How many positional markers stand before a token. */
  function Positionals(source: string, tokens: seq<Token>, k: nat): nat
    requires k <= |tokens|
  {
    if k == 0 then 0 else Positionals(source, tokens, k - 1) + if IsPositional(source, tokens[k - 1]) then 1 else 0
  }

  /** The grammar word of a token. */
  function WordOf(source: string, token: Token, schema: Schema, before: nat): Word
    requires TokenOk(source, token)
  {
    match token.kind
    case LParenToken => OpenParen
    case RParenToken => CloseParen
    case CommaToken => CommaWord
    case AndToken => AndWord
    case OrToken => OrWord
    case NotToken => NotWord
    case InToken => InWord
    case IsToken => IsWord
    case NullToken => NullWord
    case MinusToken => MinusWord
    case CompareToken(op) => CompareWord(op)
    case TrueToken => ConstantWord(Bool(true))
    case FalseToken => ConstantWord(Bool(false))
    case StringToken => ConstantWord(Str(Decoded(Text(source, token))))
    case IntegerToken => NumberWord(token.integer)
    case IdentifierToken =>
      var field := FieldFrom(schema.names, NameOf(schema.dialect, Text(source, token)), 0);
      if field == 0 then Other else NameWord(field)
    case ParameterToken =>
      (match ParameterOf(schema, Text(source, token), before)
       case None => Other
       case Some(value) => ConstantWord(value))
    case _ => Other
  }

  ghost function Words(source: string, tokens: seq<Token>, schema: Schema): (ws: seq<Word>)
    ensures |ws| == |tokens|
  {
    seq(|tokens|, k requires 0 <= k < |tokens| =>
      if TokenOk(source, tokens[k]) then WordOf(source, tokens[k], schema, Positionals(source, tokens, k)) else Other)
  }
}
