/** The scalar SQL expressions that the frontend accepts: concrete syntax over resolved
    words, its print, and a reference parser that inverts the print. */
module SqlGrammar {
  import opened SemanticTables

  // ----- words and trees -----

  /** A token as the grammar sees it: names are resolved to fields, parameters and
      quoted text to literals. `Other` stands for every token without a role here. */
  datatype Word =
    | OpenParen
    | CloseParen
    | CommaWord
    | AndWord
    | OrWord
    | NotWord
    | InWord
    | IsWord
    | NullWord
    | MinusWord
    | CompareWord(op: Operation)
    | ConstantWord(literal: Literal)
    | NumberWord(integer: int)
    | NameWord(field: nat)
    | Other

  const MIN_INT64: int := -0x8000_0000_0000_0000

  datatype Value = Constant(literal: Literal) | Number(integer: int) | Minus(integer: int)

  /** The integer that a minus sign and a scanned number stand for: the scanner hands over
      the magnitude of the smallest integer already wrapped. */
  function Negate(integer: int): int {
    if integer == MIN_INT64 then integer else -integer
  }

  function LiteralOf(value: Value): Literal {
    match value
    case Constant(literal) => literal
    case Number(integer) => Int(integer)
    case Minus(integer) => Int(Negate(integer))
  }

  datatype Ors = LastOr(term: Ands) | MoreOr(term: Ands, rest: Ors)

  datatype Ands = LastAnd(term: Nots) | MoreAnd(term: Nots, rest: Ands)

  datatype Nots = Negated(inner: Nots) | Plain(test: Test)

  datatype Test =
    | Bare(primary: Primary)
    | NullTest(field: nat, negated: bool)
    | Member(field: nat, first: Value, rest: seq<Value>)
    | Compared(field: nat, op: Operation, value: Value, reversed: bool)

  datatype Primary = Paren(inner: Ors) | FieldRef(field: nat) | Scalar(value: Value) | NullValue

  // ----- the print -----

  function PrintValue(value: Value): seq<Word> {
    match value
    case Constant(literal) => [ConstantWord(literal)]
    case Number(integer) => [NumberWord(integer)]
    case Minus(integer) => [MinusWord, NumberWord(integer)]
  }

  function PrintValues(first: Value, rest: seq<Value>): seq<Word>
    decreases |rest|
  {
    PrintValue(first) + if rest == [] then [CloseParen] else [CommaWord] + PrintValues(rest[0], rest[1..])
  }

  function PrintOrs(t: Ors): seq<Word> {
    match t
    case LastOr(term) => PrintAnds(term)
    case MoreOr(term, rest) => PrintAnds(term) + [OrWord] + PrintOrs(rest)
  }

  function PrintAnds(t: Ands): seq<Word> {
    match t
    case LastAnd(term) => PrintNots(term)
    case MoreAnd(term, rest) => PrintNots(term) + [AndWord] + PrintAnds(rest)
  }

  function PrintNots(t: Nots): seq<Word> {
    match t
    case Negated(inner) => [NotWord] + PrintNots(inner)
    case Plain(test) => PrintTest(test)
  }

  function PrintTest(t: Test): seq<Word> {
    match t
    case Bare(primary) => PrintPrimary(primary)
    case NullTest(field, negated) =>
      if negated then [NameWord(field), IsWord, NotWord, NullWord] else [NameWord(field), IsWord, NullWord]
    case Member(field, first, rest) => [NameWord(field), InWord, OpenParen] + PrintValues(first, rest)
    case Compared(field, op, value, reversed) =>
      if reversed then PrintValue(value) + [CompareWord(op), NameWord(field)]
      else [NameWord(field), CompareWord(op)] + PrintValue(value)
  }

  function PrintPrimary(t: Primary): seq<Word> {
    match t
    case Paren(inner) => [OpenParen] + PrintOrs(inner) + [CloseParen]
    case FieldRef(field) => [NameWord(field)]
    case Scalar(value) => PrintValue(value)
    case NullValue => [NullWord]
  }

  // ----- the reference parser -----

  datatype Parse<T> = Fail | Got(tree: T, next: nat)

  /** The end of the words reads as a word without a role. */
  function WordAt(ws: seq<Word>, p: nat): Word {
    if p < |ws| then ws[p] else Other
  }

  function ParseOrs(ws: seq<Word>, p: nat): (r: Parse<Ors>)
    ensures r.Got? ==> p < r.next <= |ws|
    decreases |ws| - p, 5
  {
    if p >= |ws| then Fail
    else match ParseAnds(ws, p)
    case Fail => Fail
    case Got(term, q) =>
      if WordAt(ws, q) != OrWord then Got(LastOr(term), q)
      else match ParseOrs(ws, q + 1)
      case Fail => Fail
      case Got(rest, n) => Got(MoreOr(term, rest), n)
  }

  function ParseAnds(ws: seq<Word>, p: nat): (r: Parse<Ands>)
    ensures r.Got? ==> p < r.next <= |ws|
    decreases |ws| - p, 4
  {
    if p >= |ws| then Fail
    else match ParseNots(ws, p)
    case Fail => Fail
    case Got(term, q) =>
      if WordAt(ws, q) != AndWord then Got(LastAnd(term), q)
      else match ParseAnds(ws, q + 1)
      case Fail => Fail
      case Got(rest, n) => Got(MoreAnd(term, rest), n)
  }

  function ParseNots(ws: seq<Word>, p: nat): (r: Parse<Nots>)
    ensures r.Got? ==> p < r.next <= |ws|
    decreases |ws| - p, 3
  {
    if p >= |ws| then Fail
    else if ws[p] == NotWord then
      match ParseNots(ws, p + 1)
      case Fail => Fail
      case Got(inner, q) => Got(Negated(inner), q)
    else
      match ParseTest(ws, p)
      case Fail => Fail
      case Got(test, q) => Got(Plain(test), q)
  }

  function ParseTest(ws: seq<Word>, p: nat): (r: Parse<Test>)
    ensures r.Got? ==> p < r.next <= |ws|
    decreases |ws| - p, 2
  {
    match ParsePrimary(ws, p)
    case Fail => Fail
    case Got(left, q) =>
      var word := WordAt(ws, q);
      if word == NotWord && WordAt(ws, q + 1) == InWord then Fail
      else if word == IsWord then ParseIs(ws, q, left)
      else if word == InWord then ParseIn(ws, q, left)
      else if word.CompareWord? then ParseCompared(ws, q, left, word.op)
      else Got(Bare(left), q)
  }

  function ParseIs(ws: seq<Word>, q: nat, left: Primary): (r: Parse<Test>)
    ensures r.Got? ==> q < r.next <= |ws|
  {
    var negated := WordAt(ws, q + 1) == NotWord;
    var end := if negated then q + 2 else q + 1;
    if left.FieldRef? && WordAt(ws, end) == NullWord then Got(NullTest(left.field, negated), end + 1) else Fail
  }

  function ParseIn(ws: seq<Word>, q: nat, left: Primary): (r: Parse<Test>)
    requires q < |ws|
    ensures r.Got? ==> q < r.next <= |ws|
    decreases |ws| - q, 2
  {
    if left.FieldRef? && WordAt(ws, q + 1) == OpenParen then
      match ParseValues(ws, q + 2)
      case Fail => Fail
      case Got(list, n) => Got(Member(left.field, list[0], list[1..]), n)
    else Fail
  }

  function ParseValues(ws: seq<Word>, p: nat): (r: Parse<seq<Value>>)
    ensures r.Got? ==> p < r.next <= |ws| && r.tree != []
    decreases |ws| - p, 2
  {
    match ParsePrimary(ws, p)
    case Fail => Fail
    case Got(item, q) =>
      if !item.Scalar? then Fail
      else if WordAt(ws, q) == CloseParen then Got([item.value], q + 1)
      else if WordAt(ws, q) != CommaWord then Fail
      else match ParseValues(ws, q + 1)
      case Fail => Fail
      case Got(rest, n) => Got([item.value] + rest, n)
  }

  function ParseCompared(ws: seq<Word>, q: nat, left: Primary, op: Operation): (r: Parse<Test>)
    requires q < |ws|
    ensures r.Got? ==> q < r.next <= |ws|
    decreases |ws| - q, 2
  {
    match ParsePrimary(ws, q + 1)
    case Fail => Fail
    case Got(right, n) =>
      if left.FieldRef? && right.Scalar? then Got(Compared(left.field, op, right.value, false), n)
      else if right.FieldRef? && left.Scalar? then Got(Compared(right.field, op, left.value, true), n)
      else Fail
  }

  function ParsePrimary(ws: seq<Word>, p: nat): (r: Parse<Primary>)
    ensures r.Got? ==> p < r.next <= |ws|
    decreases |ws| - p, 1
  {
    match WordAt(ws, p)
    case OpenParen =>
      (match ParseOrs(ws, p + 1)
       case Fail => Fail
       case Got(inner, q) => if WordAt(ws, q) == CloseParen then Got(Paren(inner), q + 1) else Fail)
    case ConstantWord(literal) => Got(Scalar(Constant(literal)), p + 1)
    case NullWord => Got(NullValue, p + 1)
    case NumberWord(integer) => Got(Scalar(Number(integer)), p + 1)
    case MinusWord =>
      if WordAt(ws, p + 1).NumberWord? then Got(Scalar(Minus(WordAt(ws, p + 1).integer)), p + 2) else Fail
    case NameWord(field) => if WordAt(ws, p + 1) == OpenParen then Fail else Got(FieldRef(field), p + 1)
    case _ => Fail
  }

  // ----- what is parsed prints back -----

  /** The words from p on start with `text`. */
  ghost predicate At(ws: seq<Word>, p: nat, text: seq<Word>) {
    p + |text| <= |ws| && ws[p..p + |text|] == text
  }

  lemma AtConcat(ws: seq<Word>, p: nat, a: seq<Word>, b: seq<Word>)
    ensures At(ws, p, a + b) <==> At(ws, p, a) && At(ws, p + |a|, b)
  {
    if p + |a| + |b| <= |ws| {
      assert ws[p..p + |a + b|] == ws[p..p + |a|] + ws[p + |a|..p + |a| + |b|];
      if At(ws, p, a + b) {
        assert ws[p..p + |a + b|][..|a|] == a && ws[p..p + |a + b|][|a|..] == b;
      }
    }
  }

  lemma AtWord(ws: seq<Word>, p: nat, word: Word)
    ensures At(ws, p, [word]) <==> p < |ws| && ws[p] == word
  {
    if p < |ws| {
      assert ws[p..p + 1] == [ws[p]];
    }
  }
}
