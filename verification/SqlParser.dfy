/** The recursive-descent expression parser: one pass over the tokens that appends rows to
    the semantic table as it reads. */
module SqlParsers {
  import opened SemanticTables
  import opened SemanticBuilders
  import opened SqlGrammar
  import opened SqlMeaning
  import opened SqlAcceptance
  import opened SqlTokens

  function KindAt(tokens: seq<Token>, p: nat): TokenKind {
    if p < |tokens| then tokens[p].kind else EofToken
  }

  /** Which words the token kinds stand for. */
  lemma KindDecidesWord(source: string, tokens: seq<Token>, schema: Schema, p: nat)
    requires TokensOk(source, tokens)
    ensures var word, kind := WordAt(Words(source, tokens, schema), p), KindAt(tokens, p);
            && (word == OpenParen <==> kind == LParenToken) && (word == CloseParen <==> kind == RParenToken)
            && (word == CommaWord <==> kind == CommaToken) && (word == AndWord <==> kind == AndToken)
            && (word == OrWord <==> kind == OrToken) && (word == NotWord <==> kind == NotToken)
            && (word == InWord <==> kind == InToken) && (word == IsWord <==> kind == IsToken)
            && (word == NullWord <==> kind == NullToken) && (word == MinusWord <==> kind == MinusToken)
            && (word.CompareWord? <==> kind.CompareToken?) && (word.CompareWord? ==> word.op == kind.op)
            && (word.NumberWord? <==> kind == IntegerToken)
  {
    if p < |tokens| {
      var before := Positionals(source, tokens, p);
      assert WordAt(Words(source, tokens, schema), p) == WordOf(source, tokens[p], schema, before);
      hide Positionals;
      WordKind(source, tokens[p], schema, before);
    }
  }

  lemma NotDecides(source: string, tokens: seq<Token>, schema: Schema, p: nat)
    requires TokensOk(source, tokens)
    ensures WordAt(Words(source, tokens, schema), p) == NotWord <==> KindAt(tokens, p) == NotToken
  {
    hide Words, TokensOk, WordAt, KindAt;
    KindDecidesWord(source, tokens, schema, p);
  }

  lemma InDecides(source: string, tokens: seq<Token>, schema: Schema, p: nat)
    requires TokensOk(source, tokens)
    ensures WordAt(Words(source, tokens, schema), p) == InWord <==> KindAt(tokens, p) == InToken
  {
    hide Words, TokensOk, WordAt, KindAt;
    KindDecidesWord(source, tokens, schema, p);
  }

  lemma ParenDecides(source: string, tokens: seq<Token>, schema: Schema, p: nat)
    requires TokensOk(source, tokens)
    ensures WordAt(Words(source, tokens, schema), p) == OpenParen <==> KindAt(tokens, p) == LParenToken
    ensures WordAt(Words(source, tokens, schema), p) == CloseParen <==> KindAt(tokens, p) == RParenToken
  {
    hide Words, TokensOk, WordAt, KindAt;
    KindDecidesWord(source, tokens, schema, p);
  }

  lemma OrDecides(source: string, tokens: seq<Token>, schema: Schema, p: nat)
    requires TokensOk(source, tokens)
    ensures WordAt(Words(source, tokens, schema), p) == OrWord <==> KindAt(tokens, p) == OrToken
  {
    hide Words, TokensOk, WordAt, KindAt;
    KindDecidesWord(source, tokens, schema, p);
  }

  lemma AndDecides(source: string, tokens: seq<Token>, schema: Schema, p: nat)
    requires TokensOk(source, tokens)
    ensures WordAt(Words(source, tokens, schema), p) == AndWord <==> KindAt(tokens, p) == AndToken
  {
    hide Words, TokensOk, WordAt, KindAt;
    KindDecidesWord(source, tokens, schema, p);
  }

  lemma IsDecides(source: string, tokens: seq<Token>, schema: Schema, p: nat)
    requires TokensOk(source, tokens)
    ensures WordAt(Words(source, tokens, schema), p) == IsWord <==> KindAt(tokens, p) == IsToken
  {
    hide Words, TokensOk, WordAt, KindAt;
    KindDecidesWord(source, tokens, schema, p);
  }

  /** The words that decide how a test goes on. */
  lemma TailDecides(source: string, tokens: seq<Token>, schema: Schema, p: nat)
    requires TokensOk(source, tokens)
    ensures var word, kind := WordAt(Words(source, tokens, schema), p), KindAt(tokens, p);
            && (word == NotWord <==> kind == NotToken) && (word == InWord <==> kind == InToken)
            && (word == IsWord <==> kind == IsToken) && (word.CompareWord? <==> kind.CompareToken?)
            && (word.CompareWord? ==> word.op == kind.op)
    ensures WordAt(Words(source, tokens, schema), p + 1) == InWord <==> KindAt(tokens, p + 1) == InToken
  {
    hide Words, TokensOk, WordAt, KindAt;
    KindDecidesWord(source, tokens, schema, p);
    InDecides(source, tokens, schema, p + 1);
  }

  lemma NullDecides(source: string, tokens: seq<Token>, schema: Schema, p: nat)
    requires TokensOk(source, tokens)
    ensures WordAt(Words(source, tokens, schema), p) == NullWord <==> KindAt(tokens, p) == NullToken
  {
    hide Words, TokensOk, WordAt, KindAt;
    KindDecidesWord(source, tokens, schema, p);
  }

  lemma CommaDecides(source: string, tokens: seq<Token>, schema: Schema, p: nat)
    requires TokensOk(source, tokens)
    ensures WordAt(Words(source, tokens, schema), p) == CommaWord <==> KindAt(tokens, p) == CommaToken
    ensures WordAt(Words(source, tokens, schema), p) == CloseParen <==> KindAt(tokens, p) == RParenToken
  {
    hide Words, TokensOk, WordAt, KindAt;
    KindDecidesWord(source, tokens, schema, p);
  }

  lemma WordKind(source: string, token: Token, schema: Schema, before: nat)
    requires TokenOk(source, token)
    ensures var word, kind := WordOf(source, token, schema, before), token.kind;
            && (word == OpenParen <==> kind == LParenToken) && (word == CloseParen <==> kind == RParenToken)
            && (word == CommaWord <==> kind == CommaToken) && (word == AndWord <==> kind == AndToken)
            && (word == OrWord <==> kind == OrToken) && (word == NotWord <==> kind == NotToken)
            && (word == InWord <==> kind == InToken) && (word == IsWord <==> kind == IsToken)
            && (word == NullWord <==> kind == NullToken) && (word == MinusWord <==> kind == MinusToken)
            && (word.CompareWord? <==> kind.CompareToken?) && (word.CompareWord? ==> word.op == kind.op)
            && (word.NumberWord? <==> kind == IntegerToken)
  {
    hide Decoded, NameOf, FieldFrom, ParameterOf, WordOf;
    var word := WordOf(source, token, schema, before);
    if Plainly(token.kind) {
      PlainWord(source, token, schema, before);
    } else {
      RichWord(source, token, schema, before);
    }
  }

  /** A token that stands for itself. */
  predicate Plainly(kind: TokenKind) {
    kind in {LParenToken, RParenToken, CommaToken, AndToken, OrToken, NotToken, InToken, IsToken, NullToken, MinusToken}
      || kind.CompareToken?
  }

  lemma PlainWord(source: string, token: Token, schema: Schema, before: nat)
    requires TokenOk(source, token) && Plainly(token.kind)
    ensures WordOf(source, token, schema, before) ==
            (match token.kind
             case LParenToken => OpenParen
             case RParenToken => CloseParen
             case CommaToken => CommaWord
             case AndToken => AndWord
             case OrToken => OrWord
             case NotToken => NotWord
             case InToken => InWord
             case IsToken => IsWord
             case NullToken => NullWord
             case CompareToken(op) => CompareWord(op)
             case _ => MinusWord)
  {
    hide Decoded, NameOf, FieldFrom, ParameterOf;
  }

  lemma RichWord(source: string, token: Token, schema: Schema, before: nat)
    requires TokenOk(source, token) && !Plainly(token.kind)
    ensures var word := WordOf(source, token, schema, before);
            && (word.ConstantWord? || word.NumberWord? || word.NameWord? || word == Other)
            && (word.NumberWord? <==> token.kind == IntegerToken)
  {
    hide Decoded, NameOf, FieldFrom, ParameterOf;
  }

  /** On a table that fits, a typed append succeeds exactly when the longer table fits. */
  lemma AdmitsFits(env: Env, nodes: seq<Node>, node: Node)
    requires FitsIn(env, nodes)
    ensures Admits(env.kinds, env.limits, env.base, nodes, node) <==>
            (WellTyped(env.kinds, |nodes|, node) && FitsIn(env, nodes + [node]))
  {
    hide Fits, Room, WellTyped;
    FitsSnoc(env.limits, env.base, nodes, node);
  }

  lemma PairTyped(kinds: seq<ValueKind>, rows: nat, conjunction: bool, left: nat, right: nat)
    requires 1 <= left <= rows && 1 <= right <= rows
    ensures WellTyped(kinds, rows, Group(conjunction, [left, right]))
  {
  }

  lemma NegationTyped(kinds: seq<ValueKind>, rows: nat, child: nat)
    requires 1 <= child <= rows
    ensures WellTyped(kinds, rows, Negation(child))
  {
  }

  /** What the token behind a value of a list means: another value, the end of the list, or
      no list at all. */
  ghost predicate ItemEnds(ws: seq<Word>, start: nat, values: seq<Value>, p: nat, kind: TokenKind) {
    && (kind == CommaToken ==> ValuesPending(ws, start, values, p + 1))
    && (kind == RParenToken ==> ParseValues(ws, start) == Got(values, p + 1))
    && (kind != CommaToken && kind != RParenToken ==> ParseValues(ws, start).Fail?)
  }

  class Parser {
    const source: string
    const tokens: seq<Token>
    const schema: Schema
    const builder: Builder
    var failed: bool
    var position: nat
    var nesting: nat
    var unnamed: nat

    ghost predicate Valid()
      reads this, builder
    {
      && TokensOk(source, tokens) && SchemaOk(schema) && builder.Valid() && builder.kinds == schema.kinds
      && position <= |tokens| && unnamed == Positionals(source, tokens, position)
    }

    ghost function Environment(): Env {
      Env(Words(source, tokens, schema), schema.kinds, builder.limits, builder.base)
    }

    constructor (source: string, tokens: seq<Token>, schema: Schema, builder: Builder)
      requires TokensOk(source, tokens) && SchemaOk(schema) && builder.Valid() && builder.kinds == schema.kinds
      ensures Valid() && !failed && position == 0 && nesting == 0
      ensures this.source == source && this.tokens == tokens && this.schema == schema && this.builder == builder
    {
      this.source, this.tokens, this.schema, this.builder := source, tokens, schema, builder;
      failed, position, nesting, unnamed := false, 0, 0, 0;
    }

    function Current(): TokenKind
      reads this
    {
      KindAt(tokens, position)
    }

    /** Move past a token that is not a parameter. */
    method Skip()
      requires Valid() && position < |tokens| && Current() != ParameterToken
      modifies this`position
      ensures Valid() && position == old(position) + 1
    {
      hide TokensOk, Builder.Valid, Words;
      position := position + 1;
    }

    /** Append a group of two; a failed append fails the parse. */
    method JoinNodes(conjunction: bool, left: nat, right: nat) returns (id: nat)
      requires Valid() && !failed && 1 <= left <= |builder.nodes| && 1 <= right <= |builder.nodes|
      modifies this`failed, builder
      ensures Valid()
      ensures !failed <==> FitsIn(Environment(), old(builder.nodes) + [Group(conjunction, [left, right])])
      ensures !failed ==> Emitted(builder.nodes, id) == Append(old(builder.nodes), Group(conjunction, [left, right]))
    {
      hide Words, Admits, WellTyped, Fits, Rooted, TableOk, Total;
      AdmitsFits(Environment(), builder.nodes, Group(conjunction, [left, right]));
      PairTyped(schema.kinds, |builder.nodes|, conjunction, left, right);
      var ok;
      ok, id := builder.AddGroup(conjunction, [left, right]);
      failed := !ok;
    }

    method NegateNode(child: nat) returns (id: nat)
      requires Valid() && !failed && 1 <= child <= |builder.nodes|
      modifies this`failed, builder
      ensures Valid()
      ensures !failed <==> FitsIn(Environment(), old(builder.nodes) + [Negation(child)])
      ensures !failed ==> Emitted(builder.nodes, id) == Append(old(builder.nodes), Negation(child))
    {
      hide Words, Admits, WellTyped, Fits, Rooted, TableOk, Total;
      AdmitsFits(Environment(), builder.nodes, Negation(child));
      NegationTyped(schema.kinds, |builder.nodes|, child);
      var ok;
      ok, id := builder.AddNot(child);
      failed := !ok;
    }

    lemma Readable()
      requires Valid()
      ensures TokensOk(source, tokens) && position <= |tokens|
    {
    }

    lemma BuilderFits()
      requires Valid()
      ensures FitsIn(Environment(), builder.nodes)
    {
    }

    method ParseOr() returns (id: nat)
      requires Valid() && !failed
      modifies this, builder
      ensures Valid()
      ensures OrsResult(Environment(), old(position), old(nesting), old(builder.nodes),
                        Outcome(!failed, position, Emitted(builder.nodes, id)))
      ensures !failed ==> nesting == old(nesting)
      decreases |tokens| - position, 5
    {
      hide Words, OrsResult, AndsResult, OrsPending, Positionals, TokensOk, Builder.Valid, FitsIn;
      ghost var env, p0, nodes0 := Environment(), position, builder.nodes;
      id := ParseAnd();
      OrsBegins(env, p0, old(nesting), nodes0, Outcome(!failed, position, Emitted(builder.nodes, id)));
      if failed {
        return;
      }
      while Current() == OrToken
        invariant Valid() && !failed && nesting == old(nesting) && 1 <= id <= |builder.nodes|
        invariant OrsPending(env, p0, nesting, nodes0, position, Emitted(builder.nodes, id)) && p0 < position
        decreases |tokens| - position
      {
        OrDecides(source, tokens, schema, position);
        ghost var p, left := position, Emitted(builder.nodes, id);
        Skip();
        var right := ParseAnd();
        OrsContinues(env, p0, old(nesting), nodes0, p, left, Outcome(!failed, position, Emitted(builder.nodes, right)));
        if failed {
          return right;
        }
        id := JoinNodes(false, id, right);
        if failed {
          return;
        }
      }
      OrDecides(source, tokens, schema, position);
      BuilderFits();
      OrsEnds(env, p0, nesting, nodes0, position, Emitted(builder.nodes, id));
    }

    method ParseAnd() returns (id: nat)
      requires Valid() && !failed
      modifies this, builder
      ensures Valid()
      ensures AndsResult(Environment(), old(position), old(nesting), old(builder.nodes),
                         Outcome(!failed, position, Emitted(builder.nodes, id)))
      ensures !failed ==> nesting == old(nesting)
      decreases |tokens| - position, 4
    {
      hide Words, AndsResult, NotsResult, AndsPending, Positionals, TokensOk, Builder.Valid, FitsIn;
      ghost var env, p0, nodes0 := Environment(), position, builder.nodes;
      id := ParseNot();
      AndsBegins(env, p0, old(nesting), nodes0, Outcome(!failed, position, Emitted(builder.nodes, id)));
      if failed {
        return;
      }
      while Current() == AndToken
        invariant Valid() && !failed && nesting == old(nesting) && 1 <= id <= |builder.nodes|
        invariant AndsPending(env, p0, nesting, nodes0, position, Emitted(builder.nodes, id)) && p0 < position
        decreases |tokens| - position
      {
        AndDecides(source, tokens, schema, position);
        ghost var p, left := position, Emitted(builder.nodes, id);
        Skip();
        var right := ParseNot();
        AndsContinues(env, p0, old(nesting), nodes0, p, left,
                      Outcome(!failed, position, Emitted(builder.nodes, right)));
        if failed {
          return right;
        }
        id := JoinNodes(true, id, right);
        if failed {
          return;
        }
      }
      AndDecides(source, tokens, schema, position);
      BuilderFits();
      AndsEnds(env, p0, nesting, nodes0, position, Emitted(builder.nodes, id));
    }

    method ParseNot() returns (id: nat)
      requires Valid() && !failed
      modifies this, builder
      ensures Valid()
      ensures NotsResult(Environment(), old(position), old(nesting), old(builder.nodes),
                         Outcome(!failed, position, Emitted(builder.nodes, id)))
      ensures !failed ==> nesting == old(nesting)
      decreases |tokens| - position, 3
    {
      hide Words, NotsResult, TestResult, Positionals, TokensOk, Builder.Valid, FitsIn;
      ghost var env, p0, nodes0 := Environment(), position, builder.nodes;
      KindDecidesWord(source, tokens, schema, position);
      if Current() != NotToken {
        id := ParseComparison();
        NotsOfTest(env, p0, old(nesting), nodes0, Outcome(!failed, position, Emitted(builder.nodes, id)));
      } else {
        id := ParseNegation();
      }
    }

    method ParseNegation() returns (id: nat)
      requires Valid() && !failed && Current() == NotToken
      modifies this, builder
      ensures Valid()
      ensures NotsResult(Environment(), old(position), old(nesting), old(builder.nodes),
                         Outcome(!failed, position, Emitted(builder.nodes, id)))
      ensures !failed ==> nesting == old(nesting)
      decreases |tokens| - position, 2
    {
      hide Words, NotsResult, Positionals, TokensOk, Builder.Valid, FitsIn, Extends;
      ghost var env, p0, nodes0 := Environment(), position, builder.nodes;
      NotDecides(source, tokens, schema, position);
      Skip();
      nesting := nesting + 1;
      if nesting > builder.limits.maxDepth {
        failed := true;
        NotsTooDeep(env, p0, old(nesting), nodes0, Outcome(false, position, Emitted(builder.nodes, 0)));
        return 0;
      }
      var child := ParseNot();
      id := FinishNegation(p0, old(nesting), nodes0, child);
    }

    method FinishNegation(ghost p0: nat, ghost nesting0: nat, ghost nodes0: seq<Node>, child: nat) returns (id: nat)
      requires Valid() && WordAt(Environment().words, p0) == NotWord && nesting0 + 1 <= builder.limits.maxDepth
      requires (!failed ==> nesting == nesting0 + 1)
      requires NotsResult(Environment(), p0 + 1, nesting0 + 1, nodes0,
                          Outcome(!failed, position, Emitted(builder.nodes, child)))
      modifies this`failed, this`nesting, builder
      ensures Valid()
      ensures NotsResult(Environment(), p0, nesting0, nodes0, Outcome(!failed, position, Emitted(builder.nodes, id)))
      ensures !failed ==> nesting == nesting0
    {
      hide Words, NotsResult, Positionals, TokensOk, Builder.Valid, FitsIn, Extends;
      ghost var env, out := Environment(), Outcome(!failed, position, Emitted(builder.nodes, child));
      if failed {
        NotsNegated(env, p0, nesting0, nodes0, out, out);
        return child;
      }
      nesting := nesting - 1;
      NotsChild(env, p0 + 1, nesting0 + 1, nodes0, out);
      id := NegateNode(child);
      NotsNegated(env, p0, nesting0, nodes0, out, Outcome(!failed, position, Emitted(builder.nodes, id)));
    }

    method ParseComparison() returns (id: nat)
      requires Valid() && !failed
      modifies this, builder
      ensures Valid()
      ensures TestResult(Environment(), old(position), old(nesting), old(builder.nodes),
                         Outcome(!failed, position, Emitted(builder.nodes, id)))
      ensures !failed ==> nesting == old(nesting)
      decreases |tokens| - position, 2
    {
      hide Words, TestResult, TestRefused, PrimaryResult, Positionals, TokensOk, Builder.Valid,
           Parser.Valid;
      ghost var env, p0, nodes0 := Environment(), position, builder.nodes;
      var left := ParsePrimaryOperand();
      ghost var read := Reading(!failed, position, builder.nodes, left);
      if failed {
        PrimaryRefused(env, p0, old(nesting), nodes0, read);
        id := Refuse(p0, old(nesting), nodes0);
        return;
      }
      PrimaryAdvance(env, p0, nesting, nodes0, read);
      Readable();
      id := ParseTail(p0, nodes0, left);
    }

    /** What follows the first operand of a test. */
    method ParseTail(ghost p0: nat, ghost nodes0: seq<Node>, left: Operand) returns (id: nat)
      requires Valid() && !failed
      requires PrimaryResult(Environment(), p0, nesting, nodes0, Reading(true, position, builder.nodes, left))
      requires left.FieldOperand? ==> FieldOk(schema.kinds, left.field)
      modifies this, builder
      ensures Valid()
      ensures TestResult(Environment(), p0, old(nesting), nodes0,
                         Outcome(!failed, position, Emitted(builder.nodes, id)))
      ensures !failed ==> nesting == old(nesting)
      decreases |tokens| - position, 3
    {
      hide Words, TestResult, TestRefused, PrimaryResult, Positionals, TokensOk, Builder.Valid, Parser.Valid;
      Readable();
      var kind := Current();
      TailDecides(source, tokens, schema, position);
      if kind == NotToken && KindAt(tokens, position + 1) == InToken {
        NotInRefused(Environment(), p0, nesting, nodes0, Reading(true, position, builder.nodes, left));
        id := Refuse(p0, nesting, nodes0);
      } else if kind == IsToken {
        id := ParseNullTest(p0, nodes0, left);
      } else if kind == InToken {
        id := ParseMembership(p0, nodes0, left);
      } else if kind.CompareToken? {
        id := ParseCompare(p0, nodes0, left, kind.op);
      } else {
        id := EnsureNode(p0, nodes0, left);
      }
    }

    /** Give up a test that has no reading. */
    method Refuse(ghost p0: nat, ghost nesting0: nat, ghost nodes0: seq<Node>) returns (id: nat)
      requires Valid() && TestRefused(Environment(), p0, nesting0, nodes0)
      modifies this`failed
      ensures Valid() && failed
      ensures TestResult(Environment(), p0, nesting0, nodes0, Outcome(!failed, position, Emitted(builder.nodes, id)))
    {
      hide Words, TestResult, TestRefused, Positionals, TokensOk, Builder.Valid;
      failed := true;
      id := 0;
      TestFails(Environment(), p0, nesting0, nodes0, Outcome(false, position, Emitted(builder.nodes, id)));
    }

    /** Append a comparison row for the whole test. */
    method AppendCompare(ghost p0: nat, ghost nodes0: seq<Node>, field: nat, op: Operation,
                         literal: Literal) returns (id: nat)
      requires Valid() && !failed && builder.nodes == nodes0
      requires CompareOutcome(Environment(), p0, nesting, nodes0, Compare(field, op, literal), position)
      modifies this`failed, builder
      ensures Valid()
      ensures TestResult(Environment(), p0, nesting, nodes0, Outcome(!failed, position, Emitted(builder.nodes, id)))
    {
      hide Words, TestResult, TestRefused, Positionals, TokensOk, Builder.Valid, FitsIn, WellTyped, Admits;
      ghost var node := Compare(field, op, literal);
      BuilderFits();
      AdmitsFits(Environment(), nodes0, node);
      var ok;
      ok, id := builder.AddCompare(field, op, literal);
      failed := !ok;
      if failed {
        TestFails(Environment(), p0, nesting, nodes0, Outcome(false, position, Emitted(builder.nodes, id)));
      }
    }

    method AppendBoolean(ghost p0: nat, ghost nodes0: seq<Node>, value: bool) returns (id: nat)
      requires Valid() && !failed && builder.nodes == nodes0
      requires CompareOutcome(Environment(), p0, nesting, nodes0, Boolean(value), position)
      modifies this`failed, builder
      ensures Valid()
      ensures TestResult(Environment(), p0, nesting, nodes0, Outcome(!failed, position, Emitted(builder.nodes, id)))
    {
      hide Words, TestResult, TestRefused, Positionals, TokensOk, Builder.Valid, FitsIn, WellTyped, Admits;
      BuilderFits();
      AdmitsFits(Environment(), nodes0, Boolean(value));
      var ok;
      ok, id := builder.AddBoolean(value);
      failed := !ok;
      if failed {
        TestFails(Environment(), p0, nesting, nodes0, Outcome(false, position, Emitted(builder.nodes, id)));
      }
    }

    /** A primary that stands alone must be a truth value. */
    method EnsureNode(ghost p0: nat, ghost nodes0: seq<Node>, value: Operand) returns (id: nat)
      requires Valid() && !failed
      requires PrimaryResult(Environment(), p0, nesting, nodes0, Reading(true, position, builder.nodes, value))
      requires !Continues(Environment().words, position) && (value.FieldOperand? ==> FieldOk(schema.kinds, value.field))
      modifies this`failed, builder
      ensures Valid()
      ensures TestResult(Environment(), p0, nesting, nodes0, Outcome(!failed, position, Emitted(builder.nodes, id)))
    {
      hide Words, TestResult, TestRefused, PrimaryResult, Positionals, TokensOk, Builder.Valid, CompareOutcome,
           Continues;
      ghost var env, read := Environment(), Reading(true, position, builder.nodes, value);
      BareResult(env, p0, nesting, nodes0, read);
      PrimaryAdvance(env, p0, nesting, nodes0, read);
      if value.NodeOperand? {
        id := value.id;
      } else if value.FieldOperand? {
        if schema.kinds[value.field - 1] != BooleanKind {
          NotBoolean(env, p0, nesting, nodes0, value.field, position);
          id := Refuse(p0, nesting, nodes0);
          return;
        }
        id := AppendCompare(p0, nodes0, value.field, Equal, Bool(true));
      } else if value.LiteralOperand? && value.literal.Bool? {
        id := AppendBoolean(p0, nodes0, value.literal.flag);
      } else {
        id := Refuse(p0, nesting, nodes0);
      }
    }

    method ParseCompare(ghost p0: nat, ghost nodes0: seq<Node>, left: Operand, op: Operation) returns (id: nat)
      requires Valid() && !failed
      requires PrimaryResult(Environment(), p0, nesting, nodes0, Reading(true, position, builder.nodes, left))
      requires Current() == CompareToken(op)
      modifies this, builder
      ensures Valid()
      ensures TestResult(Environment(), p0, old(nesting), nodes0,
                         Outcome(!failed, position, Emitted(builder.nodes, id)))
      ensures !failed ==> nesting == old(nesting)
      decreases |tokens| - position, 2
    {
      hide Words, TestResult, TestRefused, PrimaryResult, Positionals, TokensOk, Builder.Valid, CompareOutcome;
      ghost var env, read := Environment(), Reading(true, position, builder.nodes, left);
      KindDecidesWord(source, tokens, schema, position);
      PrimaryAdvance(env, p0, nesting, nodes0, read);
      Skip();
      var right := ParsePrimaryOperand();
      ghost var second := Reading(!failed, position, builder.nodes, right);
      ComparedResult(env, p0, old(nesting), nodes0, read, op, second);
      if failed {
        id := Refuse(p0, old(nesting), nodes0);
        return;
      }
      PrimaryAdvance(env, read.next + 1, nesting, read.nodes, second);
      if left.FieldOperand? && right.LiteralOperand? {
        id := AppendCompare(p0, nodes0, left.field, op, right.literal);
      } else if right.FieldOperand? && left.LiteralOperand? {
        id := AppendCompare(p0, nodes0, right.field, Reverse(op), left.literal);
      } else {
        id := Refuse(p0, nesting, nodes0);
      }
    }

    method ParseNullTest(ghost p0: nat, ghost nodes0: seq<Node>, left: Operand) returns (id: nat)
      requires Valid() && !failed
      requires PrimaryResult(Environment(), p0, nesting, nodes0, Reading(true, position, builder.nodes, left))
      requires Current() == IsToken
      modifies this`failed, this`position, builder
      ensures Valid()
      ensures TestResult(Environment(), p0, nesting, nodes0, Outcome(!failed, position, Emitted(builder.nodes, id)))
    {
      hide Words, TestResult, TestRefused, PrimaryResult, Positionals, TokensOk, Builder.Valid, ParseTest,
           Parser.Valid;
      Readable();
      ghost var env, read := Environment(), Reading(true, position, builder.nodes, left);
      IsDecides(source, tokens, schema, position);
      NotDecides(source, tokens, schema, position + 1);
      var negated := KindAt(tokens, position + 1) == NotToken;
      ghost var end := if negated then position + 2 else position + 1;
      NullDecides(source, tokens, schema, end);
      IsResult(env, p0, nesting, nodes0, read, negated, end);
      PrimaryAdvance(env, p0, nesting, nodes0, read);
      if !left.FieldOperand? {
        id := Refuse(p0, nesting, nodes0);
        return;
      }
      Skip();
      if Current() == NotToken {
        Skip();
      }
      if Current() != NullToken {
        id := Refuse(p0, nesting, nodes0);
        return;
      }
      Skip();
      id := AppendNullTest(p0, nodes0, left.field, negated);
    }

    method AppendNullTest(ghost p0: nat, ghost nodes0: seq<Node>, field: nat, negated: bool) returns (id: nat)
      requires Valid() && !failed && builder.nodes == nodes0
      requires ParseTest(Environment().words, p0) == Got(NullTest(field, negated), position)
      modifies this`failed, builder
      ensures Valid()
      ensures TestResult(Environment(), p0, nesting, nodes0, Outcome(!failed, position, Emitted(builder.nodes, id)))
    {
      hide Words, TestResult, TestRefused, Positionals, TokensOk, Builder.Valid, FitsIn, Admits, ParseTest;
      ghost var env := Environment();
      NullResult(env, p0, nesting, nodes0, field, negated, position);
      BuilderFits();
      AdmitsFits(env, nodes0, Defined(field));
      var ok;
      ok, id := builder.AddDefined(field);
      if !ok {
        id := Refuse(p0, nesting, nodes0);
        return;
      }
      if negated {
        return;
      }
      id := NegateNode(id);
      if failed {
        TestFails(env, p0, nesting, nodes0, Outcome(false, position, Emitted(builder.nodes, id)));
      }
    }

    method ParseMembership(ghost p0: nat, ghost nodes0: seq<Node>, left: Operand) returns (id: nat)
      requires Valid() && !failed
      requires PrimaryResult(Environment(), p0, nesting, nodes0, Reading(true, position, builder.nodes, left))
      requires Current() == InToken
      modifies this, builder
      ensures Valid()
      ensures TestResult(Environment(), p0, old(nesting), nodes0,
                         Outcome(!failed, position, Emitted(builder.nodes, id)))
      ensures !failed ==> nesting == old(nesting)
      decreases |tokens| - position, 2
    {
      hide Words, TestResult, TestRefused, PrimaryResult, Positionals, TokensOk, Builder.Valid, ParseValues, ParseTest,
           Literals, Parser.Valid;
      Readable();
      ghost var env, read := Environment(), Reading(true, position, builder.nodes, left);
      InDecides(source, tokens, schema, position);
      ParenDecides(source, tokens, schema, position + 1);
      InResult(env, p0, nesting, nodes0, read);
      PrimaryAdvance(env, p0, nesting, nodes0, read);
      if !left.FieldOperand? {
        id := Refuse(p0, nesting, nodes0);
        return;
      }
      Skip();
      if Current() != LParenToken {
        id := Refuse(p0, nesting, nodes0);
        return;
      }
      Skip();
      id := ParseMembers(p0, nodes0, left.field);
    }

    /** The list of a membership and the row for it. */
    method ParseMembers(ghost p0: nat, ghost nodes0: seq<Node>, field: nat) returns (id: nat)
      requires Valid() && !failed && builder.nodes == nodes0
      requires var list := ParseValues(Environment().words, position);
               if list.Got? then
                 ParseTest(Environment().words, p0) == Got(Member(field, list.tree[0], list.tree[1..]), list.next)
               else TestRefused(Environment(), p0, nesting, nodes0)
      modifies this, builder
      ensures Valid()
      ensures TestResult(Environment(), p0, old(nesting), nodes0,
                         Outcome(!failed, position, Emitted(builder.nodes, id)))
      ensures !failed ==> nesting == old(nesting)
      decreases |tokens| - position, 4
    {
      hide Words, TestResult, TestRefused, Positionals, TokensOk, Builder.Valid, ParseValues, ParseTest, Literals,
           Parser.Valid;
      var list;
      ghost var values;
      list, values := ParseList();
      if failed {
        id := Refuse(p0, old(nesting), nodes0);
        return;
      }
      id := AppendIn(p0, nodes0, field, list, values);
    }

    method AppendIn(ghost p0: nat, ghost nodes0: seq<Node>, field: nat, list: seq<Literal>,
                    ghost values: seq<Value>) returns (id: nat)
      requires Valid() && !failed && builder.nodes == nodes0 && values != [] && list == Literals(values)
      requires ParseTest(Environment().words, p0) == Got(Member(field, values[0], values[1..]), position)
      modifies this`failed, builder
      ensures Valid()
      ensures TestResult(Environment(), p0, nesting, nodes0, Outcome(!failed, position, Emitted(builder.nodes, id)))
    {
      hide Words, TestResult, TestRefused, Positionals, TokensOk, Builder.Valid, FitsIn, WellTyped, Admits, ParseTest,
           Literals;
      ghost var env := Environment();
      MemberResult(env, p0, nesting, nodes0, field, values, position);
      BuilderFits();
      AdmitsFits(env, nodes0, In(field, list));
      var ok;
      ok, id := builder.AddIn(field, list);
      failed := !ok;
      if failed {
        TestFails(env, p0, nesting, nodes0, Outcome(false, position, Emitted(builder.nodes, id)));
      }
    }

    /** The values of a membership list, through its closing parenthesis. */
    method ParseList() returns (list: seq<Literal>, ghost values: seq<Value>)
      requires Valid() && !failed
      modifies this, builder
      ensures Valid()
      ensures !failed <==> ParseValues(Environment().words, old(position)).Got?
      ensures !failed ==>
                ParseValues(Environment().words, old(position)) == Got(values, position) && list == Literals(values)
      ensures !failed ==> builder.nodes == old(builder.nodes) && nesting == old(nesting)
      decreases |tokens| - position, 3
    {
      hide Words, Positionals, TokensOk, Builder.Valid, ValuesPending, ParseValues, Literals, Parser.Valid, WordAt;
      NoLiterals();
      ghost var env, start := Environment(), position;
      list, values := [], [];
      NoValues(env.words, start);
      while true
        invariant Valid() && !failed && builder.nodes == old(builder.nodes) && nesting == old(nesting)
        invariant start <= position
        invariant ValuesPending(env.words, start, values, position) && list == Literals(values)
        decreases |tokens| - position
      {
        Readable();
        var literal;
        ghost var item;
        literal, item := ParseItem(start, values);
        if failed {
          return;
        }
        LiteralsSnoc(values, item);
        list, values := list + [literal], values + [item];
        if Current() != CommaToken {
          break;
        }
        Skip();
      }
      if Current() != RParenToken {
        GiveUp();
        return;
      }
      Skip();
    }

    /** One literal of a list, and what the token behind it means for the list. */
    method ParseItem(ghost start: nat, ghost values: seq<Value>) returns (literal: Literal, ghost item: Value)
      requires Valid() && !failed && ValuesPending(Environment().words, start, values, position)
      modifies this, builder
      ensures Valid()
      ensures failed ==> ParseValues(Environment().words, start).Fail?
      ensures !failed ==>
                && old(position) < position && builder.nodes == old(builder.nodes) && nesting == old(nesting)
                && LiteralOf(item) == literal
                && ItemEnds(Environment().words, start, values + [item], position, Current())
      decreases |tokens| - position, 2
    {
      hide Words, PrimaryResult, Positionals, TokensOk, Builder.Valid, ValuesPending, ParseValues, ParsePrimary,
           Parser.Valid, LiteralOf;
      ghost var env, p, nodes0 := Environment(), position, builder.nodes;
      literal, item := Bool(false), Constant(Bool(false));
      var value := ParsePrimaryOperand();
      ghost var read := Reading(!failed, position, builder.nodes, value);
      ValuesStep(env, start, values, p, old(nesting), nodes0, read);
      if failed || !value.LiteralOperand? {
        GiveUp();
        return;
      }
      PrimaryAdvance(env, p, nesting, nodes0, read);
      literal, item := value.literal, ParsePrimary(env.words, p).tree.value;
      Readable();
      CommaDecides(source, tokens, schema, position);
    }

    /** Record a failure. */
    method GiveUp()
      requires Valid()
      modifies this`failed
      ensures Valid() && failed
    {
      hide TokensOk, Positionals, Builder.Valid;
      failed := true;
    }

    method ParsePrimaryOperand() returns (operand: Operand)
      requires Valid() && !failed
      modifies this, builder
      ensures Valid()
      ensures PrimaryResult(Environment(), old(position), old(nesting), old(builder.nodes),
                            Reading(!failed, position, builder.nodes, operand))
      ensures !failed ==> nesting == old(nesting) && (operand.FieldOperand? ==> FieldOk(schema.kinds, operand.field))
      decreases |tokens| - position, 1
    {
      hide Words, WordOf, PrimaryResult, PrimaryOk, Positionals, TokensOk, Builder.Valid;
      ghost var env, p0 := Environment(), position;
      KindDecidesWord(source, tokens, schema, position);
      var kind := Current();
      if kind == LParenToken {
        operand := ReadParen();
        return;
      }
      if kind == MinusToken {
        operand := ReadMinus();
        return;
      }
      if kind == ParameterToken {
        operand := ReadParameter();
        return;
      }
      if kind == IdentifierToken {
        operand := ReadName();
        return;
      }
      operand := ReadWord();
    }

    /** Give up a primary that has no reading. */
    method RefusePrimary(ghost p0: nat, ghost nesting0: nat, ghost nodes0: seq<Node>) returns (operand: Operand)
      requires Valid() && !PrimaryOk(Environment(), p0, nesting0, nodes0)
      modifies this`failed
      ensures Valid() && failed
      ensures PrimaryResult(Environment(), p0, nesting0, nodes0, Reading(!failed, position, builder.nodes, operand))
    {
      hide Words, WordOf, PrimaryResult, PrimaryOk, Positionals, TokensOk, Builder.Valid;
      failed := true;
      operand := NullOperand;
      PrimaryFails(Environment(), p0, nesting0, nodes0, Reading(false, position, builder.nodes, operand));
    }

    /** A constant keyword, an integer, or quoted text. */
    method ReadWord() returns (operand: Operand)
      requires Valid() && !failed
      requires var kind := Current();
               kind != LParenToken && kind != MinusToken && kind != ParameterToken && kind != IdentifierToken
      modifies this`failed, this`position
      ensures Valid()
      ensures PrimaryResult(Environment(), old(position), nesting, builder.nodes,
                            Reading(!failed, position, builder.nodes, operand))
      ensures !failed ==> !operand.FieldOperand?
    {
      hide Words, WordOf, PrimaryResult, PrimaryOk, Positionals, TokensOk, Builder.Valid;
      ghost var env, p0, nodes0 := Environment(), position, builder.nodes;
      var kind := Current();
      if !IsConstant(kind) {
        NoWordReads(env, source, tokens, schema, p0, nesting, nodes0);
        operand := RefusePrimary(p0, nesting, nodes0);
        return;
      }
      ConstantReads(env, source, tokens, schema, p0, nesting, nodes0);
      operand := ReadConstant();
      Skip();
    }

    method ReadConstant() returns (operand: Operand)
      requires Valid() && IsConstant(Current())
      ensures TokenOk(source, tokens[position]) && operand == ConstantOperand(source, tokens[position])
    {
      hide Builder.Valid, Positionals, Decoded;
      var kind := Current();
      if kind == TrueToken || kind == FalseToken {
        operand := LiteralOperand(Bool(kind == TrueToken));
      } else if kind == NullToken {
        operand := NullOperand;
      } else if kind == IntegerToken {
        operand := LiteralOperand(Int(tokens[position].integer));
      } else {
        var text := AppendDecodedQuote("", Text(source, tokens[position]));
        assert text == Decoded(Text(source, tokens[position]));
        operand := LiteralOperand(Str(text));
      }
    }

    method ReadMinus() returns (operand: Operand)
      requires Valid() && !failed && Current() == MinusToken
      modifies this`failed, this`position
      ensures Valid()
      ensures PrimaryResult(Environment(), old(position), nesting, builder.nodes,
                            Reading(!failed, position, builder.nodes, operand))
      ensures !failed ==> !operand.FieldOperand?
    {
      hide Words, WordOf, PrimaryResult, PrimaryOk, Positionals, TokensOk, Builder.Valid;
      ghost var env, p0, nodes0 := Environment(), position, builder.nodes;
      MinusResult(env, source, tokens, schema, p0, nesting, nodes0);
      Skip();
      if Current() != IntegerToken {
        operand := RefusePrimary(p0, nesting, nodes0);
        return;
      }
      var value := tokens[position].integer;
      Skip();
      if value != MIN_INT64 {
        value := -value;
      }
      operand := LiteralOperand(Int(value));
    }

    method ReadParameter() returns (operand: Operand)
      requires Valid() && !failed && Current() == ParameterToken
      modifies this`failed, this`position, this`unnamed
      ensures Valid()
      ensures PrimaryResult(Environment(), old(position), nesting, builder.nodes,
                            Reading(!failed, position, builder.nodes, operand))
      ensures !failed ==> !operand.FieldOperand?
    {
      hide Words, WordOf, PrimaryResult, PrimaryOk, Positionals, TokensOk, Builder.Valid;
      ghost var env, p0, nodes0 := Environment(), position, builder.nodes;
      WordReads(env, p0, nesting, nodes0);
      TokenReadable(source, tokens, p0);
      var token := Text(source, tokens[position]);
      position := position + 1;
      WordsParameter(source, tokens, schema, p0);
      var literal := FindParameter(schema, token, unnamed);
      if token == "?" {
        unnamed := unnamed + 1;
      }
      if literal.None? {
        NothingReads(env, p0, nesting, nodes0);
        operand := RefusePrimary(p0, nesting, nodes0);
        return;
      }
      operand := LiteralOperand(literal.value);
    }

    method ReadName() returns (operand: Operand)
      requires Valid() && !failed && Current() == IdentifierToken
      modifies this`failed, this`position
      ensures Valid()
      ensures PrimaryResult(Environment(), old(position), nesting, builder.nodes,
                            Reading(!failed, position, builder.nodes, operand))
      ensures !failed ==> operand.FieldOperand? && FieldOk(schema.kinds, operand.field)
    {
      hide Words, WordOf, PrimaryResult, PrimaryOk, Positionals, TokensOk, Builder.Valid, FieldFrom, NameOf;
      ghost var env, p0, nodes0 := Environment(), position, builder.nodes;
      TokenReadable(source, tokens, p0);
      var token := Text(source, tokens[position]);
      NameResult(env, source, tokens, schema, p0, nesting, nodes0);
      if KindAt(tokens, position + 1) == LParenToken {
        operand := RefusePrimary(p0, nesting, nodes0);
        return;
      }
      Skip();
      var field := FindField(schema, token);
      if field == 0 {
        operand := RefusePrimary(p0, nesting, nodes0);
        return;
      }
      operand := FieldOperand(field);
    }

    method ReadParen() returns (operand: Operand)
      requires Valid() && !failed && Current() == LParenToken
      modifies this, builder
      ensures Valid()
      ensures PrimaryResult(Environment(), old(position), old(nesting), old(builder.nodes),
                            Reading(!failed, position, builder.nodes, operand))
      ensures !failed ==> nesting == old(nesting) && !operand.FieldOperand?
      decreases |tokens| - position, 0
    {
      hide Words, WordOf, PrimaryResult, PrimaryOk, Positionals, TokensOk, Builder.Valid, OrsResult;
      ghost var env, p0, nodes0 := Environment(), position, builder.nodes;
      ParenDecides(source, tokens, schema, p0);
      Skip();
      nesting := nesting + 1;
      if nesting > builder.limits.maxDepth {
        ParenTooDeep(env, p0, old(nesting), nodes0);
        operand := RefusePrimary(p0, old(nesting), nodes0);
        return;
      }
      var id := ParseOr();
      ParenResult(env, p0, old(nesting), nodes0, Outcome(!failed, position, Emitted(builder.nodes, id)));
      ParenDecides(source, tokens, schema, position);
      if failed || Current() != RParenToken {
        operand := RefusePrimary(p0, old(nesting), nodes0);
        return;
      }
      nesting := nesting - 1;
      Skip();
      operand := NodeOperand(id);
    }
  }

  // ----- the word of a token -----

  lemma TokenReadable(source: string, tokens: seq<Token>, p: nat)
    requires TokensOk(source, tokens) && p < |tokens|
    ensures TokenOk(source, tokens[p])
  {
  }

  lemma WordsAt(source: string, tokens: seq<Token>, schema: Schema, p: nat)
    requires TokensOk(source, tokens) && p < |tokens|
    ensures TokenOk(source, tokens[p])
    ensures WordAt(Words(source, tokens, schema), p) ==
            WordOf(source, tokens[p], schema, Positionals(source, tokens, p))
  {
    hide WordOf, Positionals;
  }

  lemma WordsConstant(source: string, tokens: seq<Token>, schema: Schema, p: nat)
    requires TokensOk(source, tokens) && p < |tokens|
    ensures TokenOk(source, tokens[p])
    ensures var token, word := tokens[p], WordAt(Words(source, tokens, schema), p);
            && (token.kind == TrueToken ==> word == ConstantWord(Bool(true)))
            && (token.kind == FalseToken ==> word == ConstantWord(Bool(false)))
            && (token.kind == NullToken ==> word == NullWord)
            && (token.kind == IntegerToken ==> word == NumberWord(token.integer))
            && (token.kind == StringToken ==> word == ConstantWord(Str(Decoded(Text(source, token)))))
  {
    WordsAt(source, tokens, schema, p);
    hide Words, Positionals;
  }

  lemma WordsBegin(source: string, tokens: seq<Token>, schema: Schema, p: nat)
    requires TokensOk(source, tokens)
    requires var kind := KindAt(tokens, p);
             && kind != LParenToken && kind != MinusToken && kind != ParameterToken && kind != IdentifierToken
             && kind != TrueToken && kind != FalseToken && kind != NullToken && kind != IntegerToken
             && kind != StringToken
    ensures !Begins(WordAt(Words(source, tokens, schema), p))
  {
    if p < |tokens| {
      WordsAt(source, tokens, schema, p);
    }
    hide Words, Positionals;
  }

  lemma WordsParameter(source: string, tokens: seq<Token>, schema: Schema, p: nat)
    requires TokensOk(source, tokens) && p < |tokens| && tokens[p].kind == ParameterToken
    ensures TokenOk(source, tokens[p])
    ensures var token, before := Text(source, tokens[p]), Positionals(source, tokens, p);
            && WordAt(Words(source, tokens, schema), p) ==
               (match ParameterOf(schema, token, before) case None => Other case Some(value) => ConstantWord(value))
            && Positionals(source, tokens, p + 1) == before + if token == "?" then 1 else 0
  {
    WordsAt(source, tokens, schema, p);
    hide Words;
  }

  lemma WordsName(source: string, tokens: seq<Token>, schema: Schema, p: nat)
    requires TokensOk(source, tokens) && p < |tokens| && tokens[p].kind == IdentifierToken
    ensures TokenOk(source, tokens[p])
    ensures var field := FieldFrom(schema.names, NameOf(schema.dialect, Text(source, tokens[p])), 0);
            WordAt(Words(source, tokens, schema), p) == if field == 0 then Other else NameWord(field)
  {
    WordsAt(source, tokens, schema, p);
    hide Words, Positionals;
  }

  predicate IsConstant(kind: TokenKind) {
    kind == TrueToken || kind == FalseToken || kind == NullToken || kind == IntegerToken || kind == StringToken
  }

  function ConstantOperand(source: string, token: Token): Operand
    requires TokenOk(source, token)
  {
    match token.kind
    case TrueToken => LiteralOperand(Bool(true))
    case FalseToken => LiteralOperand(Bool(false))
    case IntegerToken => LiteralOperand(Int(token.integer))
    case StringToken => LiteralOperand(Str(Decoded(Text(source, token))))
    case _ => NullOperand
  }

  lemma ConstantReads(env: Env, source: string, tokens: seq<Token>, schema: Schema, p: nat, nesting: nat,
                      nodes: seq<Node>)
    requires env.words == Words(source, tokens, schema) && TokensOk(source, tokens) && p < |tokens|
    requires IsConstant(tokens[p].kind)
    ensures TokenOk(source, tokens[p])
    ensures PrimaryResult(env, p, nesting, nodes, Reading(true, p + 1, nodes, ConstantOperand(source, tokens[p])))
  {
    hide Words, PrimaryResult, TokensOk, Decoded;
    WordsConstant(source, tokens, schema, p);
    WordReads(env, p, nesting, nodes);
  }

  lemma NoWordReads(env: Env, source: string, tokens: seq<Token>, schema: Schema, p: nat, nesting: nat,
                    nodes: seq<Node>)
    requires env.words == Words(source, tokens, schema) && TokensOk(source, tokens)
    requires var kind := KindAt(tokens, p);
             && !IsConstant(kind) && kind != LParenToken && kind != MinusToken && kind != ParameterToken
             && kind != IdentifierToken
    ensures !PrimaryOk(env, p, nesting, nodes)
  {
    hide Words, PrimaryOk, TokensOk;
    WordsBegin(source, tokens, schema, p);
    NothingReads(env, p, nesting, nodes);
  }

  lemma NotsChild(env: Env, p: nat, nesting: nat, nodes: seq<Node>, out: Outcome)
    requires NotsResult(env, p, nesting, nodes, out) && out.ok
    ensures 1 <= out.e.id <= |out.e.nodes|
  {
    hide NotsResult;
    NotsAdvance(env, p, nesting, nodes, out);
  }

  lemma MinusResult(env: Env, source: string, tokens: seq<Token>, schema: Schema, p: nat, nesting: nat,
                    nodes: seq<Node>)
    requires env.words == Words(source, tokens, schema) && TokensOk(source, tokens) && KindAt(tokens, p) == MinusToken
    ensures if KindAt(tokens, p + 1) == IntegerToken then
              PrimaryResult(env, p, nesting, nodes,
                            Reading(true, p + 2, nodes, LiteralOperand(Int(Negate(tokens[p + 1].integer)))))
            else !PrimaryOk(env, p, nesting, nodes)
  {
    hide Words, PrimaryResult, PrimaryOk, TokensOk;
    KindDecidesWord(source, tokens, schema, p);
    KindDecidesWord(source, tokens, schema, p + 1);
    MinusReads(env, p, nesting, nodes);
    if KindAt(tokens, p + 1) == IntegerToken {
      WordsConstant(source, tokens, schema, p + 1);
    }
  }

  lemma NameResult(env: Env, source: string, tokens: seq<Token>, schema: Schema, p: nat, nesting: nat, nodes: seq<Node>)
    requires env.words == Words(source, tokens, schema) && TokensOk(source, tokens) && SchemaOk(schema) && p < |tokens|
    requires tokens[p].kind == IdentifierToken
    ensures TokenOk(source, tokens[p])
    ensures var field := FieldFrom(schema.names, NameOf(schema.dialect, Text(source, tokens[p])), 0);
            if KindAt(tokens, p + 1) == LParenToken || field == 0 then !PrimaryOk(env, p, nesting, nodes)
            else FieldOk(schema.kinds, field) &&
                 PrimaryResult(env, p, nesting, nodes, Reading(true, p + 1, nodes, FieldOperand(field)))
  {
    hide Words, PrimaryResult, PrimaryOk, TokensOk, NameOf;
    KindDecidesWord(source, tokens, schema, p + 1);
    WordsName(source, tokens, schema, p);
    if WordAt(env.words, p).NameWord? {
      NameReads(env, p, nesting, nodes);
    } else {
      NothingReads(env, p, nesting, nodes);
    }
  }

  lemma NoValues(ws: seq<Word>, start: nat)
    ensures ValuesPending(ws, start, [], start)
  {
    var r := ParseValues(ws, start);
    if r.Got? {
      assert [] + r.tree == r.tree;
    }
  }

  lemma NotBoolean(env: Env, p: nat, nesting: nat, nodes: seq<Node>, field: nat, next: nat)
    requires CompareOutcome(env, p, nesting, nodes, Compare(field, Equal, Bool(true)), next)
    requires FieldOk(env.kinds, field) && env.kinds[field - 1] != BooleanKind
    ensures TestRefused(env, p, nesting, nodes)
  {
  }
}
