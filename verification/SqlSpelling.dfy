/** What lexing promises: a source lexes to a list of tokens exactly when it is cut into the
    texts of these tokens. */
module SqlSpellings {
  import opened SqlTokens
  import opened SqlLexers
  import opened SqlVocabulary
  import opened SqlTokenSpellings

  // ----- between tokens -----

  lemma PairIs(source: string, k: nat, two: string)
    requires |two| == 2
    ensures Pair(source, k, two) <==> k + 2 <= |source| && source[k] == two[0] && source[k + 1] == two[1]
  {
    if k + 2 <= |source| {
      assert source[k..k + 2] == [source[k], source[k + 1]];
    }
  }

  lemma LineIs(source: string, start: nat, end: nat)
    requires Pair(source, start, "--")
    ensures LineComment(source, start, end) <==> RunEnd(source, start + 2, c => c != '\n') == end
  {
    hide RunEnd, Pair;
    PairIs(source, start, "--");
    RunStands(source, start + 1, end, c => c != '\n');
    if start + 2 <= end <= |source| {
      var text := source[start..end];
      assert text[0] == '-' && text[1] == '-' && forall k :: 0 <= k < |text| ==> text[k] == source[start + k];
      if '\n' !in text {
        forall k | start + 2 <= k < end
          ensures source[k] != '\n'
        {
          assert text[k - start] in text;
        }
      }
    }
  }

  lemma {:induction false} BlockEnds(source: string, offset: nat, end: nat)
    requires offset <= |source|
    ensures CommentEnd(source, offset) == end != 0 <==>
            && offset + 2 <= end <= |source| && Pair(source, end - 2, "*/")
            && forall k: nat :: offset <= k < end - 2 ==> !Pair(source, k, "/*") && !Pair(source, k, "*/")
    decreases |source| - offset
  {
    hide Pair;
    PairIs(source, offset, "/*");
    PairIs(source, offset, "*/");
    if offset + 1 < |source| && !Pair(source, offset, "/*") && !Pair(source, offset, "*/") {
      BlockEnds(source, offset + 1, end);
    }
  }

  lemma BlankSteps(lex: Lexicon, source: string, start: nat, end: nat, afterMinus: bool)
    requires start < |source|
    ensures StepAt(lex, source, start, afterMinus) == Blank(end) <==>
            (IsBlank(source[start]) && end == start + 1) || Comment(source, start, end)
  {
    hide TokenStep, Pair, RunEnd, CommentEnd;
    PairIs(source, start, "--");
    PairIs(source, start, "/*");
    TokenIsNoBlank(lex, source, start, afterMinus);
    if Pair(source, start, "--") {
      LineIs(source, start, end);
    }
    if Pair(source, start, "/*") {
      BlockEnds(source, start + 2, end);
    }
  }

  lemma TokenIsNoBlank(lex: Lexicon, source: string, start: nat, afterMinus: bool)
    requires start < |source|
    ensures !TokenStep(lex, source, start, afterMinus).Blank?
  {
    hide QuoteFrom, RunEnd, Decimal, KeywordKind;
  }

  lemma {:induction false} GapJoins(source: string, a: nat, b: nat, c: nat)
    requires Gap(source, a, b) && Gap(source, b, c)
    ensures Gap(source, a, c)
    decreases b - a
  {
    if a < b {
      if IsBlank(source[a]) && Gap(source, a + 1, b) {
        GapJoins(source, a + 1, b, c);
      } else {
        var mid: nat :| a < mid <= b && Comment(source, a, mid) && Gap(source, mid, b);
        GapJoins(source, mid, b, c);
      }
    }
  }

  /** Lexing passes over a gap. */
  lemma {:induction false} GapSkips(lex: Lexicon, source: string, a: nat, b: nat, tokens: seq<Token>)
    requires Gap(source, a, b)
    ensures LexFrom(lex, source, a, tokens) == LexFrom(lex, source, b, tokens)
    decreases b - a
  {
    hide StepAt, Comment;
    if a < b {
      if IsBlank(source[a]) && Gap(source, a + 1, b) {
        BlankSteps(lex, source, a, a + 1, AfterMinus(tokens));
        GapSkips(lex, source, a + 1, b, tokens);
      } else {
        var mid: nat :| a < mid <= b && Comment(source, a, mid) && Gap(source, mid, b);
        BlankSteps(lex, source, a, mid, AfterMinus(tokens));
        GapSkips(lex, source, mid, b, tokens);
      }
    }
  }

  // ----- a whole source -----

  ghost function EndToken(source: string): Token {
    Token(EofToken, |source|, |source|, 0)
  }

  function SpansOf(tokens: seq<Token>): seq<Span> {
    seq(|tokens|, k requires 0 <= k < |tokens| => Span(tokens[k].start, tokens[k].end))
  }

  ghost predicate Preceded(tokens: seq<Token>, k: nat)
    requires k < |tokens|
  {
    k > 0 && tokens[k - 1].kind == MinusToken
  }

  /** The source is cut into the texts of the tokens. */
  ghost predicate Laid(lex: Lexicon, source: string, tokens: seq<Token>) {
    && Cut(lex, source, SpansOf(tokens))
    && forall k :: 0 <= k < |tokens| ==>
         Says(lex, tokens[k].kind, tokens[k].integer, Slice(source, SpansOf(tokens), k), Preceded(tokens, k))
  }

  function EndOf(tokens: seq<Token>, k: nat): nat
    requires k <= |tokens|
  {
    if k == 0 then 0 else tokens[k - 1].end
  }

  ghost predicate TokenLaid(lex: Lexicon, source: string, tokens: seq<Token>, k: nat)
    requires k < |tokens|
  {
    var token := tokens[k];
    && Gap(source, EndOf(tokens, k), token.start)
    && Stands(lex, source, token.start, token.end, token.kind, token.integer, Preceded(tokens, k))
  }

  /** The tokens are laid out up to an offset. */
  ghost predicate LaidTo(lex: Lexicon, source: string, tokens: seq<Token>, offset: nat) {
    && (forall k: nat :: k < |tokens| ==> TokenLaid(lex, source, tokens, k))
    && Gap(source, EndOf(tokens, |tokens|), offset)
  }

  lemma LaidIs(lex: Lexicon, source: string, tokens: seq<Token>)
    ensures Laid(lex, source, tokens) <==> LaidTo(lex, source, tokens, |source|)
  {
    hide Says, Gap, GoesOn;
    var spans := SpansOf(tokens);
    assert Before(spans, |spans|) == EndOf(tokens, |tokens|);
    forall k: nat | k < |tokens|
      ensures TokenLaid(lex, source, tokens, k) <==>
              && SpanOk(lex, source, Before(spans, k), spans[k])
              && Says(lex, tokens[k].kind, tokens[k].integer, Slice(source, spans, k), Preceded(tokens, k))
    {
      assert Before(spans, k) == EndOf(tokens, k) && spans[k] == Span(tokens[k].start, tokens[k].end);
    }
  }

  lemma LaidSnoc(lex: Lexicon, source: string, tokens: seq<Token>, token: Token)
    requires LaidTo(lex, source, tokens, token.start)
    requires Stands(lex, source, token.start, token.end, token.kind, token.integer, AfterMinus(tokens))
    ensures LaidTo(lex, source, tokens + [token], token.end)
  {
    hide Stands, Gap;
    var more := tokens + [token];
    forall k: nat | k < |more|
      ensures TokenLaid(lex, source, more, k)
    {
      if k < |tokens| {
        assert TokenLaid(lex, source, tokens, k);
        assert more[k] == tokens[k] && EndOf(more, k) == EndOf(tokens, k) && Preceded(more, k) == Preceded(tokens, k);
      }
    }
    NoGap(lex, source, token, AfterMinus(tokens));
  }

  lemma NoGap(lex: Lexicon, source: string, token: Token, afterMinus: bool)
    requires Stands(lex, source, token.start, token.end, token.kind, token.integer, afterMinus)
    ensures Gap(source, token.end, token.end)
  {
  }

  lemma BlankIsGap(source: string, start: nat, end: nat)
    requires start < |source| && ((IsBlank(source[start]) && end == start + 1) || Comment(source, start, end))
    ensures Gap(source, start, end)
  {
    assert end <= |source| && Gap(source, end, end);
  }

  /** What is lexed is laid out. */
  lemma {:induction false} LexedIsLaid(lex: Lexicon, source: string, offset: nat, tokens: seq<Token>, all: seq<Token>)
    requires offset <= |source| && LaidTo(lex, source, tokens, offset)
    requires LexFrom(lex, source, offset, tokens) == Lexed(all)
    ensures all != [] && all[|all| - 1] == EndToken(source)
    ensures LaidTo(lex, source, all[..|all| - 1], |source|) && |all| <= lex.maxTokens
    decreases |source| - offset
  {
    hide StepAt, TokenLaid, Gap, Stands, Comment;
    if offset == |source| {
      assert all == tokens + [EndToken(source)];
      assert all[..|all| - 1] == tokens;
    } else {
      var step := StepAt(lex, source, offset, AfterMinus(tokens));
      StepAdvances(lex, source, offset, AfterMinus(tokens));
      if step.Blank? {
        BlankSteps(lex, source, offset, step.end, AfterMinus(tokens));
        BlankIsGap(source, offset, step.end);
        GapJoins(source, EndOf(tokens, |tokens|), offset, step.end);
        LexedIsLaid(lex, source, step.end, tokens, all);
      } else {
        var token := Token(step.kind, offset, step.end, step.integer);
        StepStands(lex, source, offset, step.end, step.kind, step.integer, AfterMinus(tokens));
        LaidSnoc(lex, source, tokens, token);
        LexedIsLaid(lex, source, step.end, tokens + [token], all);
      }
    }
  }

  /** What is laid out is lexed. */
  lemma {:induction false} LaidIsLexed(lex: Lexicon, source: string, tokens: seq<Token>, k: nat)
    requires k <= |tokens| && LaidTo(lex, source, tokens, |source|) && |tokens| + 1 <= lex.maxTokens
    ensures LexFrom(lex, source, EndOf(tokens, k), tokens[..k]) ==
            Lexed(tokens + [EndToken(source)])
    decreases |tokens| - k
  {
    hide StepAt, Gap, Stands;
    if k == |tokens| {
      GapSkips(lex, source, EndOf(tokens, k), |source|, tokens[..k]);
      assert tokens[..k] == tokens;
    } else {
      var token, front := tokens[k], tokens[..k];
      assert TokenLaid(lex, source, tokens, k);
      assert AfterMinus(front) == Preceded(tokens, k);
      GapSkips(lex, source, EndOf(tokens, k), token.start, front);
      StandsSpan(lex, source, token, Preceded(tokens, k));
      StepStands(lex, source, token.start, token.end, token.kind, token.integer, Preceded(tokens, k));
      assert tokens[..k + 1] == front + [token];
      LaidIsLexed(lex, source, tokens, k + 1);
    }
  }

  lemma StandsSpan(lex: Lexicon, source: string, token: Token, afterMinus: bool)
    requires Stands(lex, source, token.start, token.end, token.kind, token.integer, afterMinus)
    ensures token.start < token.end <= |source| && token.kind != EofToken
  {
  }

  /** A source lexes to tokens exactly when it is cut into their texts. */
  lemma LexesExactly(lex: Lexicon, source: string, tokens: seq<Token>)
    ensures LexFrom(lex, source, 0, []) == Lexed(tokens + [EndToken(source)]) <==>
            Laid(lex, source, tokens) && |tokens| + 1 <= lex.maxTokens
  {
    hide LexFrom, Laid, TokenLaid;
    LaidIs(lex, source, tokens);
    var all := tokens + [EndToken(source)];
    assert all[..|all| - 1] == tokens;
    if LexFrom(lex, source, 0, []) == Lexed(all) {
      LexedIsLaid(lex, source, 0, [], all);
    }
    if LaidTo(lex, source, tokens, |source|) && |tokens| + 1 <= lex.maxTokens {
      LaidIsLexed(lex, source, tokens, 0);
      assert tokens[..0] == [];
    }
  }

  /** The tokens of a source: slices of it, ended once. */
  ghost predicate WellLexed(source: string, tokens: seq<Token>) {
    && tokens != [] && tokens[|tokens| - 1] == EndToken(source) && TokensOk(source, tokens)
    && forall k :: 0 <= k < |tokens| - 1 ==> tokens[k].kind != EofToken
  }

  lemma LexedIsWell(lex: Lexicon, source: string, tokens: seq<Token>)
    requires LexFrom(lex, source, 0, []) == Lexed(tokens)
    ensures WellLexed(source, tokens) && Laid(lex, source, tokens[..|tokens| - 1])
  {
    hide LexFrom, Laid, Stands;
    LexedIsLaid(lex, source, 0, [], tokens);
    var init := tokens[..|tokens| - 1];
    LaidIs(lex, source, init);
    forall k: nat | k < |init|
      ensures TokenOk(source, tokens[k]) && tokens[k].kind != EofToken
    {
      assert TokenLaid(lex, source, init, k);
      StandsSpan(lex, source, init[k], Preceded(init, k));
    }
  }

  /** Cut a source into tokens. */
  method Lex(lex: Lexicon, source: string) returns (result: Lexed)
    ensures result == LexFrom(lex, source, 0, [])
    ensures forall tokens :: Laid(lex, source, tokens) && |tokens| + 1 <= lex.maxTokens <==>
              result == Lexed(tokens + [EndToken(source)])
  {
    hide StepAt, Laid, EndToken;
    forall tokens
      ensures Laid(lex, source, tokens) && |tokens| + 1 <= lex.maxTokens <==>
              LexFrom(lex, source, 0, []) == Lexed(tokens + [EndToken(source)])
    {
      LexesExactly(lex, source, tokens);
    }
    var offset, tokens := 0, [];
    while offset < |source|
      invariant offset <= |source| && LexFrom(lex, source, offset, tokens) == LexFrom(lex, source, 0, [])
    {
      StepAdvances(lex, source, offset, AfterMinus(tokens));
      var step := ScanStep(lex, source, offset, AfterMinus(tokens));
      if step.Bad? {
        return LexError;
      }
      if step.Tok? {
        if |tokens| + 1 > lex.maxTokens {
          return LexError;
        }
        tokens := tokens + [Token(step.kind, offset, step.end, step.integer)];
      }
      offset := step.end;
    }
    result := Push(lex, tokens, Token(EofToken, |source|, |source|, 0));
  }

  // ----- texts without their tokens -----

  /** What each text of a cut source says. */
  ghost predicate Told(lex: Lexicon, source: string, spans: seq<Span>, said: seq<(TokenKind, int)>) {
    && |said| == |spans| && Cut(lex, source, spans)
    && forall k :: 0 <= k < |spans| ==>
         Says(lex, said[k].0, said[k].1, Slice(source, spans, k), Slice(source, spans, k - 1) == "-")
  }

  function TokensFor(spans: seq<Span>, said: seq<(TokenKind, int)>): seq<Token>
    requires |said| == |spans|
  {
    seq(|spans|, k requires 0 <= k < |spans| => Token(said[k].0, spans[k].start, spans[k].end, said[k].1))
  }

  lemma MinusSays(lex: Lexicon, kind: TokenKind, integer: int, text: string, afterMinus: bool)
    requires Says(lex, kind, integer, text, afterMinus)
    ensures kind == MinusToken <==> text == "-"
  {
    hide Says, Signs;
    FirstTells(lex, kind, integer, text, afterMinus);
    if Signs(kind) != [] {
      SaysSign(lex, kind, integer, text, afterMinus);
      DashIsMinus(kind, text);
    }
    MinusSigns();
  }

  lemma MinusSigns()
    ensures Signs(MinusToken) == ["-"]
  {
  }

  lemma DashIsMinus(kind: TokenKind, text: string)
    requires text in Signs(kind)
    ensures text == "-" <==> kind == MinusToken
  {
  }

  /** Texts that say something are the tokens of what they say. */
  lemma ToldIsLaid(lex: Lexicon, source: string, spans: seq<Span>, said: seq<(TokenKind, int)>)
    requires Told(lex, source, spans, said)
    ensures Laid(lex, source, TokensFor(spans, said)) && SpansOf(TokensFor(spans, said)) == spans
  {
    hide Says, Cut;
    var tokens := TokensFor(spans, said);
    assert SpansOf(tokens) == spans;
    forall k | 0 <= k < |tokens|
      ensures Says(lex, tokens[k].kind, tokens[k].integer, Slice(source, spans, k), Preceded(tokens, k))
    {
      assert Says(lex, said[k].0, said[k].1, Slice(source, spans, k), Slice(source, spans, k - 1) == "-");
      if k > 0 {
        MinusSays(lex, said[k - 1].0, said[k - 1].1, Slice(source, spans, k - 1), Slice(source, spans, k - 2) == "-");
      } else {
        assert Slice(source, spans, k - 1) == "";
      }
    }
  }

  lemma LaidIsTold(lex: Lexicon, source: string, tokens: seq<Token>, k: nat)
    requires Laid(lex, source, tokens) && k < |tokens|
    ensures Preceded(tokens, k) == (Slice(source, SpansOf(tokens), k - 1) == "-")
    ensures TokenOk(source, tokens[k]) && Text(source, tokens[k]) == Slice(source, SpansOf(tokens), k)
  {
    hide Says, Gap, GoesOn;
    var spans := SpansOf(tokens);
    if k > 0 {
      MinusSays(lex, tokens[k - 1].kind, tokens[k - 1].integer, Slice(source, spans, k - 1), Preceded(tokens, k - 1));
    }
    assert SpanOk(lex, source, Before(spans, k), spans[k]);
  }
}
