/** Parsing and printing SQL expressions are inverse: what the reference parser accepts is
    the print of its tree, and the print of every tree parses to that tree. */
module SqlRoundTrip {
  import opened SemanticTables
  import opened SqlGrammar

  // ----- what is parsed prints back -----

  lemma ValuePrints(ws: seq<Word>, p: nat)
    requires ParsePrimary(ws, p).Got? && ParsePrimary(ws, p).tree.Scalar?
    ensures var r := ParsePrimary(ws, p);
            At(ws, p, PrintValue(r.tree.value)) && r.next == p + |PrintValue(r.tree.value)|
  {
    AtWord(ws, p, WordAt(ws, p));
    if WordAt(ws, p) == MinusWord {
      AtWord(ws, p + 1, WordAt(ws, p + 1));
      AtConcat(ws, p, [MinusWord], [WordAt(ws, p + 1)]);
    }
  }

  lemma {:induction false} OrsPrints(ws: seq<Word>, p: nat)
    requires ParseOrs(ws, p).Got?
    ensures var r := ParseOrs(ws, p); At(ws, p, PrintOrs(r.tree)) && r.next == p + |PrintOrs(r.tree)|
    decreases |ws| - p, 5
  {
    hide At;
    AndsPrints(ws, p);
    var first := ParseAnds(ws, p);
    if WordAt(ws, first.next) == OrWord {
      OrsPrints(ws, first.next + 1);
      var text, rest := PrintAnds(first.tree), PrintOrs(ParseOrs(ws, first.next + 1).tree);
      AtWord(ws, first.next, OrWord);
      AtConcat(ws, p, text, [OrWord]);
      AtConcat(ws, p, text + [OrWord], rest);
    }
  }

  lemma {:induction false} AndsPrints(ws: seq<Word>, p: nat)
    requires ParseAnds(ws, p).Got?
    ensures var r := ParseAnds(ws, p); At(ws, p, PrintAnds(r.tree)) && r.next == p + |PrintAnds(r.tree)|
    decreases |ws| - p, 4
  {
    hide At, PrintNots, ParseNots;
    NotsPrints(ws, p);
    var first := ParseNots(ws, p);
    if WordAt(ws, first.next) == AndWord {
      AndsPrints(ws, first.next + 1);
      var text, rest := PrintNots(first.tree), PrintAnds(ParseAnds(ws, first.next + 1).tree);
      AtWord(ws, first.next, AndWord);
      AtConcat(ws, p, text, [AndWord]);
      AtConcat(ws, p, text + [AndWord], rest);
    }
  }

  lemma {:induction false} NotsPrints(ws: seq<Word>, p: nat)
    requires ParseNots(ws, p).Got?
    ensures var r := ParseNots(ws, p); At(ws, p, PrintNots(r.tree)) && r.next == p + |PrintNots(r.tree)|
    decreases |ws| - p, 3
  {
    hide At;
    if ws[p] == NotWord {
      NotsPrints(ws, p + 1);
      AtWord(ws, p, NotWord);
      AtConcat(ws, p, [NotWord], PrintNots(ParseNots(ws, p + 1).tree));
    } else {
      TestPrints(ws, p);
    }
  }

  lemma {:induction false} TestPrints(ws: seq<Word>, p: nat)
    requires ParseTest(ws, p).Got?
    ensures var r := ParseTest(ws, p); At(ws, p, PrintTest(r.tree)) && r.next == p + |PrintTest(r.tree)|
    decreases |ws| - p, 2
  {
    hide At;
    PrimaryPrints(ws, p);
    var left := ParsePrimary(ws, p);
    var q := left.next;
    var word := WordAt(ws, q);
    if word == IsWord {
      IsPrints(ws, p, q, left.tree);
    } else if word == InWord {
      InPrints(ws, p, q, left.tree);
    } else if word.CompareWord? {
      ComparedPrints(ws, p, q, left.tree, word.op);
    }
  }

  lemma IsPrints(ws: seq<Word>, p: nat, q: nat, left: Primary)
    requires At(ws, p, PrintPrimary(left)) && q == p + |PrintPrimary(left)| && WordAt(ws, q) == IsWord
    requires ParseIs(ws, q, left).Got?
    ensures var r := ParseIs(ws, q, left); At(ws, p, PrintTest(r.tree)) && r.next == p + |PrintTest(r.tree)|
  {
    var text := PrintTest(ParseIs(ws, q, left).tree);
    assert ws[p..p + |text|] == text by {
      assert ws[p..p + 1][0] == ws[p];
    }
  }

  lemma {:induction false} InPrints(ws: seq<Word>, p: nat, q: nat, left: Primary)
    requires At(ws, p, PrintPrimary(left)) && q == p + |PrintPrimary(left)| && WordAt(ws, q) == InWord
    requires ParseIn(ws, q, left).Got?
    ensures var r := ParseIn(ws, q, left); At(ws, p, PrintTest(r.tree)) && r.next == p + |PrintTest(r.tree)|
    decreases |ws| - q, 2
  {
    hide At, ParseValues, PrintValues;
    ValuesPrint(ws, q + 2);
    AtWord(ws, q, InWord);
    AtWord(ws, q + 1, OpenParen);
    var list := ParseValues(ws, q + 2).tree;
    InAt(ws, p, NameWord(left.field), PrintValues(list[0], list[1..]));
  }

  lemma InAt(ws: seq<Word>, p: nat, name: Word, values: seq<Word>)
    ensures At(ws, p, [name, InWord, OpenParen] + values) <==>
            (At(ws, p, [name]) && At(ws, p + 1, [InWord]) && At(ws, p + 2, [OpenParen]) && At(ws, p + 3, values))
  {
    hide At;
    assert [name, InWord, OpenParen] == [name] + [InWord, OpenParen] && [InWord, OpenParen] == [InWord] + [OpenParen];
    AtConcat(ws, p, [name, InWord, OpenParen], values);
    AtConcat(ws, p, [name], [InWord, OpenParen]);
    AtConcat(ws, p + 1, [InWord], [OpenParen]);
  }

  lemma {:induction false} ValuesPrint(ws: seq<Word>, p: nat)
    requires ParseValues(ws, p).Got?
    ensures var r := ParseValues(ws, p);
            At(ws, p, PrintValues(r.tree[0], r.tree[1..])) && r.next == p + |PrintValues(r.tree[0], r.tree[1..])|
    decreases |ws| - p, 2
  {
    hide At, ParsePrimary, PrintValue;
    ValuePrints(ws, p);
    var item := ParsePrimary(ws, p);
    var text, q := PrintValue(item.tree.value), item.next;
    AtWord(ws, q, WordAt(ws, q));
    if WordAt(ws, q) == CloseParen {
      AtConcat(ws, p, text, [CloseParen]);
    } else {
      ValuesPrint(ws, q + 1);
      var rest := ParseValues(ws, q + 1).tree;
      assert ([item.tree.value] + rest)[1..] == rest;
      var more := PrintValues(rest[0], rest[1..]);
      AtConcat(ws, q, [CommaWord], more);
      AtConcat(ws, p, text, [CommaWord] + more);
    }
  }

  lemma {:induction false} ComparedPrints(ws: seq<Word>, p: nat, q: nat, left: Primary, op: Operation)
    requires At(ws, p, PrintPrimary(left)) && q == p + |PrintPrimary(left)| && WordAt(ws, q) == CompareWord(op)
    requires ParseCompared(ws, q, left, op).Got?
    ensures var r := ParseCompared(ws, q, left, op); At(ws, p, PrintTest(r.tree)) && r.next == p + |PrintTest(r.tree)|
    decreases |ws| - q, 2
  {
    hide At;
    PrimaryPrints(ws, q + 1);
    var right := ParsePrimary(ws, q + 1).tree;
    var a, b := PrintPrimary(left), PrintPrimary(right);
    AtWord(ws, q, CompareWord(op));
    AtConcat(ws, p, a, [CompareWord(op)]);
    AtConcat(ws, p, a + [CompareWord(op)], b);
    if left.FieldRef? {
      assert a + [CompareWord(op)] == [NameWord(left.field), CompareWord(op)];
    } else {
      assert a + [CompareWord(op)] + b == a + [CompareWord(op), NameWord(right.field)];
    }
  }

  lemma {:induction false} PrimaryPrints(ws: seq<Word>, p: nat)
    requires ParsePrimary(ws, p).Got?
    ensures var r := ParsePrimary(ws, p); At(ws, p, PrintPrimary(r.tree)) && r.next == p + |PrintPrimary(r.tree)|
    decreases |ws| - p, 1
  {
    hide At;
    AtWord(ws, p, WordAt(ws, p));
    if WordAt(ws, p) == OpenParen {
      OrsPrints(ws, p + 1);
      var inner := ParseOrs(ws, p + 1);
      var text := PrintOrs(inner.tree);
      AtWord(ws, inner.next, CloseParen);
      AtConcat(ws, p, [OpenParen], text);
      AtConcat(ws, p, [OpenParen] + text, [CloseParen]);
    } else if ParsePrimary(ws, p).tree.Scalar? {
      ValuePrints(ws, p);
    }
  }

  // ----- what is printed parses back -----

  /** A word that cannot continue a test. */
  predicate Stops(word: Word) {
    word == AndWord || word == OrWord || word == CloseParen || word == CommaWord || word == Other
  }

  lemma ValueParses(ws: seq<Word>, p: nat, value: Value)
    requires At(ws, p, PrintValue(value))
    ensures ParsePrimary(ws, p) == Got(Scalar(value), p + |PrintValue(value)|)
  {
    var text := PrintValue(value);
    assert ws[p] == text[0] by { assert ws[p..p + |text|][0] == ws[p]; }
    if value.Minus? {
      assert ws[p + 1] == text[1] by { assert ws[p..p + |text|][1] == ws[p + 1]; }
    }
  }

  lemma {:induction false} ValuesParse(ws: seq<Word>, p: nat, first: Value, rest: seq<Value>)
    requires At(ws, p, PrintValues(first, rest))
    ensures ParseValues(ws, p) == Got([first] + rest, p + |PrintValues(first, rest)|)
    decreases |rest|
  {
    hide At, ParsePrimary, PrintValue;
    var text := PrintValue(first);
    var q := p + |text|;
    if rest == [] {
      AtConcat(ws, p, text, [CloseParen]);
      AtWord(ws, q, CloseParen);
      ValueParses(ws, p, first);
      assert [first] + rest == [first];
    } else {
      var more := PrintValues(rest[0], rest[1..]);
      AtConcat(ws, p, text, [CommaWord] + more);
      AtConcat(ws, q, [CommaWord], more);
      AtWord(ws, q, CommaWord);
      ValueParses(ws, p, first);
      ValuesParse(ws, q + 1, rest[0], rest[1..]);
      assert [rest[0]] + rest[1..] == rest;
    }
  }

  lemma {:induction false} OrsParse(ws: seq<Word>, p: nat, t: Ors)
    requires At(ws, p, PrintOrs(t))
    requires var end := WordAt(ws, p + |PrintOrs(t)|); Stops(end) && end != AndWord && end != OrWord
    ensures ParseOrs(ws, p) == Got(t, p + |PrintOrs(t)|)
    decreases t
  {
    hide At;
    if t.LastOr? {
      AndsParse(ws, p, t.term);
    } else {
      var text, rest := PrintAnds(t.term), PrintOrs(t.rest);
      AtConcat(ws, p, text + [OrWord], rest);
      AtConcat(ws, p, text, [OrWord]);
      AtWord(ws, p + |text|, OrWord);
      AndsParse(ws, p, t.term);
      OrsParse(ws, p + |text| + 1, t.rest);
    }
  }

  lemma {:induction false} AndsParse(ws: seq<Word>, p: nat, t: Ands)
    requires At(ws, p, PrintAnds(t))
    requires var end := WordAt(ws, p + |PrintAnds(t)|); Stops(end) && end != AndWord
    ensures ParseAnds(ws, p) == Got(t, p + |PrintAnds(t)|) && p < |ws|
    decreases t
  {
    hide At, PrintNots, ParseNots;
    if t.LastAnd? {
      NotsParse(ws, p, t.term);
    } else {
      var text, rest := PrintNots(t.term), PrintAnds(t.rest);
      AtConcat(ws, p, text + [AndWord], rest);
      AtConcat(ws, p, text, [AndWord]);
      AtWord(ws, p + |text|, AndWord);
      NotsParse(ws, p, t.term);
      AndsParse(ws, p + |text| + 1, t.rest);
    }
  }

  lemma {:induction false} NotsParse(ws: seq<Word>, p: nat, t: Nots)
    requires At(ws, p, PrintNots(t)) && Stops(WordAt(ws, p + |PrintNots(t)|))
    ensures ParseNots(ws, p) == Got(t, p + |PrintNots(t)|) && p < |ws|
    decreases t
  {
    hide At;
    if t.Negated? {
      AtConcat(ws, p, [NotWord], PrintNots(t.inner));
      AtWord(ws, p, NotWord);
      NotsParse(ws, p + 1, t.inner);
    } else {
      TestParses(ws, p, t.test);
    }
  }

  lemma {:induction false} TestParses(ws: seq<Word>, p: nat, t: Test)
    requires At(ws, p, PrintTest(t)) && Stops(WordAt(ws, p + |PrintTest(t)|))
    ensures ParseTest(ws, p) == Got(t, p + |PrintTest(t)|) && p < |ws| && ws[p] != NotWord
    decreases t
  {
    if t.Bare? {
      PrimaryParses(ws, p, t.primary);
    } else if t.NullTest? {
      NullTestParses(ws, p, t);
    } else if t.Member? {
      MemberParses(ws, p, t);
    } else {
      ComparedParses(ws, p, t);
    }
  }

  lemma NullTestParses(ws: seq<Word>, p: nat, t: Test)
    requires t.NullTest? && At(ws, p, PrintTest(t))
    ensures ParseTest(ws, p) == Got(t, p + |PrintTest(t)|) && p < |ws| && ws[p] != NotWord
  {
    var text := PrintTest(t);
    SliceWord(ws, p, text, 0);
    SliceWord(ws, p, text, 1);
    SliceWord(ws, p, text, 2);
    SliceWord(ws, p, text, |text| - 1);
    hide At, ParsePrimary;
    NameParses(ws, p, t.field);
  }

  lemma SliceWord(ws: seq<Word>, p: nat, text: seq<Word>, k: nat)
    requires At(ws, p, text) && k < |text|
    ensures p + k < |ws| && ws[p + k] == text[k]
  {
    assert ws[p..p + |text|][k] == ws[p + k];
  }

  lemma NameParses(ws: seq<Word>, p: nat, field: nat)
    requires WordAt(ws, p) == NameWord(field) && WordAt(ws, p + 1) != OpenParen
    ensures ParsePrimary(ws, p) == Got(FieldRef(field), p + 1)
  {
  }

  lemma MemberParses(ws: seq<Word>, p: nat, t: Test)
    requires t.Member? && At(ws, p, PrintTest(t))
    ensures ParseTest(ws, p) == Got(t, p + |PrintTest(t)|) && p < |ws| && ws[p] != NotWord
  {
    hide At, PrintValues, ParseValues, ParsePrimary;
    var name := NameWord(t.field);
    InAt(ws, p, name, PrintValues(t.first, t.rest));
    AtWord(ws, p, name);
    AtWord(ws, p + 1, InWord);
    AtWord(ws, p + 2, OpenParen);
    ValuesParse(ws, p + 3, t.first, t.rest);
    NameParses(ws, p, t.field);
    assert ([t.first] + t.rest)[1..] == t.rest;
  }

  lemma ComparedParses(ws: seq<Word>, p: nat, t: Test)
    requires t.Compared? && At(ws, p, PrintTest(t)) && Stops(WordAt(ws, p + |PrintTest(t)|))
    ensures ParseTest(ws, p) == Got(t, p + |PrintTest(t)|) && p < |ws| && ws[p] != NotWord
  {
    hide At;
    var name, text := NameWord(t.field), PrintValue(t.value);
    if t.reversed {
      var q := p + |text|;
      AtConcat(ws, p, text, [CompareWord(t.op), name]);
      assert [CompareWord(t.op), name] == [CompareWord(t.op)] + [name];
      AtConcat(ws, q, [CompareWord(t.op)], [name]);
      AtWord(ws, q, CompareWord(t.op));
      AtWord(ws, q + 1, name);
      ValueParses(ws, p, t.value);
      assert ParsePrimary(ws, q + 1) == Got(FieldRef(t.field), q + 2);
    } else {
      AtConcat(ws, p, [name, CompareWord(t.op)], text);
      assert [name, CompareWord(t.op)] == [name] + [CompareWord(t.op)];
      AtConcat(ws, p, [name], [CompareWord(t.op)]);
      AtWord(ws, p, name);
      AtWord(ws, p + 1, CompareWord(t.op));
      ValueParses(ws, p + 2, t.value);
      assert ParsePrimary(ws, p) == Got(FieldRef(t.field), p + 1);
    }
  }

  lemma {:induction false} PrimaryParses(ws: seq<Word>, p: nat, t: Primary)
    requires At(ws, p, PrintPrimary(t)) && Stops(WordAt(ws, p + |PrintPrimary(t)|))
    ensures ParsePrimary(ws, p) == Got(t, p + |PrintPrimary(t)|) && p < |ws| && ws[p] != NotWord
    decreases t
  {
    hide At;
    if t.Paren? {
      var text := PrintOrs(t.inner);
      AtConcat(ws, p, [OpenParen] + text, [CloseParen]);
      AtConcat(ws, p, [OpenParen], text);
      AtWord(ws, p, OpenParen);
      AtWord(ws, p + 1 + |text|, CloseParen);
      OrsParse(ws, p + 1, t.inner);
    } else if t.Scalar? {
      ValueParses(ws, p, t.value);
    } else {
      AtWord(ws, p, PrintPrimary(t)[0]);
    }
  }

  // ----- the round trip -----

  /** The words of a whole source, ended by a word without a role. */
  lemma PrintedSqlParses(t: Ors, ws: seq<Word>)
    requires ws == PrintOrs(t) + [Other]
    ensures ParseOrs(ws, 0) == Got(t, |ws| - 1)
  {
    hide PrintOrs, ParseOrs, At;
    AtWhole(ws);
    AtConcat(ws, 0, PrintOrs(t), [Other]);
    OrsParse(ws, 0, t);
  }

  lemma AtWhole(ws: seq<Word>)
    ensures At(ws, 0, ws)
  {
  }

  /** A source has one tree at most, and it has one exactly when it parses to the end. */
  lemma ParsesExactly(ws: seq<Word>, t: Ors)
    ensures ParseOrs(ws + [Other], 0) == Got(t, |ws|) <==> PrintOrs(t) == ws
  {
    var source := ws + [Other];
    if PrintOrs(t) == ws {
      PrintedSqlParses(t, source);
    }
    if ParseOrs(source, 0) == Got(t, |ws|) {
      OrsPrints(source, 0);
      assert source[0..|ws|] == ws;
    }
  }

  // ----- every word of a print has a role -----

  lemma {:induction false} OrsWords(t: Ors)
    ensures PrintOrs(t) != [] && Other !in PrintOrs(t)
    decreases t
  {
    hide PrintAnds;
    AndsWords(t.term);
    if t.MoreOr? {
      OrsWords(t.rest);
    }
  }

  lemma {:induction false} AndsWords(t: Ands)
    ensures PrintAnds(t) != [] && Other !in PrintAnds(t)
    decreases t
  {
    hide PrintNots;
    NotsWords(t.term);
    if t.MoreAnd? {
      AndsWords(t.rest);
    }
  }

  lemma {:induction false} NotsWords(t: Nots)
    ensures PrintNots(t) != [] && Other !in PrintNots(t)
    decreases t
  {
    hide PrintTest;
    if t.Negated? {
      NotsWords(t.inner);
    } else {
      TestWords(t.test);
    }
  }

  lemma {:induction false} TestWords(t: Test)
    ensures PrintTest(t) != [] && Other !in PrintTest(t)
    decreases t
  {
    hide PrintValues, PrintOrs;
    match t
    case Bare(primary) =>
      if primary.Paren? {
        OrsWords(primary.inner);
      }
    case NullTest(_, _) =>
    case Member(_, first, rest) => ValuesWords(first, rest);
    case Compared(_, _, _, _) =>
  }

  lemma {:induction false} ValuesWords(first: Value, rest: seq<Value>)
    ensures PrintValues(first, rest) != [] && Other !in PrintValues(first, rest)
    decreases |rest|
  {
    if rest != [] {
      ValuesWords(rest[0], rest[1..]);
    }
  }
}
