/** Policy-authored templates: text with {placeholder} references and doubled braces,
    parsed into flat operation and literal columns. */
module Templates {
  import P = Programs

  const MAX_TEMPLATE_BYTES: nat := 512
  const MAX_TEMPLATE_OPS: nat := 32
  const LITERAL: nat := 1

  /** The placeholder names, in operation order from 2 on. */
  const NAMES: seq<string> := [
    "policy_name", "policy_version", "request_id", "outcome", "requirement_id", "clause_id", "node_id",
    "reason", "evidence_kind", "evidence_state", "required_evidence_state", "evidence_id"]

  predicate IsPlaceholder(op: nat) {
    2 <= op < 2 + |NAMES|
  }

  function NameOf(op: nat): string
    requires IsPlaceholder(op)
  {
    NAMES[op - 2]
  }

  predicate IsBrace(c: char) {
    c == '{' || c == '}'
  }

  predicate NoBrace(s: string) {
    forall k :: 0 <= k < |s| ==> !IsBrace(s[k])
  }

  lemma NamesArePlain(op: nat)
    requires IsPlaceholder(op)
    ensures NameOf(op) != "" && NoBrace(NameOf(op))
  {
    hide NoBrace, NameOf;
    if op < 6 {
      FirstNames(op);
    } else if op < 10 {
      MiddleNames(op);
    } else {
      LastNames(op);
    }
  }

  lemma FirstNames(op: nat)
    requires 2 <= op < 6
    ensures NameOf(op) != "" && NoBrace(NameOf(op))
  {
  }

  lemma MiddleNames(op: nat)
    requires 6 <= op < 10
    ensures NameOf(op) != "" && NoBrace(NameOf(op))
  {
  }

  lemma LastNames(op: nat)
    requires 10 <= op < 14
    ensures NameOf(op) != "" && NoBrace(NameOf(op))
  {
  }

  lemma NamesDiffer(a: nat, b: nat)
    requires IsPlaceholder(a) && IsPlaceholder(b) && NameOf(a) == NameOf(b)
    ensures a == b
  {
  }

  /** The operation a name stands for. */
  method FindPlaceholder(name: string) returns (ok: bool, op: nat)
    ensures ok <==> exists o :: IsPlaceholder(o) && NameOf(o) == name
    ensures ok ==> IsPlaceholder(op) && NameOf(op) == name
  {
    for k := 0 to |NAMES|
      invariant forall j :: 0 <= j < k ==> NAMES[j] != name
    {
      if NAMES[k] == name {
        assert NameOf(k + 2) == name;
        return true, k + 2;
      }
    }
    return false, 0;
  }

  // ----- tokens and their print -----

  /** A template is a sequence of characters and placeholders. */
  datatype Token = Char(c: char) | Place(op: nat)

  predicate TokenOk(t: Token) {
    t.Place? ==> IsPlaceholder(t.op)
  }

  ghost predicate TokensOk(ts: seq<Token>) {
    forall k :: 0 <= k < |ts| ==> TokenOk(ts[k])
  }

  /** Braces are doubled and placeholders are named in braces. */
  function PrintToken(t: Token): string
    requires TokenOk(t)
  {
    match t
    case Char(c) => if IsBrace(c) then [c, c] else [c]
    case Place(op) => "{" + NameOf(op) + "}"
  }

  ghost function Print(ts: seq<Token>): string
    requires TokensOk(ts)
  {
    if ts == [] then "" else PrintToken(ts[0]) + Print(ts[1..])
  }

  lemma {:induction false} PrintConcat(a: seq<Token>, b: seq<Token>)
    requires TokensOk(a) && TokensOk(b)
    ensures TokensOk(a + b) && Print(a + b) == Print(a) + Print(b)
  {
    hide PrintToken;
    if a == [] {
      assert a + b == b;
    } else {
      PrintConcat(a[1..], b);
      assert (a + b)[1..] == a[1..] + b;
    }
  }

  function Chars(s: string): seq<Token> {
    seq(|s|, k requires 0 <= k < |s| => Char(s[k]))
  }

  // ----- the next token is forced by the text -----

  lemma TokenShape(t: Token)
    requires TokenOk(t)
    ensures t.Char? ==> |PrintToken(t)| == (if IsBrace(t.c) then 2 else 1) && PrintToken(t)[0] == t.c
    ensures t.Char? && IsBrace(t.c) ==> PrintToken(t)[1] == t.c
    ensures t.Place? ==> |PrintToken(t)| >= 3 && PrintToken(t)[0] == '{' && !IsBrace(PrintToken(t)[1])
  {
    hide NameOf, IsPlaceholder;
    if t.Place? {
      NamesArePlain(t.op);
    }
  }

  /** A plain character can only print itself. */
  lemma PlainForced(ts: seq<Token>, text: string)
    requires TokensOk(ts) && Print(ts) == text && text != "" && !IsBrace(text[0])
    ensures ts != [] && ts[0] == Char(text[0]) && Print(ts[1..]) == text[1..]
  {
    hide PrintToken;
    TokenShape(ts[0]);
    assert text == PrintToken(ts[0]) + Print(ts[1..]);
  }

  /** A doubled brace is a literal brace: a placeholder name never starts with one. */
  lemma DoubledForced(ts: seq<Token>, text: string)
    requires TokensOk(ts) && Print(ts) == text && |text| >= 2 && IsBrace(text[0]) && text[1] == text[0]
    ensures ts != [] && ts[0] == Char(text[0]) && Print(ts[1..]) == text[2..]
  {
    hide PrintToken;
    var head := PrintToken(ts[0]);
    TokenShape(ts[0]);
    assert text == head + Print(ts[1..]);
    assert text[0] == head[0] && (|head| >= 2 ==> text[1] == head[1]);
  }

  /** A single closing brace is nothing's print. */
  lemma ClosingForbidden(ts: seq<Token>, text: string)
    requires TokensOk(ts) && text != "" && text[0] == '}' && (|text| >= 2 ==> text[1] != '}')
    ensures Print(ts) != text
  {
    hide PrintToken;
    if ts != [] {
      var head, full := PrintToken(ts[0]), Print(ts);
      TokenShape(ts[0]);
      assert full[0] == head[0] && (|head| >= 2 ==> full[1] == head[1]);
    }
  }

  /** A name in braces ends at the first brace after its start. */
  lemma NameEnds(text: string, name: string, rest: string, end: nat)
    requires text == "{" + name + "}" + rest && NoBrace(name)
    requires 1 <= end <= |text| && NoBrace(text[1..end]) && (end < |text| ==> IsBrace(text[end]))
    ensures end == |name| + 1
  {
    assert text[|name| + 1] == '}';
  }

  lemma PlacePrint(ts: seq<Token>)
    requires TokensOk(ts) && ts != [] && ts[0].Place?
    ensures IsPlaceholder(ts[0].op) && Print(ts) == "{" + NameOf(ts[0].op) + "}" + Print(ts[1..])
  {
    hide NameOf, IsPlaceholder;
  }

  /** A single opening brace starts a placeholder whose name runs to the first brace. */
  lemma PlaceForced(ts: seq<Token>, text: string, end: nat)
    requires TokensOk(ts) && Print(ts) == text && |text| >= 1 && text[0] == '{' && (|text| >= 2 ==> text[1] != '{')
    requires 1 <= end <= |text| && NoBrace(text[1..end]) && (end < |text| ==> IsBrace(text[end]))
    ensures end < |text| && text[end] == '}' && end > 1
    ensures ts != [] && ts[0].Place? && IsPlaceholder(ts[0].op) && NameOf(ts[0].op) == text[1..end]
    ensures Print(ts[1..]) == text[end + 1..]
  {
    hide NameOf, IsPlaceholder, PrintToken, NoBrace;
    var head := PrintToken(ts[0]);
    TokenShape(ts[0]);
    assert text[0] == head[0] && (|head| >= 2 ==> text[1] == head[1]);
    PlacePrint(ts);
    NamesArePlain(ts[0].op);
    var name := NameOf(ts[0].op);
    NameEnds(text, name, Print(ts[1..]), end);
    assert text[1..end] == name;
  }

  // ----- grouping into operations -----

  datatype Op = Literal(text: string) | Placeholder(op: nat)

  /** A list that ends in a literal. */
  predicate EndsLiteral(ops: seq<Op>) {
    ops != [] && ops[|ops| - 1].Literal?
  }

  /** Append text to the last literal, or start a new one. */
  function WithText(ops: seq<Op>, text: string): seq<Op> {
    if text == "" then ops
    else if EndsLiteral(ops) then ops[|ops| - 1 := Literal(ops[|ops| - 1].text + text)]
    else ops + [Literal(text)]
  }

  function WithToken(ops: seq<Op>, t: Token): seq<Op> {
    match t
    case Char(c) => WithText(ops, [c])
    case Place(op) => ops + [Placeholder(op)]
  }

  /** The operations of a token sequence: runs of characters become one literal. */
  function Group(ts: seq<Token>): seq<Op> {
    if ts == [] then [] else WithToken(Group(ts[..|ts| - 1]), ts[|ts| - 1])
  }

  lemma GroupSnoc(ts: seq<Token>, t: Token)
    ensures Group(ts + [t]) == WithToken(Group(ts), t)
  {
    assert (ts + [t])[..|ts|] == ts;
  }

  /** Appending a run of characters is appending its text. */
  lemma {:induction false} GroupRun(ts: seq<Token>, s: string)
    ensures Group(ts + Chars(s)) == WithText(Group(ts), s)
    decreases |s|
  {
    if s == "" {
      assert ts + Chars(s) == ts;
    } else {
      var init, last := s[..|s| - 1], s[|s| - 1];
      assert s == init + [last] && ts + Chars(s) == (ts + Chars(init)) + [Char(last)];
      hide Group, Chars, WithText;
      GroupRun(ts, init);
      GroupSnoc(ts + Chars(init), Char(last));
      TextTwice(Group(ts), init, [last]);
    }
  }

  lemma TextTwice(ops: seq<Op>, a: string, b: string)
    ensures WithText(WithText(ops, a), b) == WithText(ops, a + b)
  {
    if a == "" {
      assert a + b == b;
    } else if b == "" {
      assert a + b == a;
    } else if EndsLiteral(ops) {
      assert (ops[|ops| - 1].text + a) + b == ops[|ops| - 1].text + (a + b);
    }
  }

  /** More tokens never mean fewer operations. */
  lemma {:induction false} GroupMonotone(ts: seq<Token>, us: seq<Token>)
    requires ts <= us
    ensures |Group(ts)| <= |Group(us)|
    decreases |us|
  {
    if |ts| < |us| {
      var init := us[..|us| - 1];
      GroupMonotone(ts, init);
    } else {
      assert ts == us;
    }
  }

  // ----- operations and tokens determine each other -----

  function TokensOf(op: Op): seq<Token> {
    match op
    case Literal(text) => Chars(text)
    case Placeholder(p) => [Place(p)]
  }

  function Flatten(ops: seq<Op>): seq<Token> {
    if ops == [] then [] else Flatten(ops[..|ops| - 1]) + TokensOf(ops[|ops| - 1])
  }

  /** Literals are not empty and never adjacent. */
  ghost predicate Normal(ops: seq<Op>) {
    && (forall k :: 0 <= k < |ops| && ops[k].Literal? ==> ops[k].text != "")
    && forall k :: 0 < k < |ops| && ops[k].Literal? ==> !EndsLiteral(ops[..k])
  }

  lemma FlattenSnoc(ops: seq<Op>, op: Op)
    ensures Flatten(ops + [op]) == Flatten(ops) + TokensOf(op)
  {
    assert (ops + [op])[..|ops|] == ops;
  }

  lemma FlattenText(ops: seq<Op>, text: string)
    ensures Flatten(WithText(ops, text)) == Flatten(ops) + Chars(text)
  {
    hide Flatten, Chars;
    if text == "" {
      CharsConcat("", "");
      assert Flatten(ops) + [] == Flatten(ops);
    } else if EndsLiteral(ops) {
      var init, last := ops[..|ops| - 1], ops[|ops| - 1].text;
      assert ops == init + [Literal(last)] && WithText(ops, text) == init + [Literal(last + text)];
      FlattenSnoc(init, Literal(last));
      FlattenSnoc(init, Literal(last + text));
      CharsConcat(last, text);
      assert Flatten(init) + (Chars(last) + Chars(text)) == Flatten(init) + Chars(last) + Chars(text);
    } else {
      FlattenSnoc(ops, Literal(text));
    }
  }

  lemma CharsConcat(a: string, b: string)
    ensures Chars(a + b) == Chars(a) + Chars(b) && Chars("") == []
  {
  }

  /** Grouping loses nothing. */
  lemma {:induction false} FlattenGroup(ts: seq<Token>)
    ensures Flatten(Group(ts)) == ts
  {
    hide Flatten, Group, WithText, Chars;
    if ts == [] {
      NothingGroups();
    } else {
      var init, t := ts[..|ts| - 1], ts[|ts| - 1];
      FlattenGroup(init);
      assert ts == init + [t];
      GroupSnoc(init, t);
      if t.Char? {
        FlattenText(Group(init), [t.c]);
        OneChar(t.c);
      } else {
        FlattenSnoc(Group(init), Placeholder(t.op));
      }
    }
  }

  lemma NormalInit(ops: seq<Op>)
    requires Normal(ops) && ops != []
    ensures Normal(ops[..|ops| - 1])
  {
    var init := ops[..|ops| - 1];
    forall k | 0 < k < |init| && init[k].Literal?
      ensures !EndsLiteral(init[..k])
    {
      assert init[..k] == ops[..k] && ops[k] == init[k];
    }
  }

  /** Every normal list of operations is the grouping of its tokens. */
  lemma {:induction false} GroupFlatten(ops: seq<Op>)
    requires Normal(ops)
    ensures Group(Flatten(ops)) == ops
  {
    hide Group, Flatten, Normal, Chars;
    if ops == [] {
      NothingGroups();
    } else {
      var init, last := ops[..|ops| - 1], ops[|ops| - 1];
      NormalInit(ops);
      GroupFlatten(init);
      assert ops == init + [last];
      FlattenSnoc(init, last);
      if last.Literal? {
        GroupRun(Flatten(init), last.text);
        NormalLast(ops);
      } else {
        GroupSnoc(Flatten(init), Place(last.op));
      }
    }
  }

  lemma NothingGroups()
    ensures Flatten([]) == [] && Group([]) == []
  {
  }

  lemma NormalLast(ops: seq<Op>)
    requires Normal(ops) && ops != [] && ops[|ops| - 1].Literal?
    ensures ops[|ops| - 1].text != "" && !EndsLiteral(ops[..|ops| - 1])
  {
  }

  /** What grouping produces is normal. */
  lemma {:induction false} GroupNormal(ts: seq<Token>)
    ensures Normal(Group(ts))
  {
    if ts != [] {
      var init, t := ts[..|ts| - 1], ts[|ts| - 1];
      GroupNormal(init);
      hide Group;
      NormalStep(Group(init), t);
    }
  }

  lemma NormalStep(ops: seq<Op>, t: Token)
    requires Normal(ops)
    ensures Normal(WithToken(ops, t))
  {
    var next := WithToken(ops, t);
    forall k | 0 < k < |next| && next[k].Literal?
      ensures !EndsLiteral(next[..k])
    {
      assert next[k - 1].Literal? <==> EndsLiteral(next[..k]);
      if k < |ops| {
        assert ops[k].Literal? && ops[..k][k - 1] == ops[k - 1];
      }
    }
  }

  /** The lists that grouping can produce are exactly the normal ones. */
  lemma NormalExactly(ops: seq<Op>)
    ensures Normal(ops) <==> Group(Flatten(ops)) == ops
  {
    hide Normal, Group, Flatten;
    if Normal(ops) {
      GroupFlatten(ops);
    }
    GroupNormal(Flatten(ops));
  }

  lemma OneChar(c: char)
    ensures Chars([c]) == [Char(c)]
  {
  }

  // ----- parsing -----

  type Context = nat

  const ASSUMPTION: Context := 1
  const DECISION: Context := 2
  const UNRESOLVED: Context := 3
  const EVIDENCE_MISSING: Context := 4
  const EVIDENCE_PRESENT: Context := 5

  predicate ContextOk(context: Context) {
    ASSUMPTION <= context <= EVIDENCE_PRESENT
  }

  /** Which context provides the value of a placeholder. */
  predicate OpAllowed(op: nat, context: Context) {
    if op <= 4 then true
    else if op <= 8 then context >= DECISION
    else if op == 9 then context >= UNRESOLVED
    else if op == 10 || op == 12 then context >= EVIDENCE_MISSING
    else context == EVIDENCE_PRESENT
  }

  /** The values at hand in a context, by name: more of them the later the stage, and the
      state and identity of a piece of evidence only when there is one. */
  function Provided(context: Context): set<string>
    requires ContextOk(context)
  {
    if context == ASSUMPTION then {"policy_name", "policy_version", "request_id"}
    else if context == DECISION then Provided(ASSUMPTION) + {"outcome", "requirement_id", "clause_id", "node_id"}
    else if context == UNRESOLVED then Provided(DECISION) + {"reason"}
    else if context == EVIDENCE_MISSING then Provided(UNRESOLVED) + {"evidence_kind", "required_evidence_state"}
    else Provided(EVIDENCE_MISSING) + {"evidence_state", "evidence_id"}
  }

  lemma ProvidedAre(context: Context, name: string)
    requires ContextOk(context)
    ensures name in Provided(context) <==>
            || name in {"policy_name", "policy_version", "request_id"}
            || (context >= DECISION && name in {"outcome", "requirement_id", "clause_id", "node_id"})
            || (context >= UNRESOLVED && name == "reason")
            || (context >= EVIDENCE_MISSING && name in {"evidence_kind", "required_evidence_state"})
            || (context >= EVIDENCE_PRESENT && name in {"evidence_state", "evidence_id"})
  {
    var b := Provided(ASSUMPTION);
    var c := Provided(DECISION);
    var d := Provided(UNRESOLVED);
    var e := Provided(EVIDENCE_MISSING);
  }

  /** A placeholder is allowed exactly where its value is provided. */
  lemma AllowedIsProvided(op: nat, context: Context)
    requires IsPlaceholder(op) && ContextOk(context)
    ensures OpAllowed(op, context) <==> NameOf(op) in Provided(context)
  {
    hide Provided;
    ProvidedAre(context, NameOf(op));
  }

  ghost predicate Allowed(ts: seq<Token>, context: Context) {
    forall k :: 0 <= k < |ts| && ts[k].Place? ==> OpAllowed(ts[k].op, context)
  }

  /** The tokens of an acceptable template text. */
  ghost predicate Denotes(ts: seq<Token>, text: string, context: Context) {
    TokensOk(ts) && Print(ts) == text && Allowed(ts, context) && |Group(ts)| <= MAX_TEMPLATE_OPS
  }

  /** The text up to i has been read as `ts`, and no reading of the whole text can
      begin otherwise. */
  ghost predicate ReadTo(text: string, i: nat, ts: seq<Token>) {
    && i <= |text| && TokensOk(ts) && Print(ts) == text[..i]
    && forall us :: TokensOk(us) && Print(us) == text ==> ts <= us
  }

  lemma RestPrints(text: string, i: nat, ts: seq<Token>, us: seq<Token>)
    requires ReadTo(text, i, ts) && TokensOk(us) && Print(us) == text
    ensures ts <= us && TokensOk(us[|ts|..]) && Print(us[|ts|..]) == text[i..]
  {
    hide PrintToken;
    assert ts <= us;
    var rest := us[|ts|..];
    assert us == ts + rest;
    PrintConcat(ts, rest);
    assert text == text[..i] + text[i..];
  }

  /** Reading one more token that the text forces. */
  lemma ReadToken(text: string, i: nat, ts: seq<Token>, t: Token, j: nat)
    requires ReadTo(text, i, ts) && i < j <= |text| && TokenOk(t) && PrintToken(t) == text[i..j]
    requires forall rest :: TokensOk(rest) && Print(rest) == text[i..] ==> rest != [] && rest[0] == t
    ensures ReadTo(text, j, ts + [t])
  {
    hide PrintToken;
    PrintOne(t);
    PrintConcat(ts, [t]);
    assert text[..j] == text[..i] + text[i..j];
    forall us | TokensOk(us) && Print(us) == text
      ensures ts + [t] <= us
    {
      RestPrints(text, i, ts, us);
      assert us[|ts|..][0] == t;
    }
  }

  lemma PrintOne(t: Token)
    requires TokenOk(t)
    ensures TokensOk([t]) && Print([t]) == PrintToken(t)
  {
    hide PrintToken;
    assert Print([t][1..]) == "";
  }

  lemma ReadPlain(text: string, i: nat, ts: seq<Token>)
    requires ReadTo(text, i, ts) && i < |text| && !IsBrace(text[i])
    ensures ReadTo(text, i + 1, ts + [Char(text[i])])
  {
    forall rest: seq<Token> | TokensOk(rest) && Print(rest) == text[i..]
      ensures rest != [] && rest[0] == Char(text[i])
    {
      PlainForced(rest, text[i..]);
    }
    assert text[i..i + 1] == [text[i]];
    ReadToken(text, i, ts, Char(text[i]), i + 1);
  }

  lemma {:induction false} ReadRun(text: string, i: nat, ts: seq<Token>, j: nat)
    requires ReadTo(text, i, ts) && i <= j <= |text| && NoBrace(text[i..j])
    ensures ReadTo(text, j, ts + Chars(text[i..j]))
    decreases j - i
  {
    hide ReadTo;
    if i == j {
      assert ts + Chars(text[i..j]) == ts;
    } else {
      var run := text[i..j];
      assert !IsBrace(run[0]);
      ReadPlain(text, i, ts);
      assert text[i + 1..j] == run[1..];
      ReadRun(text, i + 1, ts + [Char(text[i])], j);
      assert ts + Chars(text[i..j]) == (ts + [Char(text[i])]) + Chars(text[i + 1..j]);
    }
  }

  lemma ReadDoubled(text: string, i: nat, ts: seq<Token>)
    requires ReadTo(text, i, ts) && i + 1 < |text| && IsBrace(text[i]) && text[i + 1] == text[i]
    ensures ReadTo(text, i + 2, ts + [Char(text[i])])
  {
    forall rest: seq<Token> | TokensOk(rest) && Print(rest) == text[i..]
      ensures rest != [] && rest[0] == Char(text[i])
    {
      DoubledForced(rest, text[i..]);
    }
    assert text[i..i + 2] == [text[i], text[i]];
    ReadToken(text, i, ts, Char(text[i]), i + 2);
  }

  /** A named placeholder as a slice of the text, and of what is left of it. */
  lemma PlaceSlices(text: string, i: nat, end: nat)
    requires i < end < |text| && text[i] == '{' && text[end] == '}'
    ensures text[i..end + 1] == "{" + text[i + 1..end] + "}"
    ensures text[i..][1..end - i] == text[i + 1..end]
  {
  }

  lemma ReadPlace(text: string, i: nat, ts: seq<Token>, end: nat, op: nat)
    requires ReadTo(text, i, ts) && i < end < |text| && text[i] == '{' && text[i + 1] != '{'
    requires NoBrace(text[i + 1..end]) && text[end] == '}' && IsPlaceholder(op) && NameOf(op) == text[i + 1..end]
    ensures ReadTo(text, end + 1, ts + [Place(op)])
  {
    hide NameOf, IsPlaceholder, ReadTo, NoBrace, TokensOk, Print;
    PlaceSlices(text, i, end);
    forall rest: seq<Token> | TokensOk(rest) && Print(rest) == text[i..]
      ensures rest != [] && rest[0] == Place(op)
    {
      PlaceForced(rest, text[i..], end - i);
      NamesDiffer(rest[0].op, op);
    }
    ReadToken(text, i, ts, Place(op), end + 1);
  }

  ghost predicate NoReading(text: string) {
    forall us :: TokensOk(us) ==> Print(us) != text
  }

  lemma ClosingRejects(text: string, i: nat, ts: seq<Token>)
    requires ReadTo(text, i, ts) && i < |text| && text[i] == '}' && (i + 1 < |text| ==> text[i + 1] != '}')
    ensures NoReading(text)
  {
    forall us | TokensOk(us)
      ensures Print(us) != text
    {
      if Print(us) == text {
        RestPrints(text, i, ts, us);
        ClosingForbidden(us[|ts|..], text[i..]);
      }
    }
  }

  /** An opening brace that no known name and closing brace follow has no reading. */
  lemma PlaceRejects(text: string, i: nat, ts: seq<Token>, end: nat)
    requires ReadTo(text, i, ts) && i < end <= |text| && text[i] == '{' && (i + 1 < |text| ==> text[i + 1] != '{')
    requires NoBrace(text[i + 1..end]) && (end < |text| ==> IsBrace(text[end]))
    requires end == |text| || text[end] == '{' || end == i + 1 ||
             !exists op :: IsPlaceholder(op) && NameOf(op) == text[i + 1..end]
    ensures NoReading(text)
  {
    hide NameOf, IsPlaceholder, ReadTo, NoBrace, Print, TokensOk;
    assert text[i..][1..end - i] == text[i + 1..end];
    assert text[i..][0] == '{' && (end < |text| ==> text[i..][end - i] == text[end]);
    forall us | TokensOk(us)
      ensures Print(us) != text
    {
      if Print(us) == text {
        RestPrints(text, i, ts, us);
        PlaceForced(us[|ts|..], text[i..], end - i);
      }
    }
  }

  // ----- the columns -----

  /** The contents of the columns when a template was begun. */
  datatype Mark = Mark(bytes: string, ops: seq<nat>, args: seq<nat>)

  function Code(op: Op): nat {
    match op
    case Literal(_) => LITERAL
    case Placeholder(p) => p
  }

  function Arg(op: Op): nat {
    match op
    case Literal(text) => |text|
    case Placeholder(_) => 0
  }

  function Codes(ops: seq<Op>): seq<nat> {
    seq(|ops|, k requires 0 <= k < |ops| => Code(ops[k]))
  }

  function Args(ops: seq<Op>): seq<nat> {
    seq(|ops|, k requires 0 <= k < |ops| => Arg(ops[k]))
  }

  /** The literal bytes of a list, in order. */
  function Texts(ops: seq<Op>): string {
    if ops == [] then ""
    else Texts(ops[..|ops| - 1]) + match ops[|ops| - 1] case Literal(text) => text case Placeholder(_) => ""
  }

  lemma TextsSnoc(ops: seq<Op>, op: Op)
    ensures Texts(ops + [op]) == Texts(ops) + match op case Literal(text) => text case Placeholder(_) => ""
  {
    assert (ops + [op])[..|ops|] == ops;
  }

  lemma TextsGrow(ops: seq<Op>, text: string)
    ensures Texts(WithText(ops, text)) == Texts(ops) + text
  {
    if text != "" {
      if EndsLiteral(ops) {
        var init, last := ops[..|ops| - 1], ops[|ops| - 1].text;
        assert ops == init + [Literal(last)] && WithText(ops, text) == init + [Literal(last + text)];
        TextsSnoc(init, Literal(last));
        TextsSnoc(init, Literal(last + text));
        hide Texts;
        assert Texts(init) + (last + text) == Texts(init) + last + text;
      } else {
        TextsSnoc(ops, Literal(text));
      }
    }
  }

  /** Extending the last literal shows in its length only. */
  lemma MergeColumns(markOps: seq<nat>, markArgs: seq<nat>, list: seq<Op>, text: string)
    requires EndsLiteral(list) && text != ""
    ensures Codes(WithText(list, text)) == Codes(list)
    ensures var args := markArgs + Args(list);
            |args| > 0 && markArgs + Args(WithText(list, text)) == args[|args| - 1 := args[|args| - 1] + |text|]
  {
    hide Texts;
    var args, n := Args(list), |list|;
    assert Args(WithText(list, text)) == args[n - 1 := args[n - 1] + |text|];
  }

  lemma NewColumns(markOps: seq<nat>, markArgs: seq<nat>, list: seq<Op>, op: Op)
    ensures markOps + Codes(list + [op]) == markOps + Codes(list) + [Code(op)]
    ensures markArgs + Args(list + [op]) == markArgs + Args(list) + [Arg(op)]
  {
    assert Codes(list + [op]) == Codes(list) + [Code(op)];
    assert Args(list + [op]) == Args(list) + [Arg(op)];
  }

  lemma Associate(a: string, b: string, c: string)
    ensures (a + b) + c == a + (b + c)
  {
  }

  lemma LastCode(markOps: seq<nat>, list: seq<Op>)
    requires forall k :: 0 <= k < |list| && list[k].Placeholder? ==> list[k].op != LITERAL
    ensures var ops := markOps + Codes(list); |ops| > |markOps| && ops[|ops| - 1] == LITERAL <==> EndsLiteral(list)
  {
    if list != [] {
      assert (markOps + Codes(list))[|markOps| + |list| - 1] == Code(list[|list| - 1]);
    }
  }

  /** Columns that hold a mark's contents followed by a list of operations. */
  ghost predicate Columns(bytes: string, ops: seq<nat>, args: seq<nat>, mark: Mark, list: seq<Op>) {
    bytes == mark.bytes + Texts(list) && ops == mark.ops + Codes(list) && args == mark.args + Args(list)
  }

  ghost predicate NoLiteralCode(list: seq<Op>) {
    forall k :: 0 <= k < |list| && list[k].Placeholder? ==> list[k].op != LITERAL
  }

  predicate LiteralLast(ops: seq<nat>, mark: nat) {
    |ops| > mark && ops[|ops| - 1] == LITERAL
  }

  lemma TextMerges(bytes: string, ops: seq<nat>, args: seq<nat>, mark: Mark, list: seq<Op>, text: string)
    requires Columns(bytes, ops, args, mark, list) && NoLiteralCode(list) && text != "" && LiteralLast(ops, |mark.ops|)
    ensures |args| > 0 && |WithText(list, text)| == |list|
    ensures Columns(bytes + text, ops, args[|args| - 1 := args[|args| - 1] + |text|], mark, WithText(list, text))
  {
    hide Texts, Codes, Args;
    LastCode(mark.ops, list);
    MergeColumns(mark.ops, mark.args, list, text);
    TextsGrow(list, text);
    Associate(mark.bytes, Texts(list), text);
  }

  lemma TextStarts(bytes: string, ops: seq<nat>, args: seq<nat>, mark: Mark, list: seq<Op>, text: string)
    requires Columns(bytes, ops, args, mark, list) && NoLiteralCode(list) && text != "" && !LiteralLast(ops, |mark.ops|)
    ensures |WithText(list, text)| == |list| + 1
    ensures Columns(bytes + text, ops + [LITERAL], args + [|text|], mark, WithText(list, text))
  {
    hide Texts, Codes, Args;
    LastCode(mark.ops, list);
    NewColumns(mark.ops, mark.args, list, Literal(text));
    TextsGrow(list, text);
    Associate(mark.bytes, Texts(list), text);
  }

  lemma PlaceAppends(bytes: string, ops: seq<nat>, args: seq<nat>, mark: Mark, list: seq<Op>, op: nat)
    requires Columns(bytes, ops, args, mark, list)
    ensures Columns(bytes, ops + [op], args + [0], mark, list + [Placeholder(op)])
  {
    TextsSnoc(list, Placeholder(op));
    NewColumns(mark.ops, mark.args, list, Placeholder(op));
    hide Texts, Codes, Args;
    assert Texts(list) + "" == Texts(list);
  }

  lemma ColumnSizes(bytes: string, ops: seq<nat>, args: seq<nat>, mark: Mark, list: seq<Op>)
    requires Columns(bytes, ops, args, mark, list)
    ensures |ops| == |mark.ops| + |list| && |args| == |mark.args| + |list| && |bytes| == |mark.bytes| + |Texts(list)|
    ensures bytes[..|mark.bytes|] == mark.bytes && ops[..|mark.ops|] == mark.ops && args[..|mark.args|] == mark.args
  {
    hide Texts;
  }

  datatype Status = Done | InvalidTemplate | InvalidContext | TooLarge | TooMany

  /** A text has at most one reading. */
  lemma {:induction false} PrintInjective(a: seq<Token>, b: seq<Token>)
    requires TokensOk(a) && TokensOk(b) && Print(a) == Print(b)
    ensures a == b
    decreases |Print(a)|
  {
    hide Print, TokensOk, NoBrace, NameOf, IsPlaceholder;
    var text := Print(a);
    if text == "" {
      EmptyPrint(a);
      EmptyPrint(b);
      return;
    }
    HeadForced(a, b, text);
    PrintInjective(a[1..], b[1..]);
  }

  lemma EmptyPrint(ts: seq<Token>)
    requires TokensOk(ts)
    ensures Print(ts) == "" <==> ts == []
  {
    hide PrintToken;
    if ts != [] {
      TokenShape(ts[0]);
    }
  }

  lemma HeadForced(a: seq<Token>, b: seq<Token>, text: string)
    requires TokensOk(a) && TokensOk(b) && Print(a) == Print(b) == text && text != ""
    ensures a != [] && b != [] && a[0] == b[0] && TokensOk(a[1..]) && TokensOk(b[1..])
    ensures Print(a[1..]) == Print(b[1..]) && |Print(a[1..])| < |text|
  {
    EmptyPrint(a);
    EmptyPrint(b);
    hide Print, NameOf, IsPlaceholder, NoBrace, PrintToken;
    if !IsBrace(text[0]) {
      PlainForced(a, text);
      PlainForced(b, text);
    } else if |text| >= 2 && text[1] == text[0] {
      DoubledForced(a, text);
      DoubledForced(b, text);
    } else if text[0] == '}' {
      ClosingForbidden(a, text);
    } else {
      var end := BraceAfter(text);
      PlaceForced(a, text, end);
      PlaceForced(b, text, end);
      NamesDiffer(a[0].op, b[0].op);
    }
  }

  lemma BraceAfter(text: string) returns (end: nat)
    requires text != ""
    ensures 1 <= end <= |text| && NoBrace(text[1..end]) && (end < |text| ==> IsBrace(text[end]))
  {
    end := 1;
    while end < |text| && !IsBrace(text[end])
      invariant 1 <= end <= |text| && forall k :: 1 <= k < end ==> !IsBrace(text[k])
    {
      end := end + 1;
    }
  }

  ghost predicate OpsKnown(ops: seq<Op>) {
    forall k :: 0 <= k < |ops| && ops[k].Placeholder? ==> IsPlaceholder(ops[k].op)
  }

  ghost predicate OpsAllowed(ops: seq<Op>, context: Context) {
    forall k :: 0 <= k < |ops| && ops[k].Placeholder? ==> OpAllowed(ops[k].op, context)
  }

  lemma {:induction false} FlattenChecks(ops: seq<Op>, context: Context)
    ensures OpsKnown(ops) ==> TokensOk(Flatten(ops))
    ensures OpsAllowed(ops, context) <==> Allowed(Flatten(ops), context)
  {
    hide OpsKnown, OpsAllowed, TokensOk, Allowed, Flatten;
    if ops == [] {
      NothingToCheck(context);
    } else {
      var init, last := ops[..|ops| - 1], ops[|ops| - 1];
      FlattenChecks(init, context);
      assert ops == init + [last];
      FlattenSnoc(init, last);
      KnownSplit(init, last, Flatten(init));
      AllowedSplit(init, last, Flatten(init), context);
    }
  }

  lemma NothingToCheck(context: Context)
    ensures Flatten([]) == [] && TokensOk([]) && OpsAllowed([], context) && Allowed([], context)
  {
  }

  lemma KnownSplit(init: seq<Op>, last: Op, ts: seq<Token>)
    ensures OpsKnown(init + [last]) ==> OpsKnown(init) && (TokensOk(ts) ==> TokensOk(ts + TokensOf(last)))
  {
    hide IsPlaceholder;
    if OpsKnown(init + [last]) {
      assert (init + [last])[|init|] == last;
      forall k | 0 <= k < |init| && init[k].Placeholder?
        ensures IsPlaceholder(init[k].op)
      {
        assert (init + [last])[k] == init[k];
      }
    }
  }

  lemma AllowedSplit(init: seq<Op>, last: Op, ts: seq<Token>, context: Context)
    ensures OpsAllowed(init + [last], context) <==> OpsAllowed(init, context) && OpsAllowed([last], context)
    ensures Allowed(ts + TokensOf(last), context) <==> Allowed(ts, context) && OpsAllowed([last], context)
  {
    hide OpAllowed;
    var ops, us := init + [last], ts + TokensOf(last);
    assert forall k :: 0 <= k < |init| ==> ops[k] == init[k];
    assert ops[|init|] == last;
    assert forall k :: 0 <= k < |ts| ==> us[k] == ts[k];
    if last.Placeholder? {
      assert us[|ts|] == Place(last.op);
    }
  }

  /** A list of operations survives being written out as a template and parsed again, and
      the written template is acceptable exactly when the list is. */
  lemma PrintedTemplateParses(ops: seq<Op>, context: Context)
    requires Normal(ops) && OpsKnown(ops)
    ensures TokensOk(Flatten(ops))
    ensures var text := Print(Flatten(ops));
            && (forall ts :: Denotes(ts, text, context) ==> Group(ts) == ops)
            && ((exists ts :: Denotes(ts, text, context)) <==> |ops| <= MAX_TEMPLATE_OPS && OpsAllowed(ops, context))
  {
    hide Print, Normal, OpsKnown, OpsAllowed, Flatten, Group, TokensOk, Allowed, Denotes;
    FlattenChecks(ops, context);
    GroupFlatten(ops);
    OnlyReading(Flatten(ops), Print(Flatten(ops)), context);
  }

  lemma OnlyReading(us: seq<Token>, text: string, context: Context)
    requires TokensOk(us) && Print(us) == text
    ensures forall ts :: Denotes(ts, text, context) ==> ts == us
    ensures (exists ts :: Denotes(ts, text, context)) <==> |Group(us)| <= MAX_TEMPLATE_OPS && Allowed(us, context)
  {
    hide Print, Group, TokensOk, Allowed;
    forall ts | Denotes(ts, text, context)
      ensures ts == us
    {
      PrintInjective(ts, us);
    }
    assert |Group(us)| <= MAX_TEMPLATE_OPS && Allowed(us, context) ==> Denotes(us, text, context);
  }

  // ----- why a text is refused -----

  ghost predicate Reads(us: seq<Token>, text: string) {
    TokensOk(us) && Print(us) == text
  }

  /** What each refusal means of every reading of the text. */
  ghost predicate Refused(text: string, context: Context, status: Status) {
    match status
    case InvalidTemplate => forall us :: !Reads(us, text)
    case InvalidContext => forall us :: Reads(us, text) ==> !Allowed(us, context)
    case TooLarge => forall us :: Reads(us, text) ==> |Group(us)| > MAX_TEMPLATE_OPS
    case _ => false
  }

  lemma LargeRefused(text: string, context: Context, i: nat, ts: seq<Token>)
    requires ReadTo(text, i, ts) && |Group(ts)| > MAX_TEMPLATE_OPS
    ensures Refused(text, context, TooLarge)
  {
    hide Group, Print;
    forall us | Reads(us, text)
      ensures |Group(us)| > MAX_TEMPLATE_OPS
    {
      GroupMonotone(ts, us);
    }
  }

  lemma ContextRefused(text: string, context: Context, i: nat, ts: seq<Token>, op: nat)
    requires ReadTo(text, i, ts + [Place(op)]) && !OpAllowed(op, context)
    ensures Refused(text, context, InvalidContext)
  {
    hide Print;
    forall us | Reads(us, text)
      ensures !Allowed(us, context)
    {
      assert us[|ts|] == (ts + [Place(op)])[|ts|];
    }
  }

  /** The text up to i is read as `ts`, which the context allows and the columns hold. */
  ghost predicate Parsed(text: string, context: Context, i: nat, ts: seq<Token>, bytes: string, ops: seq<nat>,
                         args: seq<nat>, mark: Mark) {
    ReadTo(text, i, ts) && Allowed(ts, context) && |Group(ts)| <= MAX_TEMPLATE_OPS &&
    Columns(bytes, ops, args, mark, Group(ts))
  }

  lemma {:induction false} GroupCodes(ts: seq<Token>)
    requires TokensOk(ts)
    ensures NoLiteralCode(Group(ts))
  {
    if ts != [] {
      GroupCodes(ts[..|ts| - 1]);
    }
  }

  lemma TextParsed(text: string, context: Context, i: nat, ts: seq<Token>, bytes: string, ops: seq<nat>, args: seq<nat>,
                   mark: Mark, literal: string, j: nat)
    requires Allowed(ts, context) && ReadTo(text, j, ts + Chars(literal))
    requires Columns(bytes, ops, args, mark, WithText(Group(ts), literal))
    requires |WithText(Group(ts), literal)| <= MAX_TEMPLATE_OPS
    ensures Parsed(text, context, j, ts + Chars(literal), bytes, ops, args, mark)
  {
    hide ReadTo, Columns, Group, WithText;
    GroupRun(ts, literal);
  }

  lemma PlaceParsed(text: string, context: Context, i: nat, ts: seq<Token>, bytes: string, ops: seq<nat>,
                    args: seq<nat>, mark: Mark, op: nat, j: nat)
    requires Parsed(text, context, i, ts, bytes, ops, args, mark) && ReadTo(text, j, ts + [Place(op)])
    requires OpAllowed(op, context)
    requires |Group(ts)| < MAX_TEMPLATE_OPS
    ensures Parsed(text, context, j, ts + [Place(op)], bytes, ops + [op], args + [0], mark)
  {
    hide ReadTo, Columns, Group, OpAllowed;
    GroupSnoc(ts, Place(op));
    PlaceAppends(bytes, ops, args, mark, Group(ts), op);
  }

  lemma NoReadingRefused(text: string, context: Context)
    requires NoReading(text)
    ensures Refused(text, context, InvalidTemplate)
  {
  }

  lemma PlaceLarge(ts: seq<Token>, op: nat)
    ensures |Group(ts + [Place(op)])| == |Group(ts)| + 1
  {
    GroupSnoc(ts, Place(op));
  }

  /** The columns still begin with what was there. */
  ghost predicate Kept(bytes: string, ops: seq<nat>, args: seq<nat>, mark: Mark) {
    mark.bytes <= bytes && mark.ops <= ops && mark.args <= args
  }

  lemma ParsedKept(text: string, context: Context, i: nat, ts: seq<Token>, bytes: string, ops: seq<nat>, args: seq<nat>,
                   mark: Mark)
    requires Parsed(text, context, i, ts, bytes, ops, args, mark)
    ensures Kept(bytes, ops, args, mark) && |ops| == |mark.ops| + |Group(ts)|
    ensures NoLiteralCode(Group(ts))
  {
    hide Columns, Group, Texts;
    ColumnSizes(bytes, ops, args, mark, Group(ts));
    GroupCodes(ts);
  }

  lemma NothingParsed(text: string, context: Context, mark: Mark)
    ensures Parsed(text, context, 0, [], mark.bytes, mark.ops, mark.args, mark)
  {
  }

  lemma ParsedReads(text: string, context: Context, i: nat, ts: seq<Token>, bytes: string, ops: seq<nat>,
                    args: seq<nat>, mark: Mark)
    requires Parsed(text, context, i, ts, bytes, ops, args, mark)
    ensures ReadTo(text, i, ts) && i <= |text|
  {
  }

  lemma KeptPrefix(bytes: string, ops: seq<nat>, args: seq<nat>, mark: Mark)
    requires Kept(bytes, ops, args, mark)
    ensures |mark.bytes| <= |bytes| && bytes[..|mark.bytes|] == mark.bytes
    ensures |mark.ops| <= |ops| && ops[..|mark.ops|] == mark.ops
    ensures |mark.args| <= |args| && args[..|mark.args|] == mark.args
  {
  }

  lemma ParsedDenotes(text: string, context: Context, ts: seq<Token>, bytes: string, ops: seq<nat>, args: seq<nat>,
                      mark: Mark)
    requires Parsed(text, context, |text|, ts, bytes, ops, args, mark)
    ensures Denotes(ts, text, context) && Columns(bytes, ops, args, mark, Group(ts))
    ensures |ops| == |mark.ops| + |Group(ts)| && |bytes| == |mark.bytes| + |Texts(Group(ts))|
  {
    hide Print, Group, Texts, TokensOk, Columns;
    assert text[..|text|] == text;
    ColumnSizes(bytes, ops, args, mark, Group(ts));
  }

  lemma RefusedDenotes(text: string, context: Context, status: Status)
    requires Refused(text, context, status)
    ensures !exists ts :: Denotes(ts, text, context)
    ensures status != Done && status != TooMany
  {
    hide Print, Group, TokensOk, Allowed;
    forall ts: seq<Token>
      ensures !Denotes(ts, text, context)
    {
      if Reads(ts, text) {
      }
    }
  }

  /** A template the builder takes: its limits leave room and some tokens print it. */
  ghost predicate Acceptable(text: string, context: Context, bytes: nat, rows: nat) {
    && ContextOk(context) && |text| <= MAX_TEMPLATE_BYTES && rows < P.MAX_UINT32 && bytes + |text| <= P.MAX_UINT32
    && exists ts :: Denotes(ts, text, context)
  }

  /** What each status of a refused template says. */
  ghost predicate Explained(text: string, context: Context, bytes: nat, rows: nat, status: Status) {
    match status
    case Done => false
    case InvalidTemplate => Refused(text, context, status)
    case InvalidContext => !ContextOk(context) || Refused(text, context, status)
    case TooLarge => |text| > MAX_TEMPLATE_BYTES || Refused(text, context, status)
    case TooMany => rows >= P.MAX_UINT32 || bytes + |text| > P.MAX_UINT32
  }

  method SkipPlain(text: string, i: nat) returns (j: nat)
    requires i <= |text|
    ensures i <= j <= |text| && NoBrace(text[i..j]) && (j < |text| ==> IsBrace(text[j]))
  {
    j := i;
    while j < |text| && !IsBrace(text[j])
      invariant i <= j <= |text| && forall k :: i <= k < j ==> !IsBrace(text[k])
    {
      j := j + 1;
    }
  }

  /** A length stored in 32 bits. */
  function Truncated(n: nat): nat {
    n % (P.MAX_UINT32 + 1)
  }

  /** One row of the template table. */
  datatype Row = Row(opStart: nat, opCount: nat, literalStart: nat, maxBytes: nat, context: Context)

  class Builder {
    var bytes: string
    var ops: seq<nat>
    var args: seq<nat>
    var rows: seq<Row>

    constructor ()
      ensures bytes == "" && ops == [] && args == [] && rows == []
    {
      bytes, ops, args, rows := "", [], [], [];
    }

    method AppendTemplateOp(mark: nat, op: nat, arg: nat) returns (status: Status)
      requires mark <= |ops|
      modifies this`ops, this`args
      ensures status == if old(|ops|) - mark >= MAX_TEMPLATE_OPS then TooLarge else Done
      ensures status == Done ==> ops == old(ops) + [op] && args == old(args) + [arg]
      ensures status != Done ==> ops == old(ops) && args == old(args)
    {
      if |ops| - mark >= MAX_TEMPLATE_OPS {
        return TooLarge;
      }
      ops, args := ops + [op], args + [arg];
      status := Done;
    }

    /** Append literal text, extending a literal that ends the template so far. */
    method AppendTemplateLiteral(ghost start: Mark, mark: nat, ghost list: seq<Op>,
                                 literal: string) returns (status: Status)
      requires Columns(bytes, ops, args, start, list) && mark == |start.ops|
      requires |list| <= MAX_TEMPLATE_OPS && NoLiteralCode(list)
      modifies this`bytes, this`ops, this`args
      ensures status == if |WithText(list, literal)| > MAX_TEMPLATE_OPS then TooLarge else Done
      ensures status == Done ==> Columns(bytes, ops, args, start, WithText(list, literal))
      ensures status != Done ==> bytes == old(bytes) && ops == old(ops) && args == old(args)
    {
      hide Columns, NoLiteralCode;
      if literal == "" {
        return Done;
      }
      ColumnSizes(bytes, ops, args, start, list);
      if LiteralLast(ops, mark) {
        TextMerges(bytes, ops, args, start, list, literal);
        bytes := bytes + literal;
        args := args[|args| - 1 := args[|args| - 1] + |literal|];
        return Done;
      }
      TextStarts(bytes, ops, args, start, list, literal);
      status := AppendTemplateOp(mark, LITERAL, |literal|);
      if status == Done {
        bytes := bytes + literal;
      }
    }

    method Rollback(mark: (nat, nat, nat))
      requires mark.0 <= |bytes| && mark.1 <= |ops| && mark.2 <= |args|
      modifies this`bytes, this`ops, this`args
      ensures bytes == old(bytes)[..mark.0] && ops == old(ops)[..mark.1] && args == old(args)[..mark.2]
    {
      bytes, ops, args := bytes[..mark.0], ops[..mark.1], args[..mark.2];
    }

    /** Take text that the next tokens spell out. */
    method TakeText(ghost text: string, ghost context: Context, ghost i: nat, ghost ts: seq<Token>, ghost start: Mark,
                    mark: nat, literal: string, ghost j: nat)
      returns (status: Status)
      requires Parsed(text, context, i, ts, bytes, ops, args, start) && mark == |start.ops|
      requires ReadTo(text, j, ts + Chars(literal))
      modifies this`bytes, this`ops, this`args
      ensures status == Done ==> Parsed(text, context, j, ts + Chars(literal), bytes, ops, args, start)
      ensures status != Done ==> Refused(text, context, status) && Kept(bytes, ops, args, start)
    {
      hide ReadTo, Columns, Group, WithText, Refused, Kept, NoLiteralCode, Allowed;
      ParsedKept(text, context, i, ts, bytes, ops, args, start);
      GroupRun(ts, literal);
      status := AppendTemplateLiteral(start, mark, Group(ts), literal);
      if status == Done {
        TextParsed(text, context, i, ts, bytes, ops, args, start, literal, j);
      } else {
        LargeRefused(text, context, j, ts + Chars(literal));
      }
    }

    /** Take a placeholder: a known name up to the next closing brace. */
    method TakePlace(text: string, context: Context, i: nat, ghost ts: seq<Token>, ghost start: Mark, mark: nat)
      returns (status: Status, next: nat, ghost op: nat)
      requires Parsed(text, context, i, ts, bytes, ops, args, start) && mark == |start.ops|
      requires i < |text| && text[i] == '{' && (i + 1 < |text| ==> text[i + 1] != '{')
      modifies this`ops, this`args
      ensures status == Done ==> i < next && Parsed(text, context, next, ts + [Place(op)], bytes, ops, args, start)
      ensures status != Done ==> Refused(text, context, status) && Kept(bytes, ops, args, start)
    {
      hide ReadTo, Columns, Group, Kept, NoLiteralCode, Allowed, OpAllowed, NameOf, IsPlaceholder, NoBrace, Refused;
      ParsedKept(text, context, i, ts, bytes, ops, args, start);
      next, op := i, 0;
      var end := SkipPlain(text, i + 1);
      var known, found := FindPlaceholder(text[i + 1..end]);
      if end == |text| || text[end] == '{' || end == i + 1 || !known {
        PlaceRejects(text, i, ts, end);
        NoReadingRefused(text, context);
        return InvalidTemplate, next, op;
      }
      ReadPlace(text, i, ts, end, found);
      if !OpAllowed(found, context) {
        ContextRefused(text, context, end + 1, ts, found);
        return InvalidContext, next, op;
      }
      status := AppendTemplateOp(mark, found, 0);
      if status != Done {
        PlaceLarge(ts, found);
        LargeRefused(text, context, end + 1, ts + [Place(found)]);
        return status, next, op;
      }
      PlaceParsed(text, context, i, ts, bytes, old(ops), old(args), start, found, end + 1);
      return Done, end + 1, found;
    }

    /** Parse a text into the columns, without undoing anything on refusal. */
    method ParseTemplate(text: string, context: Context, ghost start: Mark,
                         mark: nat) returns (status: Status, ghost ts: seq<Token>)
      requires start == Mark(bytes, ops, args) && mark == |ops|
      modifies this`bytes, this`ops, this`args
      ensures status == Done ==> Parsed(text, context, |text|, ts, bytes, ops, args, start)
      ensures status != Done ==> Refused(text, context, status) && Kept(bytes, ops, args, start)
    {
      hide Parsed, Refused, Kept, ReadTo, NoBrace;
      var i := 0;
      ts := [];
      NothingParsed(text, context, start);
      while i < |text|
        invariant Parsed(text, context, i, ts, bytes, ops, args, start) && i <= |text|
        decreases |text| - i
      {
        ParsedReads(text, context, i, ts, bytes, ops, args, start);
        var j := SkipPlain(text, i);
        ReadRun(text, i, ts, j);
        status := TakeText(text, context, i, ts, start, mark, text[i..j], j);
        if status != Done {
          return;
        }
        ts := ts + Chars(text[i..j]);
        if j == |text| {
          return;
        }
        ParsedReads(text, context, j, ts, bytes, ops, args, start);
        if j + 1 < |text| && text[j + 1] == text[j] {
          ReadDoubled(text, j, ts);
          OneChar(text[j]);
          status := TakeText(text, context, j, ts, start, mark, [text[j]], j + 2);
          if status != Done {
            return;
          }
          ts, i := ts + Chars([text[j]]), j + 2;
        } else if text[j] == '}' {
          ClosingRejects(text, j, ts);
          NoReadingRefused(text, context);
          ParsedKept(text, context, j, ts, bytes, ops, args, start);
          return InvalidTemplate, ts;
        } else {
          ghost var op;
          status, i, op := TakePlace(text, context, j, ts, start, mark);
          if status != Done {
            return;
          }
          ts := ts + [Place(op)];
          ParsedReads(text, context, i, ts, bytes, ops, args, start);
        }
      }
      status := Done;
    }

    /** Parse a template into the columns and add its row. It succeeds exactly when the
        text is the print of allowed tokens within the limits; a refusal leaves every
        column as it was. */
    method AddTemplate(text: string, context: Context) returns (status: Status, id: nat, ghost ts: seq<Token>)
      modifies this
      ensures status == Done <==> Acceptable(text, context, old(|bytes|), old(|rows|))
      ensures status == Done ==> Denotes(ts, text, context)
      ensures status == Done ==> Columns(bytes, ops, args, old(Mark(bytes, ops, args)), Group(ts))
      ensures status == Done ==>
                rows == old(rows) + [Row(Truncated(old(|ops|)), |Group(ts)|, old(|bytes|), |Texts(Group(ts))|, context)]
      ensures status == Done ==> id == |rows|
      ensures status != Done ==> bytes == old(bytes) && ops == old(ops) && args == old(args) && rows == old(rows)
      ensures status != Done ==> Explained(text, context, old(|bytes|), old(|rows|), status)
    {
      hide Parsed, Refused, Kept, Denotes, Columns, Group, Texts, Print, TokensOk;
      id, ts := 0, [];
      if !ContextOk(context) {
        return InvalidContext, id, ts;
      }
      if |text| > MAX_TEMPLATE_BYTES {
        return TooLarge, id, ts;
      }
      if |rows| >= P.MAX_UINT32 || |bytes| + |text| > P.MAX_UINT32 {
        return TooMany, id, ts;
      }
      var mark := (|bytes|, |ops|, |args|);
      ghost var start := Mark(bytes, ops, args);
      status, ts := ParseTemplate(text, context, start, |ops|);
      if status != Done {
        KeptPrefix(bytes, ops, args, start);
        Rollback(mark);
        RefusedDenotes(text, context, status);
        return;
      }
      ParsedDenotes(text, context, ts, bytes, ops, args, start);
      rows := rows + [Row(Truncated(mark.1), |ops| - mark.1, mark.0, |bytes| - mark.0, context)];
      id := |rows|;
    }
  }
}
