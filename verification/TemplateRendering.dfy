/** Reading stored templates back: the columns determine the operations, and rendering
    a stored template substitutes the placeholders of its text. */
module TemplateRendering {
  import opened Templates

  /** The text that stands for each placeholder. */
  type Bindings = nat -> string

  /** What there is to say of a decision; identifiers are decimal digits. */
  datatype Values = Values(policyName: string, policyVersion: string, request: string, outcome: string,
                           requirement: string, clause: string, node: string, reason: string, evidenceKind: string,
                           evidenceState: string, requiredEvidenceState: string, evidence: string)

  /** What the renderer appends for an operation. */
  function ValueOf(op: nat, values: Values): string {
    match op
    case 2 => values.policyName
    case 3 => values.policyVersion
    case 4 => "R" + values.request
    case 5 => values.outcome
    case 6 => "R" + values.requirement
    case 7 => "C" + values.clause
    case 8 => "N" + values.node
    case 9 => values.reason
    case 10 => values.evidenceKind
    case 11 => values.evidenceState
    case 12 => values.requiredEvidenceState
    case 13 => "E" + values.evidence
    case _ => ""
  }

  function BindingsOf(values: Values): Bindings {
    (op: nat) => ValueOf(op, values)
  }

  /** What a placeholder's name promises. */
  function Named(name: string, values: Values): string {
    if name == "policy_name" then values.policyName
    else if name == "policy_version" then values.policyVersion
    else if name == "outcome" then values.outcome
    else if name == "reason" then values.reason
    else if name == "request_id" then "R" + values.request
    else if name == "requirement_id" then "R" + values.requirement
    else if name == "clause_id" then "C" + values.clause
    else if name == "node_id" then "N" + values.node
    else if name == "evidence_id" then "E" + values.evidence
    else if name == "evidence_kind" then values.evidenceKind
    else if name == "evidence_state" then values.evidenceState
    else if name == "required_evidence_state" then values.requiredEvidenceState
    else ""
  }

  /** The operation that a name stands for appends what the name promises. */
  lemma NameKeepsPromise(op: nat, values: Values)
    requires IsPlaceholder(op)
    ensures ValueOf(op, values) == Named(NameOf(op), values)
  {
  }

  /** A template text with its braces undone and every named value in its place. */
  function Filled(ts: seq<Token>, values: Values): string
    requires TokensOk(ts)
  {
    if ts == [] then ""
    else
      var last := ts[|ts| - 1];
      Filled(ts[..|ts| - 1], values) + if last.Char? then [last.c] else Named(NameOf(last.op), values)
  }

  lemma {:induction false} FilledIs(ts: seq<Token>, values: Values)
    requires TokensOk(ts)
    ensures Substitute(ts, BindingsOf(values)) == Filled(ts, values)
  {
    hide ValueOf, Named, NameOf;
    if ts != [] {
      FilledIs(ts[..|ts| - 1], values);
      var last := ts[|ts| - 1];
      assert TokenOk(last);
      if last.Place? {
        NameKeepsPromise(last.op, values);
      }
    }
  }

  /** A template text with its braces undone and its placeholders replaced. */
  function Substitute(ts: seq<Token>, bindings: Bindings): string {
    if ts == [] then ""
    else Substitute(ts[..|ts| - 1], bindings) + Piece(ts[|ts| - 1], bindings)
  }

  function Shown(op: Op, bindings: Bindings): string {
    match op
    case Literal(text) => text
    case Placeholder(p) => bindings(p)
  }

  function Rendered(list: seq<Op>, bindings: Bindings): string {
    if list == [] then "" else Rendered(list[..|list| - 1], bindings) + Shown(list[|list| - 1], bindings)
  }

  lemma {:induction false} SubstituteConcat(a: seq<Token>, b: seq<Token>, bindings: Bindings)
    ensures Substitute(a + b, bindings) == Substitute(a, bindings) + Substitute(b, bindings)
  {
    hide Substitute;
    SubstituteNone(bindings);
    if b == [] {
      assert a + b == a;
    } else {
      var init, t := b[..|b| - 1], b[|b| - 1];
      assert b == init + [t] && a + b == a + init + [t];
      SubstituteSnoc(a + init, t, bindings);
      SubstituteSnoc(init, t, bindings);
      SubstituteConcat(a, init, bindings);
    }
  }

  function Piece(t: Token, bindings: Bindings): string {
    match t
    case Char(c) => [c]
    case Place(op) => bindings(op)
  }

  lemma SubstituteNone(bindings: Bindings)
    ensures Substitute([], bindings) == ""
  {
  }

  lemma SubstituteSnoc(ts: seq<Token>, t: Token, bindings: Bindings)
    ensures Substitute(ts + [t], bindings) == Substitute(ts, bindings) + Piece(t, bindings)
  {
    assert (ts + [t])[..|ts|] == ts;
  }

  lemma {:induction false} SubstituteChars(s: string, bindings: Bindings)
    ensures Substitute(Chars(s), bindings) == s
  {
    if s != "" {
      var init := s[..|s| - 1];
      SubstituteChars(init, bindings);
      assert Chars(s)[..|s| - 1] == Chars(init);
      assert s == init + [s[|s| - 1]];
    }
  }

  /** Rendering operations is substituting in their tokens. */
  lemma {:induction false} RenderedIs(list: seq<Op>, bindings: Bindings)
    ensures Rendered(list, bindings) == Substitute(Flatten(list), bindings)
  {
    if list != [] {
      var init, op := list[..|list| - 1], list[|list| - 1];
      RenderedIs(init, bindings);
      ShownIs(op, bindings);
      hide Substitute;
      SubstituteConcat(Flatten(init), TokensOf(op), bindings);
    }
  }

  lemma ShownIs(op: Op, bindings: Bindings)
    ensures Shown(op, bindings) == Substitute(TokensOf(op), bindings)
  {
    match op
    case Literal(text) => SubstituteChars(text, bindings);
    case Placeholder(p) => assert Substitute([Place(p)], bindings) == Substitute([], bindings) + bindings(p);
  }

  /** What a renderer is handed: the literal bytes and the operations with their arguments. */
  datatype Template = Template(literals: string, ops: seq<nat>, args: seq<nat>)

  ghost predicate Encodes(t: Template, list: seq<Op>) {
    t.literals == Texts(list) && t.ops == Codes(list) && t.args == Args(list) && NoLiteralCode(list)
  }

  function LiteralOf(op: Op): string {
    match op case Literal(text) => text case Placeholder(_) => ""
  }

  lemma EncodesSnoc(t: Template, list: seq<Op>)
    requires Encodes(t, list) && list != []
    ensures var n, op := |list| - 1, list[|list| - 1];
            && |t.ops| == |t.args| == n + 1 && Arg(op) <= |t.literals| && t.ops[n] == Code(op) && t.args[n] == Arg(op)
            && Encodes(Template(t.literals[..|t.literals| - Arg(op)], t.ops[..n], t.args[..n]), list[..n])
            && t.literals[|t.literals| - Arg(op)..] == LiteralOf(op)
            && (t.ops[n] == LITERAL <==> op.Literal?)
  {
    var n, op := |list| - 1, list[|list| - 1];
    assert Texts(list) == Texts(list[..n]) + LiteralOf(op);
    hide Texts;
    assert t.ops[..n] == Codes(list[..n]) && t.args[..n] == Args(list[..n]);
    assert t.literals[..|t.literals| - Arg(op)] == Texts(list[..n]);
  }

  /** The columns determine the list of operations. */
  lemma {:induction false} DecodingIsUnique(t: Template, a: seq<Op>, b: seq<Op>)
    requires Encodes(t, a) && Encodes(t, b)
    ensures a == b
    decreases |a|
  {
    hide Texts;
    assert |Codes(a)| == |a| && |Codes(b)| == |b|;
    if a != [] {
      EncodesSnoc(t, a);
      EncodesSnoc(t, b);
      hide Encodes;
      var n := |a| - 1;
      DecodingIsUnique(Template(t.literals[..|t.literals| - t.args[n]], t.ops[..n], t.args[..n]), a[..n], b[..n]);
      assert a == a[..n] + [a[n]] && b == b[..n] + [b[n]];
    }
  }

  lemma {:induction false} TextsPrefix(list: seq<Op>, k: nat)
    requires k <= |list|
    ensures Texts(list[..k]) <= Texts(list)
  {
    if k == |list| {
      assert list[..k] == list;
    } else {
      var init := list[..|list| - 1];
      TextsPrefix(init, k);
      assert init[..k] == list[..k];
    }
  }

  lemma TextsAt(list: seq<Op>, k: nat)
    requires k < |list|
    ensures Texts(list[..k + 1]) == Texts(list[..k]) + LiteralOf(list[k])
    ensures var from := |Texts(list[..k])|;
            from + Arg(list[k]) <= |Texts(list)| && Texts(list)[from..from + Arg(list[k])] == LiteralOf(list[k])
  {
    assert list[..k + 1] == list[..k] + [list[k]];
    TextsSnoc(list[..k], list[k]);
    TextsPrefix(list, k + 1);
    hide Texts;
    var all, from := Texts(list), |Texts(list[..k])|;
    assert all[..from + Arg(list[k])] == Texts(list[..k]) + LiteralOf(list[k]);
    assert all[from..from + Arg(list[k])] == all[..from + Arg(list[k])][from..];
  }

  lemma RenderedAt(list: seq<Op>, k: nat, bindings: Bindings)
    requires k < |list|
    ensures Rendered(list[..k + 1], bindings) == Rendered(list[..k], bindings) + Shown(list[k], bindings)
  {
    assert list[..k + 1][..k] == list[..k];
  }

  /** Append the text of a template. */
  method AppendRenderedTemplate(dst: string, t: Template, ghost list: seq<Op>, bindings: Bindings) returns (out: string)
    requires Encodes(t, list)
    ensures out == dst + Rendered(list, bindings)
  {
    hide Texts, Rendered;
    out := dst;
    var literal := 0;
    RenderedNone(bindings);
    for index := 0 to |t.ops|
      invariant literal == |Texts(list[..index])|
      invariant out == dst + Rendered(list[..index], bindings)
    {
      TextsAt(list, index);
      RenderedAt(list, index, bindings);
      if t.ops[index] == LITERAL {
        var end := literal + t.args[index];
        out := out + t.literals[literal..end];
        literal := end;
      } else {
        out := out + bindings(t.ops[index]);
      }
    }
    assert list[..|list|] == list;
  }

  lemma RenderedNone(bindings: Bindings)
    ensures Rendered([], bindings) == "" && Texts([]) == ""
  {
  }

  // ----- the template table -----

  /** The operations of several templates, one after the other. */
  function AllOps(readings: seq<seq<Token>>): seq<Op> {
    if readings == [] then [] else AllOps(readings[..|readings| - 1]) + Group(readings[|readings| - 1])
  }

  /** Row k lies behind the operations and bytes of the templates before it. */
  ghost predicate RowOk(row: Row, readings: seq<seq<Token>>, k: nat)
    requires k < |readings|
  {
    var before, own := AllOps(readings[..k]), Group(readings[k]);
    && row.opStart == Truncated(|before|) && row.opCount == |own|
    && row.literalStart == |Texts(before)| && row.maxBytes == |Texts(own)|
  }

  const EMPTY: Mark := Mark("", [], [])

  /** The builder holds exactly the templates that have been read. */
  ghost predicate TableOk(bytes: string, ops: seq<nat>, args: seq<nat>, rows: seq<Row>, readings: seq<seq<Token>>) {
    && |rows| == |readings|
    && Columns(bytes, ops, args, EMPTY, AllOps(readings))
    && (forall k :: 0 <= k < |readings| ==> TokensOk(readings[k]))
    && forall k :: 0 <= k < |rows| ==> RowOk(rows[k], readings, k)
  }

  lemma {:induction false} TextsConcat(a: seq<Op>, b: seq<Op>)
    ensures Texts(a + b) == Texts(a) + Texts(b)
  {
    RenderedNone(_ => "");
    hide Texts;
    if b == [] {
      assert a + b == a;
    } else {
      var init, op := b[..|b| - 1], b[|b| - 1];
      assert b == init + [op] && a + b == a + init + [op];
      TextsSnoc(a + init, op);
      TextsSnoc(init, op);
      TextsConcat(a, init);
    }
  }

  lemma ColumnsConcat(bytes: string, ops: seq<nat>, args: seq<nat>, mark: Mark, a: seq<Op>, b: seq<Op>)
    requires Columns(mark.bytes, mark.ops, mark.args, EMPTY, a) && Columns(bytes, ops, args, mark, b)
    ensures Columns(bytes, ops, args, EMPTY, a + b)
  {
    TextsConcat(a, b);
    hide Texts;
    assert Codes(a + b) == Codes(a) + Codes(b) && Args(a + b) == Args(a) + Args(b);
  }

  /** Adding a template, as the builder does it, keeps the table. */
  lemma AddKeepsTable(bytes: string, ops: seq<nat>, args: seq<nat>, rows: seq<Row>, mark: Mark,
                      readings: seq<seq<Token>>,
                      ts: seq<Token>, context: Context)
    requires TableOk(mark.bytes, mark.ops, mark.args, rows, readings) && TokensOk(ts)
    requires Columns(bytes, ops, args, mark, Group(ts))
    ensures TableOk(bytes, ops, args,
                    rows + [Row(Truncated(|mark.ops|), |Group(ts)|, |mark.bytes|, |Texts(Group(ts))|, context)],
                    readings + [ts])
  {
    hide Group, Texts, TokensOk;
    var next, n := readings + [ts], |readings|;
    assert next[..n] == readings;
    assert AllOps(next) == AllOps(readings) + Group(ts);
    ColumnsConcat(bytes, ops, args, mark, AllOps(readings), Group(ts));
    hide AllOps;
    forall k | 0 <= k < n
      ensures next[k] == readings[k] && next[..k] == readings[..k]
    {
    }
  }

  /** The end of a row's literal bytes is the start of the next row's. */
  function LiteralEnd(bytes: string, rows: seq<Row>, k: nat): nat
    requires k < |rows|
  {
    if k + 1 < |rows| then rows[k + 1].literalStart else |bytes|
  }

  /** The template of a row. */
  function ValidatedTemplate(bytes: string, ops: seq<nat>, args: seq<nat>, rows: seq<Row>, k: nat): Template
    requires k < |rows| && rows[k].literalStart <= LiteralEnd(bytes, rows, k) <= |bytes|
    requires rows[k].opStart + rows[k].opCount <= |ops| == |args|
  {
    var start, end := rows[k].opStart, rows[k].opStart + rows[k].opCount;
    Template(bytes[rows[k].literalStart..LiteralEnd(bytes, rows, k)], ops[start..end], args[start..end])
  }

  lemma {:induction false} AllOpsPrefix(readings: seq<seq<Token>>, k: nat)
    requires k <= |readings|
    ensures exists rest :: AllOps(readings) == AllOps(readings[..k]) + rest
  {
    if k == |readings| {
      assert readings[..k] == readings && AllOps(readings) == AllOps(readings) + [];
    } else {
      var init, last := readings[..|readings| - 1], Group(readings[|readings| - 1]);
      AllOpsPrefix(init, k);
      assert init[..k] == readings[..k];
      var rest :| AllOps(init) == AllOps(init[..k]) + rest;
      assert AllOps(readings) == AllOps(readings[..k]) + (rest + last);
    }
  }

  /** The operations split around template k. */
  lemma SplitAt(readings: seq<seq<Token>>, k: nat) returns (rest: seq<Op>)
    requires k < |readings|
    ensures AllOps(readings) == AllOps(readings[..k]) + Group(readings[k]) + rest
    ensures k + 1 < |readings| ==> AllOps(readings[..k + 1]) == AllOps(readings[..k]) + Group(readings[k])
    ensures k + 1 == |readings| ==> rest == []
  {
    hide Group;
    assert readings[..k + 1][..k] == readings[..k];
    AllOpsPrefix(readings, k + 1);
    rest :| AllOps(readings) == AllOps(readings[..k + 1]) + rest;
    if k + 1 == |readings| {
      assert readings[..k + 1] == readings;
    }
  }

  /** Every stored template is handed out as the operations of its own text, as long as
      its operations start within 32 bits. */
  lemma StoredTemplate(bytes: string, ops: seq<nat>, args: seq<nat>, rows: seq<Row>, readings: seq<seq<Token>>, k: nat)
    requires TableOk(bytes, ops, args, rows, readings) && k < |rows| && |AllOps(readings[..k])| <= P.MAX_UINT32
    ensures rows[k].literalStart <= LiteralEnd(bytes, rows, k) <= |bytes|
    ensures rows[k].opStart + rows[k].opCount <= |ops| == |args|
    ensures Encodes(ValidatedTemplate(bytes, ops, args, rows, k), Group(readings[k]))
  {
    hide Group, AllOps, Texts, Codes, Args, NoLiteralCode, TokensOk;
    var before, own := AllOps(readings[..k]), Group(readings[k]);
    var rest := SplitAt(readings, k);
    SlicedColumns(before, own, rest);
    GroupCodes(readings[k]);
    assert RowOk(rows[k], readings, k);
    assert Truncated(|before|) == |before|;
    RowEnds(bytes, ops, args, rows, readings, k, rest);
  }

  lemma SlicedColumns(a: seq<Op>, b: seq<Op>, c: seq<Op>)
    ensures var all, from, to := a + b + c, |a|, |a| + |b|;
            && |Codes(all)| == |Args(all)| == |all|
            && Codes(all)[from..to] == Codes(b) && Args(all)[from..to] == Args(b)
            && Texts(all) == Texts(a) + Texts(b) + Texts(c)
            && Texts(all)[|Texts(a)|..|Texts(a)| + |Texts(b)|] == Texts(b)
  {
    TextsConcat(a + b, c);
    TextsConcat(a, b);
    hide Texts;
    LiteralsSlice(Texts(a), Texts(b), Texts(c));
  }

  lemma RowEnds(bytes: string, ops: seq<nat>, args: seq<nat>, rows: seq<Row>, readings: seq<seq<Token>>, k: nat,
                rest: seq<Op>)
    requires TableOk(bytes, ops, args, rows, readings) && k < |rows|
    requires AllOps(readings) == AllOps(readings[..k]) + Group(readings[k]) + rest
    requires k + 1 < |readings| ==> AllOps(readings[..k + 1]) == AllOps(readings[..k]) + Group(readings[k])
    requires k + 1 == |readings| ==> rest == []
    ensures LiteralEnd(bytes, rows, k) == |Texts(AllOps(readings[..k]))| + |Texts(Group(readings[k]))| <= |bytes|
  {
    hide Group, AllOps, Codes, Args, TokensOk;
    SlicedColumns(AllOps(readings[..k]), Group(readings[k]), rest);
    TextsConcat(AllOps(readings[..k]), Group(readings[k]));
    if k + 1 < |rows| {
      assert RowOk(rows[k + 1], readings, k + 1);
    }
  }

  lemma LiteralsSlice(a: string, b: string, c: string)
    ensures (a + b + c)[|a|..|a| + |b|] == b
  {
  }

  /** Rendering a stored template fills the named values into its text. */
  method RenderStored(bytes: string, ops: seq<nat>, args: seq<nat>, rows: seq<Row>, k: nat, values: Values,
                      ghost readings: seq<seq<Token>>) returns (out: string)
    requires TableOk(bytes, ops, args, rows, readings) && k < |rows| && |AllOps(readings[..k])| <= P.MAX_UINT32
    ensures TokensOk(readings[k]) && out == Filled(readings[k], values)
  {
    hide Encodes, Group, Substitute, Rendered, AllOps, Columns, RowOk, Filled, BindingsOf;
    StoredTemplate(bytes, ops, args, rows, readings, k);
    var t := ValidatedTemplate(bytes, ops, args, rows, k);
    out := AppendRenderedTemplate("", t, Group(readings[k]), BindingsOf(values));
    RenderedIs(Group(readings[k]), BindingsOf(values));
    FlattenGroup(readings[k]);
    FilledIs(readings[k], values);
  }
}
