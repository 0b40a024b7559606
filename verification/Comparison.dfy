/** Why a comparison over referenced fields decides the whole domain: requests that
    agree on every field a policy reads get the same instruction values. */
module Comparison {
  import opened Truth
  import opened Programs
  import opened Enumeration
  import opened Verdicts
  import W = Witnesses

  type FieldId = nat

  /** A request: a value for every field, and an evidence scenario. */
  datatype Request = Request(facts: FieldId -> W.Value, evidence: seq<W.Evidence>)

  /** How leaf instructions read a request: evidence rows read the evidence, rows
      with a field read that field, and constants read nothing. */
  datatype Reader = Reader(
    constant: Payload -> Cell,
    fact: (Payload, W.Value) -> Cell,
    evidence: (Payload, seq<W.Evidence>) -> Cell)

  function Leaf(reader: Reader, request: Request): Payload -> Cell {
    (p: Payload) =>
      if p.evidenceKind != 0 then reader.evidence(p, request.evidence)
      else if p.field != 0 then reader.fact(p, request.facts(p.field))
      else reader.constant(p)
  }

  /** A policy under comparison: its program, how it reads requests, the outcome it
      derives from the instruction values, and the evidence its catalogue knows. */
  datatype Policy = Policy(program: Program, reader: Reader, outcome: seq<Cell> -> nat, recognizes: W.Evidence -> bool)

  /** Some row names the field. */
  predicate Reads(p: Program, field: FieldId) {
    field != 0 && exists i :: 0 <= i < |p.rows| && p.rows[i].payload.field == field
  }

  predicate UsesEvidence(p: Program) {
    exists i :: 0 <= i < |p.rows| && p.rows[i].payload.evidenceKind != 0
  }

  /** Requests a policy cannot tell apart. */
  ghost predicate Indistinct(p: Program, a: Request, b: Request) {
    && (forall f :: Reads(p, f) ==> a.facts(f) == b.facts(f))
    && (UsesEvidence(p) ==> a.evidence == b.evidence)
  }

  lemma IndistinctRequests(p: Program, reader: Reader, a: Request, b: Request)
    requires Topological(p) && Indistinct(p, a, b)
    ensures AllValues(p, Leaf(reader, a)) == AllValues(p, Leaf(reader, b))
  {
    forall j | 0 <= j < |p.rows|
      ensures Leaf(reader, a)(p.rows[j].payload) == Leaf(reader, b)(p.rows[j].payload)
    {
      if p.rows[j].payload.evidenceKind == 0 && p.rows[j].payload.field != 0 {
        assert Reads(p, p.rows[j].payload.field);
      } else if p.rows[j].payload.evidenceKind != 0 {
        assert UsesEvidence(p);
      }
    }
    hide Leaf, Value;
    forall i | 0 <= i < |p.rows|
      ensures Value(p, Leaf(reader, a), i) == Value(p, Leaf(reader, b), i)
    {
      AgreeingLeaves(p, Leaf(reader, a), Leaf(reader, b), i);
    }
  }

  predicate Marked(table: seq<bool>, field: FieldId) {
    1 <= field <= |table| && table[field - 1]
  }

  /** Mark the fields a program reads. */
  method MarkReferenced(p: Program, marked: seq<bool>) returns (r: seq<bool>)
    ensures |r| == |marked|
    ensures forall f: nat :: Marked(r, f) <==> Marked(marked, f) || (f <= |marked| && Reads(p, f))
  {
    r := marked;
    for i := 0 to |p.rows|
      invariant |r| == |marked|
      invariant forall f: nat :: Marked(r, f) <==>
                  Marked(marked, f) || (1 <= f <= |marked| && exists k :: 0 <= k < i && p.rows[k].payload.field == f)
    {
      var field := p.rows[i].payload.field;
      ghost var before := r;
      if field != 0 && field <= |r| {
        r := r[field - 1 := true];
      }
      forall f: nat
        ensures Marked(r, f) <==> Marked(before, f) || (f == field && 1 <= f <= |marked|)
      {
      }
    }
  }

  /** The dimensions of a search: the fields either program reads. */
  method CollectDependencies(before: Program, after: Program, fieldCount: nat) returns (fields: seq<FieldId>)
    ensures forall f: nat :: f in fields <==> f <= fieldCount && (Reads(before, f) || Reads(after, f))
    ensures forall i, j :: 0 <= i < j < |fields| ==> fields[i] < fields[j]
  {
    var referenced := seq(fieldCount, _ => false);
    referenced := MarkReferenced(before, referenced);
    referenced := MarkReferenced(after, referenced);
    hide Reads;
    fields := [];
    for id := 0 to fieldCount
      invariant forall f: nat :: f in fields <==> f <= id && Marked(referenced, f)
      invariant forall i, j :: 0 <= i < j < |fields| ==> fields[i] < fields[j]
    {
      if referenced[id] {
        assert Marked(referenced, id + 1);
        forall i | 0 <= i < |fields|
          ensures fields[i] <= id
        {
          assert fields[i] in fields;
        }
        fields := fields + [id + 1];
      }
    }
  }

  // ----- candidates and requests -----

  /** A search over the fields the policies read: dimension d offers options[d]. */
  datatype Search = Search(fields: seq<FieldId>, options: seq<seq<W.Value>>, scenarios: seq<seq<W.Evidence>>,
                           usesEvidence: bool)

  function Counts(s: Search): seq<nat> {
    seq(|s.options| + 1, d requires 0 <= d <= |s.options| => if d < |s.options| then |s.options[d]| else |s.scenarios|)
  }

  /** Every dimension has an option, there is a scenario, and no field repeats. A
      search that does not use evidence has a single scenario. */
  predicate SearchOk(s: Search) {
    && |s.fields| == |s.options| && |s.scenarios| > 0 && (!s.usesEvidence ==> |s.scenarios| == 1)
    && (forall d :: 0 <= d < |s.options| ==> |s.options[d]| > 0)
    && (forall d, e :: 0 <= d < e < |s.fields| ==> s.fields[d] != s.fields[e])
  }

  lemma CountsAreRadices(s: Search)
    requires SearchOk(s)
    ensures Radices(Counts(s))
  {
  }

  /** The dimension of a field, if it is searched. */
  function DimensionOf(fields: seq<FieldId>, f: FieldId): int
    ensures var d := DimensionOf(fields, f); -1 <= d < |fields| && (d >= 0 ==> fields[d] == f) && (d < 0 ==>
               f !in fields)
  {
    if fields == [] then -1
    else if fields[|fields| - 1] == f then |fields| - 1
    else DimensionOf(fields[..|fields| - 1], f)
  }

  /** The request that a choice of options stands for; other fields are missing. */
  function RequestAt(s: Search, options: seq<nat>): Request
    requires SearchOk(s) && IsOptions(Counts(s), options)
  {
    Request(
      (f: FieldId) =>
        var d := DimensionOf(s.fields, f);
        if 0 <= d < |s.options| && d < |options| && options[d] < |s.options[d]| then s.options[d][options[d]]
        else W.Missing,
      s.scenarios[options[|s.options|]])
  }

  /** A request whose searched fields take offered values. */
  ghost predicate InDomain(s: Search, r: Request)
    requires SearchOk(s)
  {
    && (forall d :: 0 <= d < |s.fields| ==> r.facts(s.fields[d]) in s.options[d])
    && (s.usesEvidence ==> r.evidence in s.scenarios)
  }

  /** Every request of the domain agrees with some candidate on the searched fields
      and on evidence that is used. */
  lemma CandidateFor(s: Search, r: Request) returns (options: seq<nat>)
    requires SearchOk(s) && InDomain(s, r)
    ensures IsOptions(Counts(s), options)
    ensures s.usesEvidence ==> RequestAt(s, options).evidence == r.evidence
    ensures forall f :: f in s.fields ==> RequestAt(s, options).facts(f) == r.facts(f)
  {
    var digits := OptionsFor(s, r, |s.fields|);
    var scenario :| 0 <= scenario < |s.scenarios| && (s.usesEvidence ==> s.scenarios[scenario] == r.evidence);
    options := digits + [scenario];
    forall f | f in s.fields
      ensures RequestAt(s, options).facts(f) == r.facts(f)
    {
      var d := DimensionOf(s.fields, f);
      assert s.fields[d] == f && options[d] == digits[d];
    }
  }

  lemma {:induction false} OptionsFor(s: Search, r: Request, n: nat) returns (digits: seq<nat>)
    requires SearchOk(s) && InDomain(s, r) && n <= |s.fields|
    ensures |digits| == n
    ensures forall d :: 0 <= d < n ==> digits[d] < |s.options[d]| && s.options[d][digits[d]] == r.facts(s.fields[d])
  {
    if n == 0 {
      digits := [];
    } else {
      var before := OptionsFor(s, r, n - 1);
      assert r.facts(s.fields[n - 1]) in s.options[n - 1];
      var o :| 0 <= o < |s.options[n - 1]| && s.options[n - 1][o] == r.facts(s.fields[n - 1]);
      digits := before + [o];
    }
  }

  function Recognized(recognizes: W.Evidence -> bool, evidence: seq<W.Evidence>): nat {
    if evidence == [] then 0
    else Recognized(recognizes, evidence[..|evidence| - 1]) + if recognizes(evidence[|evidence| - 1]) then 1 else 0
  }

  /** The records of a scenario that a candidate expands to. */
  function Records(policy: Policy, evidence: seq<W.Evidence>): nat {
    if UsesEvidence(policy.program) then Recognized(policy.recognizes, evidence) else 0
  }

  /** What the executor and the row comparison give for a request. `different`
      compares the rows the two policies produce. */
  function EvaluateAt(before: Policy, after: Policy, different: (seq<Cell>, seq<Cell>) -> bool, r: Request): Evaluation
    requires Topological(before.program) && Topological(after.program)
  {
    var a, b := AllValues(before.program, Leaf(before.reader, r)), AllValues(after.program, Leaf(after.reader, r));
    Evaluation(before.outcome(a), after.outcome(b), different(a, b), Records(before, r.evidence),
               Records(after, r.evidence))
  }

  /** The evaluations of all candidates, in index order. */
  ghost predicate IsEnumeration(s: Search, before: Policy, after: Policy, different: (seq<Cell>, seq<Cell>) -> bool,
                                rows: seq<Evaluation>)
    requires SearchOk(s) && Topological(before.program) && Topological(after.program)
  {
    CountsAreRadices(s);
    && |rows| == Product(Counts(s), |Counts(s)|)
    && forall i :: 0 <= i < |rows| ==> CandidateRow(s, before, after, different, rows, i)
  }

  ghost predicate CandidateRow(s: Search, before: Policy, after: Policy, different: (seq<Cell>, seq<Cell>) -> bool,
                               rows: seq<Evaluation>, i: nat)
    requires SearchOk(s) && Topological(before.program) && Topological(after.program)
    requires |rows| == Product(Counts(s), |Counts(s)|) && i < |rows|
  {
    CountsAreRadices(s);
    EnumerationIsBijective(Counts(s), i);
    rows[i] == EvaluateAt(before, after, different, RequestAt(s, Digits(Counts(s), i)))
  }

  /** The search covers what the policies read. */
  ghost predicate Covers(s: Search, before: Policy, after: Policy) {
    && (forall f :: Reads(before.program, f) || Reads(after.program, f) ==> f in s.fields)
    && (UsesEvidence(before.program) || UsesEvidence(after.program) ==> s.usesEvidence)
  }

  /** Every request of the domain is evaluated, up to what the policies cannot tell
      apart, by some candidate. */
  lemma RequestIsEvaluated(s: Search, before: Policy, after: Policy, different: (seq<Cell>, seq<Cell>) -> bool,
                           rows: seq<Evaluation>, r: Request) returns (i: nat)
    requires SearchOk(s) && Topological(before.program) && Topological(after.program) && Covers(s, before, after)
    requires IsEnumeration(s, before, after, different, rows) && InDomain(s, r)
    ensures i < |rows| && rows[i] == EvaluateAt(before, after, different, r)
  {
    CountsAreRadices(s);
    var options := CandidateFor(s, r);
    DigitsOfEncode(Counts(s), options);
    i := Encode(Counts(s), options, |Counts(s)|);
    assert CandidateRow(s, before, after, different, rows, i);
    var candidate := RequestAt(s, options);
    hide RequestAt, Topological, Reads, UsesEvidence;
    IndistinctRequests(before.program, before.reader, candidate, r);
    IndistinctRequests(after.program, after.reader, candidate, r);
  }

  /** An equivalent verdict on a closed domain is a proof: no request of the domain
      makes the policies differ. A differing verdict comes with a request that does. */
  lemma VerdictDecides(s: Search, before: Policy, after: Policy, different: (seq<Cell>, seq<Cell>) -> bool,
                       rows: seq<Evaluation>, matrix: seq<Transition>, batchRows: nat)
    requires SearchOk(s) && Topological(before.program) && Topological(after.program) && Covers(s, before, after)
    requires IsEnumeration(s, before, after, different, rows)
    requires MatrixOk(matrix) && batchRows > 0 && Completes(rows, batchRows)
    ensures var v := Verdict(matrix, rows, batchRows, true);
            && (v.outcome == Equivalent <==> forall r :: InDomain(s, r) ==>
                 !EvaluateAt(before, after, different, r).different)
            && (v.counterexample.Some? ==> v.counterexample.value < |rows| && rows[v.counterexample.value].different)
            && (v.outcome != Equivalent <==> v.counterexample.Some?)
  {
    var v := Verdict(matrix, rows, batchRows, true);
    CompletesExactly(matrix, rows, batchRows, true);
    CounterexamplesAreLeast(matrix, rows, |rows|, true);
    EquivalentIffNone(matrix, rows);
    hide Fold, Topological, EvaluateAt, RequestAt, Product, Summary, Verdict, Light, IsEnumeration, Covers;
    if v.outcome == Equivalent {
      forall r | InDomain(s, r)
        ensures !EvaluateAt(before, after, different, r).different
      {
        var i := RequestIsEvaluated(s, before, after, different, rows, r);
        assert !DifferentAt(rows)(i);
      }
    } else {
      var k := v.counterexample.value;
      assert DifferentAt(rows)(k);
      CandidateInDomain(s, before, after, different, rows, k);
    }
  }

  /** Whether the evidence budget is met is known from the domain: it suffices that
      no scenario has more recognised records than a batch row may expand to. */
  lemma DomainFits(s: Search, before: Policy, after: Policy, different: (seq<Cell>, seq<Cell>) -> bool,
                   rows: seq<Evaluation>, batchRows: nat, m: nat)
    requires SearchOk(s) && Topological(before.program) && Topological(after.program)
    requires IsEnumeration(s, before, after, different, rows)
    requires batchRows > 0 && batchRows * m <= EVIDENCE_BUDGET
    requires forall k :: 0 <= k < |s.scenarios| ==>
               Records(before, s.scenarios[k]) <= m && Records(after, s.scenarios[k]) <= m
    ensures Light(rows, batchRows)
  {
    hide Topological, Product, Records, Light;
    CountsAreRadices(s);
    forall i | 0 <= i < |rows|
      ensures rows[i].oldRecords <= m && rows[i].newRecords <= m
    {
      assert CandidateRow(s, before, after, different, rows, i);
      EnumerationIsBijective(Counts(s), i);
      var options := Digits(Counts(s), i);
      assert options[|s.options|] < |s.scenarios|;
    }
    BoundedIsLight(rows, batchRows, m);
  }

  lemma CandidateInDomain(s: Search, before: Policy, after: Policy, different: (seq<Cell>, seq<Cell>) -> bool,
                          rows: seq<Evaluation>, k: nat)
    requires SearchOk(s) && Topological(before.program) && Topological(after.program)
    requires IsEnumeration(s, before, after, different, rows) && k < |rows|
    ensures exists r :: InDomain(s, r) && EvaluateAt(before, after, different, r) == rows[k]
  {
    CountsAreRadices(s);
    assert CandidateRow(s, before, after, different, rows, k);
    EnumerationIsBijective(Counts(s), k);
    var options := Digits(Counts(s), k);
    var r := RequestAt(s, options);
    forall d | 0 <= d < |s.fields|
      ensures r.facts(s.fields[d]) in s.options[d]
    {
      var e := DimensionOf(s.fields, s.fields[d]);
      assert e == d;
      assert options[d] < Counts(s)[d];
    }
    assert InDomain(s, r);
  }

  lemma EquivalentIffNone(matrix: seq<Transition>, rows: seq<Evaluation>)
    requires MatrixOk(matrix) && AllSupported(rows)
    ensures Fold(matrix, rows, |rows|, true).outcome == Equivalent <==>
            Fold(matrix, rows, |rows|, true).counterexample.None?
    ensures Fold(matrix, rows, |rows|, true).complete
  {
    OutcomeIsSummary(matrix, rows, |rows|, true);
    CounterexamplesAreLeast(matrix, rows, |rows|, true);
    FoldComplete(matrix, rows, |rows|);
    hide Fold, MatrixOk, RowClass;
    var classes := ClassesTo(matrix, rows, |rows|);
    var first := Fold(matrix, rows, |rows|, true).counterexample;
    if first.Some? {
      assert DifferentAt(rows)(first.value);
      assert RowClass(matrix, rows[first.value]) in classes;
    }
    if classes != {} {
      var c :| c in classes;
      SummaryGrows(classes - {c}, c);
      SummaryGrows(classes, c);
      var i :| 0 <= i < |rows| && rows[i].different && RowClass(matrix, rows[i]) == c;
      assert DifferentAt(rows)(i);
    }
  }
}
