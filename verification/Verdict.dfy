/** The verdict of a policy comparison: candidates are evaluated in batches and
    folded into one result. */
module Verdicts {
  import opened Optional
  import Enumeration
  import Programs

  type Decision = nat

  const DECISIONS: nat := 4

  predicate Supported(outcome: nat) {
    1 <= outcome <= DECISIONS
  }

  datatype Class = Equivalent | Widened | Narrowed | Changed | Inconclusive

  datatype Transition = Transition(change: Class, allowed: bool)

  /** What the two policies gave for one candidate, and the number of evidence
      records each of them recognises in its scenario. */
  datatype Evaluation = Evaluation(oldOutcome: nat, newOutcome: nat, different: bool, oldRecords: nat, newRecords: nat)

  /** Why a comparison is inconclusive. */
  datatype Uncertainty = Certain | EvidenceBudget | NoDecision | OpenDomain

  datatype Result = Result(
    outcome: Class, uncertainty: Uncertainty, complete: bool, candidates: nat,
    transitions: seq<nat>, forbiddenTransitions: seq<nat>,
    counterexample: Option<nat>, forbiddenCounterexample: Option<nat>, forbidden: bool)

  function PairIndex(oldDecision: Decision, newDecision: Decision): nat
    requires Supported(oldDecision) && Supported(newDecision)
    ensures PairIndex(oldDecision, newDecision) < DECISIONS * DECISIONS
  {
    (oldDecision - 1) * DECISIONS + (newDecision - 1)
  }

  predicate ValidTransition(oldDecision: Decision, newDecision: Decision, t: Transition) {
    if oldDecision == newDecision then t.change == Equivalent
    else t.change == Widened || t.change == Narrowed || t.change == Changed
  }

  /** A risk matrix has a valid transition for every pair of decisions. */
  ghost predicate MatrixOk(matrix: seq<Transition>) {
    && |matrix| == DECISIONS * DECISIONS
    && forall a, b :: Supported(a) && Supported(b) ==> ValidTransition(a, b, matrix[PairIndex(a, b)])
  }

  predicate RowSupported(e: Evaluation) {
    Supported(e.oldOutcome) && Supported(e.newOutcome)
  }

  function RowPair(e: Evaluation): nat
    requires RowSupported(e)
  {
    PairIndex(e.oldOutcome, e.newOutcome)
  }

  /** A differing row is a change even when both policies decide alike. */
  function RowClass(matrix: seq<Transition>, e: Evaluation): Class
    requires MatrixOk(matrix) && RowSupported(e)
  {
    if !e.different then Equivalent else if e.oldOutcome == e.newOutcome then Changed else matrix[RowPair(e)].change
  }

  predicate RowForbidden(matrix: seq<Transition>, e: Evaluation)
    requires MatrixOk(matrix) && RowSupported(e)
  {
    e.different && !matrix[RowPair(e)].allowed
  }

  function MergeOutcome(current: Class, candidate: Class): Class {
    if current == Equivalent then candidate
    else if candidate == Equivalent || candidate == current then current
    else Changed
  }

  function Bump(counts: seq<nat>, k: nat): seq<nat>
    requires k < |counts|
  {
    counts[k := counts[k] + 1]
  }

  predicate ShapeOk(r: Result) {
    |r.transitions| == |r.forbiddenTransitions| == DECISIONS * DECISIONS
  }

  /** One row of the fold. */
  function Accumulate(matrix: seq<Transition>, r: Result, i: nat, e: Evaluation): Result
    requires MatrixOk(matrix) && RowSupported(e) && ShapeOk(r)
    ensures ShapeOk(Accumulate(matrix, r, i, e))
  {
    var counted := r.(transitions := Bump(r.transitions, RowPair(e)));
    if !e.different then counted
    else
      var bad := RowForbidden(matrix, e);
      counted.(outcome := MergeOutcome(r.outcome, RowClass(matrix, e)),
               forbidden := r.forbidden || bad,
               counterexample := if r.counterexample.None? then Some(i) else r.counterexample,
               forbiddenCounterexample :=
                 if bad && r.forbiddenCounterexample.None? then Some(i) else r.forbiddenCounterexample,
               forbiddenTransitions := if bad then Bump(r.forbiddenTransitions, RowPair(e)) else r.forbiddenTransitions)
  }

  predicate SupportedTo(rows: seq<Evaluation>, n: nat)
    requires n <= |rows|
  {
    forall i :: 0 <= i < n ==> RowSupported(rows[i])
  }

  function Start(complete: bool): Result {
    Result(Equivalent, Certain, complete, 0, seq(DECISIONS * DECISIONS, _ => 0), seq(DECISIONS * DECISIONS, _ => 0),
           None, None, false)
  }

  function Fold(matrix: seq<Transition>, rows: seq<Evaluation>, n: nat, complete: bool): Result
    requires MatrixOk(matrix) && n <= |rows| && SupportedTo(rows, n)
    ensures ShapeOk(Fold(matrix, rows, n, complete))
  {
    if n == 0 then Start(complete) else Accumulate(matrix, Fold(matrix, rows, n - 1, complete), n - 1, rows[n - 1])
  }

  // ----- what the fold means -----

  /** `first` is the least row with the property, if there is one. */
  ghost predicate IsFirst(holds: nat -> bool, n: nat, first: Option<nat>) {
    match first
    case None => forall i :: 0 <= i < n ==> !holds(i)
    case Some(k) => k < n && holds(k) && forall i :: 0 <= i < k ==> !holds(i)
  }

  ghost function ForbiddenAt(matrix: seq<Transition>, rows: seq<Evaluation>): nat -> bool
    requires MatrixOk(matrix)
  {
    (i: nat) => i < |rows| && RowSupported(rows[i]) && RowForbidden(matrix, rows[i])
  }

  ghost function DifferentAt(rows: seq<Evaluation>): nat -> bool {
    (i: nat) => i < |rows| && rows[i].different
  }

  /** The counterexamples are the least differing and the least forbidden candidate. */
  lemma {:induction false} CounterexamplesAreLeast(matrix: seq<Transition>, rows: seq<Evaluation>, n: nat,
                                                   complete: bool)
    requires MatrixOk(matrix) && n <= |rows| && SupportedTo(rows, n)
    ensures IsFirst(DifferentAt(rows), n, Fold(matrix, rows, n, complete).counterexample)
    ensures IsFirst(ForbiddenAt(matrix, rows), n, Fold(matrix, rows, n, complete).forbiddenCounterexample)
    ensures Fold(matrix, rows, n, complete).forbidden <==> Fold(matrix, rows, n, complete).forbiddenCounterexample.Some?
  {
    hide MatrixOk, RowClass, Bump;
    if n > 0 {
      CounterexamplesAreLeast(matrix, rows, n - 1, complete);
      assert ForbiddenAt(matrix, rows)(n - 1) == RowForbidden(matrix, rows[n - 1]);
    }
  }

  /** The classes of the differing rows among the first n. */
  ghost function ClassesTo(matrix: seq<Transition>, rows: seq<Evaluation>, n: nat): set<Class>
    requires MatrixOk(matrix) && n <= |rows| && SupportedTo(rows, n)
  {
    set i | 0 <= i < n && rows[i].different :: RowClass(matrix, rows[i])
  }

  /** The verdict: equivalent without differences, the common class when all
      differences agree, and changed otherwise. */
  ghost function Summary(classes: set<Class>): Class {
    if classes == {} then Equivalent
    else if exists c :: classes == {c} then var c :| classes == {c}; c
    else Changed
  }

  lemma SummarySingle(c: Class)
    ensures Summary({c}) == c
  {
    var d :| {c} == {d} && Summary({c}) == d;
    assert c in {d};
  }

  lemma SummaryGrows(classes: set<Class>, c: Class)
    requires c != Equivalent && Equivalent !in classes
    ensures Summary(classes + {c}) == MergeOutcome(Summary(classes), c)
    ensures Summary(classes) == Equivalent <==> classes == {}
  {
    if classes == {} {
      assert classes + {c} == {c};
      SummarySingle(c);
    } else if d :| classes == {d} {
      SummarySingle(d);
      assert d in classes;
      if c == d {
        assert classes + {c} == {c};
      } else {
        assert c in classes + {c} && d in classes + {c};
      }
    } else {
      var d :| d in classes;
      assert classes != {d};
      var e :| e in classes && e != d;
      assert d in classes + {c} && e in classes + {c};
    }
  }

  lemma {:induction false} OutcomeIsSummary(matrix: seq<Transition>, rows: seq<Evaluation>, n: nat, complete: bool)
    requires MatrixOk(matrix) && n <= |rows| && SupportedTo(rows, n)
    ensures Fold(matrix, rows, n, complete).outcome == Summary(ClassesTo(matrix, rows, n))
    ensures Equivalent !in ClassesTo(matrix, rows, n)
  {
    hide RowClass, MatrixOk, Summary, MergeOutcome, Bump;
    if n > 0 {
      OutcomeIsSummary(matrix, rows, n - 1, complete);
      var before, e := ClassesTo(matrix, rows, n - 1), rows[n - 1];
      ClassesStep(matrix, rows, n);
      hide ClassesTo;
      if e.different {
        DifferentIsNotEquivalent(matrix, e);
        SummaryGrows(before, RowClass(matrix, e));
      }
    } else {
      SummaryNone(matrix, rows);
    }
  }

  lemma ClassesStep(matrix: seq<Transition>, rows: seq<Evaluation>, n: nat)
    requires MatrixOk(matrix) && 0 < n <= |rows| && SupportedTo(rows, n)
    ensures ClassesTo(matrix, rows, n) ==
            if rows[n - 1].different then ClassesTo(matrix, rows, n - 1) + {RowClass(matrix, rows[n - 1])}
            else ClassesTo(matrix, rows, n - 1)
  {
    hide RowClass, MatrixOk;
  }

  lemma SummaryNone(matrix: seq<Transition>, rows: seq<Evaluation>)
    requires MatrixOk(matrix)
    ensures ClassesTo(matrix, rows, 0) == {} && Summary({}) == Equivalent
  {
  }

  lemma DifferentIsNotEquivalent(matrix: seq<Transition>, e: Evaluation)
    requires MatrixOk(matrix) && RowSupported(e) && e.different
    ensures RowClass(matrix, e) == Widened || RowClass(matrix, e) == Narrowed || RowClass(matrix, e) == Changed
  {
    assert ValidTransition(e.oldOutcome, e.newOutcome, matrix[PairIndex(e.oldOutcome, e.newOutcome)]);
  }

  /** How many of the first n rows have a pair of decisions. */
  function PairCount(rows: seq<Evaluation>, n: nat, k: nat): nat
    requires n <= |rows| && SupportedTo(rows, n)
  {
    if n == 0 then 0 else PairCount(rows, n - 1, k) + if RowPair(rows[n - 1]) == k then 1 else 0
  }

  function ForbiddenCount(matrix: seq<Transition>, rows: seq<Evaluation>, n: nat, k: nat): nat
    requires MatrixOk(matrix) && n <= |rows| && SupportedTo(rows, n)
  {
    if n == 0 then 0
    else ForbiddenCount(matrix, rows, n - 1, k) +
         if RowForbidden(matrix, rows[n - 1]) && RowPair(rows[n - 1]) == k then 1 else 0
  }

  lemma {:induction false} TransitionsCount(matrix: seq<Transition>, rows: seq<Evaluation>, n: nat, complete: bool,
                                            k: nat)
    requires MatrixOk(matrix) && n <= |rows| && SupportedTo(rows, n) && k < DECISIONS * DECISIONS
    ensures Fold(matrix, rows, n, complete).transitions[k] == PairCount(rows, n, k)
    ensures Fold(matrix, rows, n, complete).forbiddenTransitions[k] == ForbiddenCount(matrix, rows, n, k)
  {
    hide MatrixOk, RowClass, MergeOutcome;
    if n > 0 {
      TransitionsCount(matrix, rows, n - 1, complete, k);
    }
  }

  function Sum(counts: seq<nat>): nat {
    if counts == [] then 0 else Sum(counts[..|counts| - 1]) + counts[|counts| - 1]
  }

  lemma {:induction false} SumBump(counts: seq<nat>, k: nat)
    requires k < |counts|
    ensures Sum(Bump(counts, k)) == Sum(counts) + 1
  {
    var init, last := counts[..|counts| - 1], |counts| - 1;
    if k < last {
      SumBump(init, k);
      assert Bump(counts, k)[..last] == Bump(init, k);
    } else {
      assert Bump(counts, k)[..last] == init;
    }
  }

  lemma {:induction false} SumZero(n: nat)
    ensures Sum(seq(n, _ => 0)) == 0
  {
    if n > 0 {
      SumZero(n - 1);
      assert seq(n, _ => 0)[..n - 1] == seq(n - 1, _ => 0);
    }
  }

  /** Every candidate is counted once in the transition table. */
  lemma {:induction false} TransitionsSumToCandidates(matrix: seq<Transition>, rows: seq<Evaluation>, n: nat,
                                                      complete: bool)
    requires MatrixOk(matrix) && n <= |rows| && SupportedTo(rows, n)
    ensures Sum(Fold(matrix, rows, n, complete).transitions) == n
  {
    hide MatrixOk, RowClass, MergeOutcome, Bump;
    if n == 0 {
      SumZero(DECISIONS * DECISIONS);
    } else {
      TransitionsSumToCandidates(matrix, rows, n - 1, complete);
      SumBump(Fold(matrix, rows, n - 1, complete).transitions, RowPair(rows[n - 1]));
    }
  }

  // ----- the batched loop -----

  /** Fold the rows of one batch. A row without a supported decision stops it. */
  method CompareResultBatch(matrix: seq<Transition>, rows: seq<Evaluation>, start: nat, count: nat, complete: bool,
                            r: Result)
    returns (ok: bool, next: Result)
    requires MatrixOk(matrix) && start + count <= |rows| && SupportedTo(rows, start)
    requires r == Fold(matrix, rows, start, complete)
    ensures ok <==> SupportedTo(rows, start + count)
    ensures ok ==> next == Fold(matrix, rows, start + count, complete)
  {
    hide MatrixOk, Accumulate;
    next := r;
    for row := 0 to count
      invariant SupportedTo(rows, start + row) && next == Fold(matrix, rows, start + row, complete)
    {
      var i := start + row;
      if !Supported(rows[i].oldOutcome) {
        return false, next;
      }
      if !Supported(rows[i].newOutcome) {
        return false, next;
      }
      next := Accumulate(matrix, next, i, rows[i]);
      assert SupportedTo(rows, i + 1);
    }
    ok := true;
  }

  /** The records that the rows of one batch expand to may not exceed this. */
  const EVIDENCE_BUDGET: nat := 0x4_0000

  /** The largest batch a domain may ask for. */
  const MAX_BATCH_ROWS: nat := 4096

  function OldCounts(batch: seq<Evaluation>): seq<nat> {
    seq(|batch|, i requires 0 <= i < |batch| => batch[i].oldRecords)
  }

  function NewCounts(batch: seq<Evaluation>): seq<nat> {
    seq(|batch|, i requires 0 <= i < |batch| => batch[i].newRecords)
  }

  /** The batch cannot be materialised for one of the policies. */
  predicate Heavy(batch: seq<Evaluation>) {
    Sum(OldCounts(batch)) > EVIDENCE_BUDGET || Sum(NewCounts(batch)) > EVIDENCE_BUDGET
  }

  /** Lay out the records of one batch; refused as soon as they pass the budget. */
  method PrepareEvidenceShape(counts: seq<nat>) returns (ok: bool, refs: nat)
    ensures ok <==> Sum(counts) <= EVIDENCE_BUDGET
    ensures ok ==> refs == Sum(counts)
  {
    refs := 0;
    for row := 0 to |counts|
      invariant refs == Sum(counts[..row]) <= EVIDENCE_BUDGET
    {
      assert counts[..row + 1][..row] == counts[..row];
      refs := refs + counts[row];
      if refs > EVIDENCE_BUDGET {
        SumPrefix(counts, row + 1);
        return false, refs;
      }
    }
    assert counts[..|counts|] == counts;
    ok := true;
  }

  lemma {:induction false} SumPrefix(counts: seq<nat>, n: nat)
    requires n <= |counts|
    ensures Sum(counts[..n]) <= Sum(counts)
  {
    if n == |counts| {
      assert counts[..n] == counts;
    } else {
      var init := counts[..|counts| - 1];
      SumPrefix(init, n);
      assert init[..n] == counts[..n];
    }
  }

  lemma {:induction false} SumConcat(a: seq<nat>, b: seq<nat>)
    ensures Sum(a + b) == Sum(a) + Sum(b)
  {
    if b == [] {
      assert a + b == a;
    } else {
      SumConcat(a, b[..|b| - 1]);
      assert (a + b)[..|a + b| - 1] == a + b[..|b| - 1];
    }
  }

  /** A part of a batch that fits also fits. */
  lemma PartFits(batch: seq<Evaluation>, lo: nat, hi: nat)
    requires lo <= hi <= |batch| && !Heavy(batch)
    ensures !Heavy(batch[lo..hi])
  {
    var olds, news := OldCounts(batch), NewCounts(batch);
    assert OldCounts(batch[lo..hi]) == olds[lo..hi] && NewCounts(batch[lo..hi]) == news[lo..hi];
    SumPart(olds, lo, hi);
    SumPart(news, lo, hi);
  }

  lemma SumPart(counts: seq<nat>, lo: nat, hi: nat)
    requires lo <= hi <= |counts|
    ensures Sum(counts[lo..hi]) <= Sum(counts)
  {
    assert counts[..hi] == counts[..lo] + counts[lo..hi];
    SumConcat(counts[..lo], counts[lo..hi]);
    SumPrefix(counts, hi);
  }

  function Clip(x: nat, n: nat): nat {
    if x < n then x else n
  }

  /** The k-th batch; empty past the end. */
  function NthBatch(rows: seq<Evaluation>, batchRows: nat, k: nat): seq<Evaluation>
    requires batchRows > 0
  {
    assert k * batchRows <= k * batchRows + batchRows;
    rows[Clip(k * batchRows, |rows|)..Clip(k * batchRows + batchRows, |rows|)]
  }

  /** Every batch can be materialised: known from the domain before the search. */
  ghost predicate Light(rows: seq<Evaluation>, batchRows: nat)
    requires batchRows > 0
  {
    forall k: nat :: !Heavy(NthBatch(rows, batchRows, k))
  }

  /** The first batch from the k-th on that cannot be materialised, or the one past the end. */
  function FirstHeavy(rows: seq<Evaluation>, batchRows: nat, k: nat): (h: nat)
    requires batchRows > 0
    ensures k <= h && (h * batchRows < |rows| ==> Heavy(NthBatch(rows, batchRows, h)))
    ensures forall j :: k <= j < h ==> !Heavy(NthBatch(rows, batchRows, j))
    decreases if k * batchRows < |rows| then |rows| - k * batchRows else 0
  {
    if k * batchRows >= |rows| || Heavy(NthBatch(rows, batchRows, k)) then k else
      assert (k + 1) * batchRows == k * batchRows + batchRows;
      FirstHeavy(rows, batchRows, k + 1)
  }

  function Stopped(why: Uncertainty, start: nat): Result {
    Result(Inconclusive, why, false, start, seq(DECISIONS * DECISIONS, _ => 0), seq(DECISIONS * DECISIONS, _ => 0),
           None, None, false)
  }

  /** A loop that found no difference is only conclusive on a closed domain. */
  function Concluded(r: Result, candidates: nat): Result {
    if r.outcome == Equivalent && !r.complete then
      r.(candidates := candidates, outcome := Inconclusive, uncertainty := OpenDomain)
    else r.(candidates := candidates)
  }

  predicate AllSupported(rows: seq<Evaluation>) {
    SupportedTo(rows, |rows|)
  }

  /** The first row without a supported decision. */
  function FirstUnsupported(rows: seq<Evaluation>): (k: nat)
    requires !AllSupported(rows)
    ensures k < |rows| && !RowSupported(rows[k]) && SupportedTo(rows, k)
  {
    FirstFrom(rows, 0)
  }

  function FirstFrom(rows: seq<Evaluation>, from: nat): (k: nat)
    requires from <= |rows| && SupportedTo(rows, from) && !AllSupported(rows)
    ensures from <= k < |rows| && !RowSupported(rows[k]) && SupportedTo(rows, k)
    decreases |rows| - from
  {
    if from < |rows| && RowSupported(rows[from]) then FirstFrom(rows, from + 1) else from
  }

  /** The first batch with an unsupported decision. */
  function UnsupportedBatch(rows: seq<Evaluation>, batchRows: nat): nat
    requires batchRows > 0 && !AllSupported(rows)
  {
    FirstUnsupported(rows) / batchRows
  }

  /** The evidence budget stops the search: a batch that cannot be materialised
      comes no later than the first unsupported decision. */
  predicate Exhausts(rows: seq<Evaluation>, batchRows: nat)
    requires batchRows > 0
  {
    var h := FirstHeavy(rows, batchRows, 0);
    h * batchRows < |rows| && (AllSupported(rows) || h <= UnsupportedBatch(rows, batchRows))
  }

  /** What a comparison returns. */
  function Verdict(matrix: seq<Transition>, rows: seq<Evaluation>, batchRows: nat, complete: bool): Result
    requires MatrixOk(matrix) && batchRows > 0
  {
    if Exhausts(rows, batchRows) then Stopped(EvidenceBudget, FirstHeavy(rows, batchRows, 0) * batchRows)
    else if !AllSupported(rows) then Stopped(NoDecision, UnsupportedBatch(rows, batchRows) * batchRows)
    else Concluded(Fold(matrix, rows, |rows|, complete), |rows|)
  }

  /** Materialise a batch for both policies. */
  method MaterializeBatch(batch: seq<Evaluation>) returns (ok: bool)
    ensures ok <==> !Heavy(batch)
  {
    var refs;
    ok, refs := PrepareEvidenceShape(OldCounts(batch));
    if ok {
      ok, refs := PrepareEvidenceShape(NewCounts(batch));
    }
  }

  /** Evaluate the candidates in batches and fold the results. */
  method Compare(matrix: seq<Transition>, rows: seq<Evaluation>, batchRows: nat, complete: bool) returns (r: Result)
    requires MatrixOk(matrix) && 0 < batchRows <= MAX_BATCH_ROWS
    ensures r == Verdict(matrix, rows, batchRows, complete)
  {
    hide MatrixOk, Accumulate, Fold, Heavy, FirstHeavy, NthBatch, Verdict, Exhausts, UnsupportedBatch;
    FoldNone(matrix, rows, complete);
    var next, start, batches := Start(complete), 0, 0;
    while start < |rows|
      invariant start <= |rows| && start == Clip(batches * batchRows, |rows|)
      invariant FirstHeavy(rows, batchRows, 0) == FirstHeavy(rows, batchRows, batches)
      invariant SupportedTo(rows, start) && next == Fold(matrix, rows, start, complete)
      decreases |rows| - start
    {
      var count := if |rows| - start < batchRows then |rows| - start else batchRows;
      BatchIs(rows, batchRows, batches, count);
      var ok := MaterializeBatch(rows[start..start + count]);
      if !ok {
        HeavyStops(matrix, rows, batchRows, batches, complete);
        return Stopped(EvidenceBudget, start);
      }
      HeavyNext(rows, batchRows, batches);
      ok, next := CompareResultBatch(matrix, rows, start, count, complete, next);
      if !ok {
        UnsupportedStops(matrix, rows, batchRows, batches, complete);
        return Stopped(NoDecision, start);
      }
      start, batches := start + count, batches + 1;
    }
    Finishes(matrix, rows, batchRows, batches, complete);
    r := Concluded(next, start);
  }

  lemma FoldNone(matrix: seq<Transition>, rows: seq<Evaluation>, complete: bool)
    requires MatrixOk(matrix)
    ensures Fold(matrix, rows, 0, complete) == Start(complete)
  {
  }

  lemma BatchIs(rows: seq<Evaluation>, batchRows: nat, k: nat, count: nat)
    requires batchRows > 0 && k * batchRows < |rows| && count == Clip(|rows| - k * batchRows, batchRows)
    ensures NthBatch(rows, batchRows, k) == rows[k * batchRows..k * batchRows + count]
    ensures k * batchRows + count == Clip((k + 1) * batchRows, |rows|)
  {
    assert (k + 1) * batchRows == k * batchRows + batchRows;
  }

  lemma HeavyNext(rows: seq<Evaluation>, batchRows: nat, k: nat)
    requires batchRows > 0 && k * batchRows < |rows| && !Heavy(NthBatch(rows, batchRows, k))
    ensures FirstHeavy(rows, batchRows, k) == FirstHeavy(rows, batchRows, k + 1)
  {
    hide Heavy, NthBatch;
  }

  lemma HeavyStops(matrix: seq<Transition>, rows: seq<Evaluation>, batchRows: nat, k: nat, complete: bool)
    requires MatrixOk(matrix) && batchRows > 0 && k * batchRows < |rows| && SupportedTo(rows, k * batchRows)
    requires Heavy(NthBatch(rows, batchRows, k)) && FirstHeavy(rows, batchRows, 0) == FirstHeavy(rows, batchRows, k)
    ensures Verdict(matrix, rows, batchRows, complete) == Stopped(EvidenceBudget, k * batchRows)
  {
    hide Heavy, NthBatch, MatrixOk, Fold;
    if !AllSupported(rows) {
      QuotientAtLeast(FirstUnsupported(rows), batchRows, k);
    }
  }

  lemma UnsupportedStops(matrix: seq<Transition>, rows: seq<Evaluation>, batchRows: nat, k: nat, complete: bool)
    requires MatrixOk(matrix) && batchRows > 0 && k * batchRows < |rows| && SupportedTo(rows, k * batchRows)
    requires FirstHeavy(rows, batchRows, 0) == FirstHeavy(rows, batchRows, k + 1)
    requires !SupportedTo(rows, Clip((k + 1) * batchRows, |rows|))
    ensures Verdict(matrix, rows, batchRows, complete) == Stopped(NoDecision, k * batchRows)
  {
    hide Heavy, NthBatch, MatrixOk, Fold;
    var u := FirstUnsupported(rows);
    assert (k + 1) * batchRows == k * batchRows + batchRows;
    QuotientIs(u, batchRows, k);
  }

  lemma Finishes(matrix: seq<Transition>, rows: seq<Evaluation>, batchRows: nat, k: nat, complete: bool)
    requires MatrixOk(matrix) && batchRows > 0 && k * batchRows >= |rows| && AllSupported(rows)
    requires FirstHeavy(rows, batchRows, 0) == FirstHeavy(rows, batchRows, k)
    ensures Verdict(matrix, rows, batchRows, complete) == Concluded(Fold(matrix, rows, |rows|, complete), |rows|)
  {
    hide Heavy, NthBatch, MatrixOk, Fold;
  }

  lemma QuotientIs(n: nat, d: nat, k: nat)
    requires d > 0 && k * d <= n < k * d + d
    ensures n / d == k
  {
    Enumeration.DivideOut(n - k * d, d, k);
    assert n == (n - k * d) + d * k;
  }

  lemma QuotientAtLeast(n: nat, d: nat, k: nat)
    requires d > 0 && k * d <= n
    ensures n / d >= k
  {
    var q := n / d;
    assert q + 1 <= k ==> (q + 1) * d <= k * d;
  }

  // ----- the batch size -----

  /** The search visits every candidate. */
  ghost predicate Completes(rows: seq<Evaluation>, batchRows: nat)
    requires batchRows > 0
  {
    AllSupported(rows) && Light(rows, batchRows)
  }

  lemma CompletesExactly(matrix: seq<Transition>, rows: seq<Evaluation>, batchRows: nat, complete: bool)
    requires MatrixOk(matrix) && batchRows > 0
    ensures Completes(rows, batchRows) <==> !Exhausts(rows, batchRows) && AllSupported(rows)
    ensures Completes(rows, batchRows) ==>
              Verdict(matrix, rows, batchRows, complete) == Concluded(Fold(matrix, rows, |rows|, complete), |rows|)
    ensures !Completes(rows, batchRows) ==>
              && Verdict(matrix, rows, batchRows, complete).outcome == Inconclusive
              && Verdict(matrix, rows, batchRows, complete).candidates < |rows|
  {
    hide MatrixOk, Fold, Heavy, NthBatch;
    LightExactly(rows, batchRows);
    if !AllSupported(rows) {
      var u := FirstUnsupported(rows);
      assert u / batchRows * batchRows <= u;
    }
  }

  lemma LightExactly(rows: seq<Evaluation>, batchRows: nat)
    requires batchRows > 0
    ensures Light(rows, batchRows) <==> FirstHeavy(rows, batchRows, 0) * batchRows >= |rows|
  {
    hide Heavy, NthBatch;
    var h := FirstHeavy(rows, batchRows, 0);
    if h * batchRows >= |rows| {
      forall k: nat
        ensures !Heavy(NthBatch(rows, batchRows, k))
      {
        if k >= h {
          assert k * batchRows >= h * batchRows;
          PastEndIsLight(rows, batchRows, k);
        }
      }
    }
  }

  lemma PastEndIsLight(rows: seq<Evaluation>, batchRows: nat, k: nat)
    requires batchRows > 0 && k * batchRows >= |rows|
    ensures !Heavy(NthBatch(rows, batchRows, k))
  {
    assert NthBatch(rows, batchRows, k) == [];
  }

  // ----- what a completed search says, in terms of the matrix and the rows alone -----

  /** The entry of the risk matrix for a move from one decision to another. */
  function MoveOf(matrix: seq<Transition>, e: Evaluation): Transition
    requires |matrix| == 16 && RowSupported(e)
  {
    matrix[(e.oldOutcome - 1) * 4 + (e.newOutcome - 1)]
  }

  /** Something differs, and every difference is a move to another decision of one class. */
  ghost predicate AllMove(matrix: seq<Transition>, rows: seq<Evaluation>, kind: Class)
    requires |matrix| == 16 && AllSupported(rows)
  {
    && (exists i :: 0 <= i < |rows| && rows[i].different)
    && forall i :: 0 <= i < |rows| && rows[i].different ==>
         rows[i].oldOutcome != rows[i].newOutcome && MoveOf(matrix, rows[i]).change == kind
  }

  /** A difference that the matrix does not allow. */
  predicate NotAllowed(matrix: seq<Transition>, e: Evaluation)
    requires |matrix| == 16 && RowSupported(e)
  {
    e.different && !MoveOf(matrix, e).allowed
  }

  ghost function Moving(rows: seq<Evaluation>, n: nat, a: Decision, b: Decision): set<nat>
    requires n <= |rows|
  {
    set i: nat | i < n && rows[i].oldOutcome == a && rows[i].newOutcome == b
  }

  ghost function MovingBadly(matrix: seq<Transition>, rows: seq<Evaluation>, n: nat, a: Decision, b: Decision): set<nat>
    requires n <= |rows| && |matrix| == 16 && SupportedTo(rows, n)
  {
    set i: nat | i < n && rows[i].oldOutcome == a && rows[i].newOutcome == b && NotAllowed(matrix, rows[i])
  }

  lemma ClassOfRow(matrix: seq<Transition>, e: Evaluation)
    requires MatrixOk(matrix) && RowSupported(e)
    ensures |matrix| == 16
    ensures RowClass(matrix, e) == if !e.different then Equivalent
                                   else if e.oldOutcome == e.newOutcome then Changed else MoveOf(matrix, e).change
    ensures RowForbidden(matrix, e) <==> NotAllowed(matrix, e)
  {
  }

  lemma SummaryIs(classes: set<Class>, c: Class)
    requires Equivalent !in classes && c != Changed && c != Equivalent
    ensures Summary(classes) == c <==> classes == {c}
  {
    if classes == {c} {
      SummarySingle(c);
    } else if d :| classes == {d} {
      SummarySingle(d);
      assert d in classes;
    }
  }

  lemma OutcomeMoves(matrix: seq<Transition>, rows: seq<Evaluation>, complete: bool, c: Class)
    requires MatrixOk(matrix) && AllSupported(rows) && (c == Widened || c == Narrowed)
    ensures |matrix| == 16 && (Fold(matrix, rows, |rows|, complete).outcome == c <==> AllMove(matrix, rows, c))
  {
    hide MatrixOk, Summary, Fold, RowClass;
    OutcomeIsSummary(matrix, rows, |rows|, complete);
    SummaryIs(ClassesTo(matrix, rows, |rows|), c);
    forall i | 0 <= i < |rows|
      ensures |matrix| == 16
      ensures rows[i].different ==> (RowClass(matrix, rows[i]) == c <==>
                rows[i].oldOutcome != rows[i].newOutcome && MoveOf(matrix, rows[i]).change == c)
    {
      ClassOfRow(matrix, rows[i]);
    }
    MatrixSize(matrix);
    ClassesAre(matrix, rows, c);
  }

  lemma MatrixSize(matrix: seq<Transition>)
    requires MatrixOk(matrix)
    ensures |matrix| == 16
  {
  }

  lemma ClassesAre(matrix: seq<Transition>, rows: seq<Evaluation>, c: Class)
    requires MatrixOk(matrix) && AllSupported(rows)
    ensures ClassesTo(matrix, rows, |rows|) == {c} <==>
            && (exists i :: 0 <= i < |rows| && rows[i].different)
            && forall i :: 0 <= i < |rows| && rows[i].different ==> RowClass(matrix, rows[i]) == c
  {
    hide MatrixOk, RowClass;
    var classes := ClassesTo(matrix, rows, |rows|);
    if classes == {c} {
      assert c in classes;
      forall i | 0 <= i < |rows| && rows[i].different
        ensures RowClass(matrix, rows[i]) == c
      {
        assert RowClass(matrix, rows[i]) in classes;
      }
    }
  }

  lemma {:induction false} OutcomeNamesDifference(matrix: seq<Transition>, rows: seq<Evaluation>, n: nat,
                                                  complete: bool)
    requires MatrixOk(matrix) && n <= |rows| && SupportedTo(rows, n)
    ensures var r := Fold(matrix, rows, n, complete);
            && (r.outcome == Equivalent <==> forall i :: 0 <= i < n ==> !rows[i].different)
            && r.outcome in {Equivalent, Widened, Narrowed, Changed} && r.complete == complete
  {
    hide MatrixOk, RowClass, Bump;
    if n > 0 {
      OutcomeNamesDifference(matrix, rows, n - 1, complete);
      if rows[n - 1].different {
        DifferentIsNotEquivalent(matrix, rows[n - 1]);
      }
    }
  }

  /** A cell of the table belongs to one pair of decisions. */
  lemma CellOfPair(e: Evaluation, a: Decision, b: Decision)
    requires RowSupported(e) && Supported(a) && Supported(b)
    ensures RowPair(e) == (a - 1) * 4 + (b - 1) <==> e.oldOutcome == a && e.newOutcome == b
  {
  }

  lemma {:induction false} MovingCount(rows: seq<Evaluation>, n: nat, a: Decision, b: Decision)
    requires n <= |rows| && SupportedTo(rows, n) && Supported(a) && Supported(b)
    ensures PairCount(rows, n, (a - 1) * 4 + (b - 1)) == |Moving(rows, n, a, b)|
  {
    hide RowPair;
    if n == 0 {
      assert Moving(rows, 0, a, b) == {};
    } else {
      MovingCount(rows, n - 1, a, b);
      CellOfPair(rows[n - 1], a, b);
      var before, e := Moving(rows, n - 1, a, b), rows[n - 1];
      assert Moving(rows, n, a, b) == if e.oldOutcome == a && e.newOutcome == b then before + {n - 1} else before;
    }
  }

  lemma {:induction false} MovingBadlyCount(matrix: seq<Transition>, rows: seq<Evaluation>, n: nat, a: Decision,
                                            b: Decision)
    requires MatrixOk(matrix) && n <= |rows| && SupportedTo(rows, n) && Supported(a) && Supported(b)
    ensures |matrix| == 16
    ensures ForbiddenCount(matrix, rows, n, (a - 1) * 4 + (b - 1)) == |MovingBadly(matrix, rows, n, a, b)|
  {
    hide RowPair, MatrixOk, NotAllowed, RowForbidden;
    MatrixSize(matrix);
    if n == 0 {
      assert MovingBadly(matrix, rows, 0, a, b) == {};
    } else {
      MovingBadlyCount(matrix, rows, n - 1, a, b);
      CellOfPair(rows[n - 1], a, b);
      ClassOfRow(matrix, rows[n - 1]);
      var before, e := MovingBadly(matrix, rows, n - 1, a, b), rows[n - 1];
      assert MovingBadly(matrix, rows, n, a, b) ==
             if e.oldOutcome == a && e.newOutcome == b && NotAllowed(matrix, e) then before + {n - 1} else before;
    }
  }

  /** What a search that visits every candidate returns: the class of its differences by the
      matrix, read from the old decision to the new one; whether one of them is not allowed;
      the first of each kind; and how many candidates move from each decision to each other. */
  lemma CompletedVerdict(matrix: seq<Transition>, rows: seq<Evaluation>, batchRows: nat, complete: bool)
    requires MatrixOk(matrix) && batchRows > 0 && Completes(rows, batchRows)
    ensures |matrix| == 16
    ensures var r := Verdict(matrix, rows, batchRows, complete);
            && r.candidates == |rows|
            && (r.outcome == Widened <==> AllMove(matrix, rows, Widened))
            && (r.outcome == Narrowed <==> AllMove(matrix, rows, Narrowed))
            && (r.outcome == Equivalent <==> complete && forall i :: 0 <= i < |rows| ==> !rows[i].different)
            && (r.outcome == Inconclusive <==> !complete && forall i :: 0 <= i < |rows| ==> !rows[i].different)
            && (r.outcome == Changed <==>
                  && (exists i :: 0 <= i < |rows| && rows[i].different)
                  && !AllMove(matrix, rows, Widened) && !AllMove(matrix, rows, Narrowed))
            && (r.forbidden <==> exists i :: 0 <= i < |rows| && NotAllowed(matrix, rows[i]))
    ensures forall a, b :: Supported(a) && Supported(b) ==>
              var r, cell := Verdict(matrix, rows, batchRows, complete), (a - 1) * 4 + (b - 1);
              && |r.transitions| == |r.forbiddenTransitions| == 16
              && r.transitions[cell] == |Moving(rows, |rows|, a, b)|
              && r.forbiddenTransitions[cell] == |MovingBadly(matrix, rows, |rows|, a, b)|
  {
    hide MatrixOk, Fold, Verdict, Light, Moving, MovingBadly, NotAllowed, AllMove;
    MatrixSize(matrix);
    CompletesExactly(matrix, rows, batchRows, complete);
    OutcomeMoves(matrix, rows, complete, Widened);
    OutcomeMoves(matrix, rows, complete, Narrowed);
    OutcomeNamesDifference(matrix, rows, |rows|, complete);
    ForbiddenExactly(matrix, rows, complete);
    forall a: nat, b: nat | Supported(a) && Supported(b)
      ensures var r, cell := Verdict(matrix, rows, batchRows, complete), (a - 1) * 4 + (b - 1);
              && |r.transitions| == |r.forbiddenTransitions| == 16
              && r.transitions[cell] == |Moving(rows, |rows|, a, b)|
              && r.forbiddenTransitions[cell] == |MovingBadly(matrix, rows, |rows|, a, b)|
    {
      TransitionsCount(matrix, rows, |rows|, complete, (a - 1) * 4 + (b - 1));
      MovingCount(rows, |rows|, a, b);
      MovingBadlyCount(matrix, rows, |rows|, a, b);
    }
  }

  lemma ForbiddenExactly(matrix: seq<Transition>, rows: seq<Evaluation>, complete: bool)
    requires MatrixOk(matrix) && AllSupported(rows)
    ensures |matrix| == 16
    ensures Fold(matrix, rows, |rows|, complete).forbidden <==>
            exists i :: 0 <= i < |rows| && NotAllowed(matrix, rows[i])
  {
    hide MatrixOk, Fold, NotAllowed, RowForbidden;
    MatrixSize(matrix);
    CounterexamplesAreLeast(matrix, rows, |rows|, complete);
    forall i | 0 <= i < |rows|
      ensures ForbiddenAt(matrix, rows)(i) <==> NotAllowed(matrix, rows[i])
    {
      ClassOfRow(matrix, rows[i]);
    }
  }

  /** The counterexamples of such a search: the first candidate that differs, and the first
      that differs in a way the matrix does not allow. */
  lemma CompletedCounterexamples(matrix: seq<Transition>, rows: seq<Evaluation>, batchRows: nat, complete: bool)
    requires MatrixOk(matrix) && batchRows > 0 && Completes(rows, batchRows)
    ensures |matrix| == 16
    ensures var r := Verdict(matrix, rows, batchRows, complete);
            && (match r.counterexample
                case None => forall i :: 0 <= i < |rows| ==> !rows[i].different
                case Some(k) => k < |rows| && rows[k].different && forall i :: 0 <= i < k ==> !rows[i].different)
            && match r.forbiddenCounterexample
               case None => forall i :: 0 <= i < |rows| ==> !NotAllowed(matrix, rows[i])
               case Some(k) =>
                 k < |rows| && NotAllowed(matrix, rows[k]) && forall i :: 0 <= i < k ==> !NotAllowed(matrix, rows[i])
  {
    hide MatrixOk, Fold, Verdict, Light, NotAllowed, RowForbidden;
    MatrixSize(matrix);
    CompletesExactly(matrix, rows, batchRows, complete);
    CounterexamplesAreLeast(matrix, rows, |rows|, complete);
    forall i | 0 <= i < |rows|
      ensures DifferentAt(rows)(i) <==> rows[i].different
      ensures ForbiddenAt(matrix, rows)(i) <==> NotAllowed(matrix, rows[i])
    {
      ClassOfRow(matrix, rows[i]);
    }
  }

  /** Two batch sizes give the same result if and only if both searches run to the
      end, or both stop at the same candidate for the same reason. */
  lemma BatchIndependence(matrix: seq<Transition>, rows: seq<Evaluation>, b1: nat, b2: nat, complete: bool)
    requires MatrixOk(matrix) && b1 > 0 && b2 > 0
    ensures Verdict(matrix, rows, b1, complete) == Verdict(matrix, rows, b2, complete) <==>
            || (AllSupported(rows) && Light(rows, b1) && Light(rows, b2))
            || (Exhausts(rows, b1) && Exhausts(rows, b2) &&
                FirstHeavy(rows, b1, 0) * b1 == FirstHeavy(rows, b2, 0) * b2)
            || (!AllSupported(rows) && !Exhausts(rows, b1) && !Exhausts(rows, b2)
                && UnsupportedBatch(rows, b1) * b1 == UnsupportedBatch(rows, b2) * b2)
  {
    CompletesExactly(matrix, rows, b1, complete);
    CompletesExactly(matrix, rows, b2, complete);
    StopShows(matrix, rows, b1, complete);
    StopShows(matrix, rows, b2, complete);
    hide MatrixOk, Fold, Verdict, Exhausts, Light, AllSupported, FirstHeavy, UnsupportedBatch;
  }

  /** A search that stops reports why and where. */
  lemma StopShows(matrix: seq<Transition>, rows: seq<Evaluation>, batchRows: nat, complete: bool)
    requires MatrixOk(matrix) && batchRows > 0
    ensures var v := Verdict(matrix, rows, batchRows, complete);
            && (v.uncertainty == EvidenceBudget <==> Exhausts(rows, batchRows))
            && (v.uncertainty == NoDecision <==> !Exhausts(rows, batchRows) && !AllSupported(rows))
            && (Exhausts(rows, batchRows) ==> v == Stopped(EvidenceBudget, FirstHeavy(rows, batchRows, 0) * batchRows))
            && (!Exhausts(rows, batchRows) && !AllSupported(rows) ==>
                  v == Stopped(NoDecision, UnsupportedBatch(rows, batchRows) * batchRows))
  {
    hide MatrixOk, Exhausts, FirstHeavy, UnsupportedBatch, Fold, Accumulate;
    if AllSupported(rows) {
      FoldIsCertain(matrix, rows, |rows|, complete);
    }
  }

  lemma {:induction false} FoldIsCertain(matrix: seq<Transition>, rows: seq<Evaluation>, n: nat, complete: bool)
    requires MatrixOk(matrix) && n <= |rows| && SupportedTo(rows, n)
    ensures Fold(matrix, rows, n, complete).uncertainty == Certain
  {
    hide MatrixOk;
    if n > 0 {
      FoldIsCertain(matrix, rows, n - 1, complete);
    }
  }

  lemma {:induction false} FoldComplete(matrix: seq<Transition>, rows: seq<Evaluation>, n: nat)
    requires MatrixOk(matrix) && n <= |rows| && SupportedTo(rows, n)
    ensures Fold(matrix, rows, n, true).complete
  {
    hide MatrixOk;
    if n > 0 {
      FoldComplete(matrix, rows, n - 1);
    }
  }

  /** No accepted batch size matters: the first candidate alone is over the budget; or every
      decision is supported and no batch of any accepted size is over it; or already the
      first decision is not supported and the largest first batch fits. */
  ghost predicate SizeFree(rows: seq<Evaluation>) {
    || (rows != [] && Heavy(rows[..1]))
    || (AllSupported(rows) && forall b: nat :: 0 < b <= MAX_BATCH_ROWS ==> Light(rows, b))
    || (rows != [] && !RowSupported(rows[0]) && !Heavy(rows[..Clip(MAX_BATCH_ROWS, |rows|)]))
  }

  /** Every accepted batch size gives the same result. */
  ghost predicate SizesAgree(matrix: seq<Transition>, rows: seq<Evaluation>, complete: bool)
    requires MatrixOk(matrix)
  {
    forall b: nat :: 0 < b <= MAX_BATCH_ROWS ==>
                       Verdict(matrix, rows, b, complete) == Verdict(matrix, rows, 1, complete)
  }

  /** The result is the same for all accepted batch sizes if and only if the enumeration is
      size-free. */
  lemma EveryBatchSizeAgrees(matrix: seq<Transition>, rows: seq<Evaluation>, complete: bool)
    requires MatrixOk(matrix) && |rows| <= Programs.MAX_UINT32
    ensures SizesAgree(matrix, rows, complete) <==> SizeFree(rows)
  {
    hide MatrixOk, Verdict, Heavy, SizeFree;
    if SizeFree(rows) {
      forall b: nat | 0 < b <= MAX_BATCH_ROWS
        ensures Verdict(matrix, rows, b, complete) == Verdict(matrix, rows, 1, complete)
      {
        FreeAgrees(matrix, rows, b, complete);
        FreeAgrees(matrix, rows, 1, complete);
      }
    }
    if SizesAgree(matrix, rows, complete) {
      AgreeingIsFree(matrix, rows, complete);
    }
  }

  /** What every accepted batch size gives on a size-free enumeration. */
  ghost function FreeVerdict(matrix: seq<Transition>, rows: seq<Evaluation>, complete: bool): Result
    requires MatrixOk(matrix)
  {
    if rows != [] && Heavy(rows[..1]) then Stopped(EvidenceBudget, 0)
    else if !AllSupported(rows) then Stopped(NoDecision, 0)
    else Concluded(Fold(matrix, rows, |rows|, complete), |rows|)
  }

  lemma FreeAgrees(matrix: seq<Transition>, rows: seq<Evaluation>, b: nat, complete: bool)
    requires MatrixOk(matrix) && 0 < b <= MAX_BATCH_ROWS && SizeFree(rows)
    ensures Verdict(matrix, rows, b, complete) == FreeVerdict(matrix, rows, complete)
  {
    hide MatrixOk, Heavy, Fold, NthBatch, Verdict;
    if rows != [] && Heavy(rows[..1]) {
      FirstBatchHeavy(rows, b);
      StopShows(matrix, rows, b, complete);
    } else if AllSupported(rows) {
      FreeIsLight(rows, b);
      CompletesExactly(matrix, rows, b, complete);
    } else {
      FirstBatchFits(rows, b);
      QuotientIs(0, b, 0);
      StopShows(matrix, rows, b, complete);
    }
  }

  lemma FirstBatchHeavy(rows: seq<Evaluation>, b: nat)
    requires b > 0 && rows != [] && Heavy(rows[..1])
    ensures FirstHeavy(rows, b, 0) == 0
  {
    hide Heavy;
    var first := NthBatch(rows, b, 0);
    assert first[0..1] == rows[..1];
    if !Heavy(first) {
      PartFits(first, 0, 1);
    }
  }

  /** A supported size-free enumeration has no batch over the budget. */
  lemma FreeIsLight(rows: seq<Evaluation>, b: nat)
    requires 0 < b <= MAX_BATCH_ROWS && SizeFree(rows) && AllSupported(rows) && !(rows != [] && Heavy(rows[..1]))
    ensures Light(rows, b)
  {
    hide Heavy, Light;
  }

  /** The first batch of every accepted size is a part of the largest one. */
  lemma FirstBatchFits(rows: seq<Evaluation>, b: nat)
    requires 0 < b <= MAX_BATCH_ROWS && rows != [] && !Heavy(rows[..Clip(MAX_BATCH_ROWS, |rows|)])
    ensures FirstHeavy(rows, b, 0) > 0
  {
    hide Heavy;
    var most := rows[..Clip(MAX_BATCH_ROWS, |rows|)];
    assert NthBatch(rows, b, 0) == most[0..Clip(b, |rows|)];
    PartFits(most, 0, Clip(b, |rows|));
  }

  /** Sizes that agree leave only the three cases: a search that stops past the first
      candidate would stop at a common multiple of 4096, 4095 and 4093, which is beyond
      every enumeration. */
  lemma AgreeingIsFree(matrix: seq<Transition>, rows: seq<Evaluation>, complete: bool)
    requires MatrixOk(matrix) && |rows| <= Programs.MAX_UINT32 && SizesAgree(matrix, rows, complete)
    ensures SizeFree(rows)
  {
    hide MatrixOk, Verdict, Heavy, Light, SizesAgree;
    if Completes(rows, 1) {
      forall b: nat | 0 < b <= MAX_BATCH_ROWS
        ensures Light(rows, b)
      {
        AgreesWithOne(matrix, rows, complete, b);
        CompletesExactly(matrix, rows, 1, complete);
        CompletesExactly(matrix, rows, b, complete);
      }
    } else {
      StopIsShared(matrix, rows, complete);
      StopsAtStart(matrix, rows, complete);
    }
  }

  lemma AgreesWithOne(matrix: seq<Transition>, rows: seq<Evaluation>, complete: bool, b: nat)
    requires MatrixOk(matrix) && SizesAgree(matrix, rows, complete) && 0 < b <= MAX_BATCH_ROWS
    ensures Verdict(matrix, rows, b, complete) == Verdict(matrix, rows, 1, complete)
  {
  }

  lemma StopIsShared(matrix: seq<Transition>, rows: seq<Evaluation>, complete: bool)
    requires MatrixOk(matrix) && |rows| <= Programs.MAX_UINT32 && SizesAgree(matrix, rows, complete)
    requires !Completes(rows, 1)
    ensures Verdict(matrix, rows, 1, complete).candidates == 0
  {
    hide MatrixOk, Verdict, SizesAgree, Completes;
    CompletesExactly(matrix, rows, 1, complete);
    var a := StopsAtMultiple(matrix, rows, complete, 4096);
    var b := StopsAtMultiple(matrix, rows, complete, 4095);
    var c := StopsAtMultiple(matrix, rows, complete, 4093);
    OnlyZeroIsShared(Verdict(matrix, rows, 1, complete).candidates, a, b, c);
  }

  lemma StopsAtMultiple(matrix: seq<Transition>, rows: seq<Evaluation>, complete: bool, b: nat) returns (k: nat)
    requires MatrixOk(matrix) && SizesAgree(matrix, rows, complete) && !Completes(rows, 1)
    requires 0 < b <= MAX_BATCH_ROWS
    ensures Verdict(matrix, rows, 1, complete).candidates == k * b
  {
    hide MatrixOk, Verdict, SizesAgree, Exhausts, FirstHeavy, UnsupportedBatch, AllSupported, Light;
    AgreesWithOne(matrix, rows, complete, b);
    CompletesExactly(matrix, rows, 1, complete);
    CompletesExactly(matrix, rows, b, complete);
    StopShows(matrix, rows, b, complete);
    k := if Exhausts(rows, b) then FirstHeavy(rows, b, 0) else UnsupportedBatch(rows, b);
  }

  /** The three sizes are pairwise coprime, and their product is past 32 bits. */
  lemma OnlyZeroIsShared(u: nat, a: nat, b: nat, c: nat)
    requires u == a * 4096 == b * 4095 == c * 4093 && u <= Programs.MAX_UINT32
    ensures u == 0
  {
    var k := b - a;
    assert a == 4095 * k;
    var m := c - 4098 * k;
    assert 6 * k == 4093 * m;
    var j := k - 682 * m;
    assert m == 6 * j && k == 4093 * j;
    assert u == 68652380160 * j;
  }

  /** Sizes that agree on stopping at the first candidate. */
  lemma StopsAtStart(matrix: seq<Transition>, rows: seq<Evaluation>, complete: bool)
    requires MatrixOk(matrix) && SizesAgree(matrix, rows, complete)
    requires !Completes(rows, 1) && Verdict(matrix, rows, 1, complete).candidates == 0
    ensures SizeFree(rows)
  {
    hide MatrixOk, Verdict, SizesAgree, Heavy, Light;
    CompletesExactly(matrix, rows, 1, complete);
    StopShows(matrix, rows, 1, complete);
    assert rows != [];
    if Exhausts(rows, 1) {
      assert NthBatch(rows, 1, 0) == rows[..1];
    } else {
      AgreesWithOne(matrix, rows, complete, MAX_BATCH_ROWS);
      StopShows(matrix, rows, MAX_BATCH_ROWS, complete);
      assert NthBatch(rows, MAX_BATCH_ROWS, 0) == rows[..Clip(MAX_BATCH_ROWS, |rows|)];
      QuotientIs(0, MAX_BATCH_ROWS, 0);
    }
  }

  /** Bounded scenarios fit: if no row has more than m records and m per row fits the
      budget, every batch does. */
  lemma BoundedIsLight(rows: seq<Evaluation>, batchRows: nat, m: nat)
    requires batchRows > 0 && batchRows * m <= EVIDENCE_BUDGET
    requires forall i :: 0 <= i < |rows| ==> rows[i].oldRecords <= m && rows[i].newRecords <= m
    ensures Light(rows, batchRows)
  {
    hide Heavy;
    forall k: nat
      ensures !Heavy(NthBatch(rows, batchRows, k))
    {
      BoundedBatchFits(NthBatch(rows, batchRows, k), batchRows, m);
    }
  }

  lemma BoundedBatchFits(batch: seq<Evaluation>, batchRows: nat, m: nat)
    requires |batch| <= batchRows && batchRows * m <= EVIDENCE_BUDGET
    requires forall i :: 0 <= i < |batch| ==> batch[i].oldRecords <= m && batch[i].newRecords <= m
    ensures !Heavy(batch)
  {
    SumBounded(OldCounts(batch), m);
    SumBounded(NewCounts(batch), m);
    assert |batch| * m <= batchRows * m;
  }

  lemma {:induction false} SumBounded(counts: seq<nat>, m: nat)
    requires forall i :: 0 <= i < |counts| ==> counts[i] <= m
    ensures Sum(counts) <= |counts| * m
  {
    if counts != [] {
      SumBounded(counts[..|counts| - 1], m);
      assert |counts| * m == (|counts| - 1) * m + m;
    }
  }

  /** A concrete comparison whose reported progress depends on the batch size: the
      second candidate has no supported decision. */
  lemma BatchSizeShows(matrix: seq<Transition>)
    requires MatrixOk(matrix)
    ensures var rows := [Evaluation(1, 1, false, 0, 0), Evaluation(0, 1, true, 0, 0)];
            && Verdict(matrix, rows, 1, true) == Stopped(NoDecision, 1)
            && Verdict(matrix, rows, 2, true) == Stopped(NoDecision, 0)
  {
    hide MatrixOk, Fold;
    var rows := [Evaluation(1, 1, false, 0, 0), Evaluation(0, 1, true, 0, 0)];
    assert !RowSupported(rows[1]);
    assert FirstUnsupported(rows) == 1;
    BoundedIsLight(rows, 1, 0);
    BoundedIsLight(rows, 2, 0);
    LightExactly(rows, 1);
    LightExactly(rows, 2);
  }

  /** A concrete comparison that finishes in batches of two and exhausts the evidence
      budget in one batch of three, although every decision is supported. */
  lemma BudgetShows(matrix: seq<Transition>)
    requires MatrixOk(matrix)
    ensures var row := Evaluation(1, 1, false, 0x2_0000, 0x2_0000); var rows := [row, row, row];
            && AllSupported(rows)
            && Verdict(matrix, rows, 2, true).uncertainty == Certain && Verdict(matrix, rows, 2, true).candidates == 3
            && Verdict(matrix, rows, 3, true) == Stopped(EvidenceBudget, 0)
  {
    hide MatrixOk, Fold;
    var row := Evaluation(1, 1, false, 0x2_0000, 0x2_0000);
    var rows := [row, row, row];
    BoundedIsLight(rows, 2, 0x2_0000);
    CompletesExactly(matrix, rows, 2, true);
    FoldIsCertain(matrix, rows, 3, true);
    FoldComplete(matrix, rows, 3);
    RepeatedIsHeavy(rows, 0x2_0000);
    assert NthBatch(rows, 3, 0) == rows;
    assert FirstHeavy(rows, 3, 0) == 0;
  }

  /** A concrete comparison whose records are over the budget in total, although every
      accepted batch size finishes with the same result. */
  lemma LargeTotalAgrees(matrix: seq<Transition>, complete: bool)
    requires MatrixOk(matrix)
    ensures var rows := seq(10000, _ => Evaluation(1, 1, false, 60, 60));
            && Heavy(rows)
            && SizesAgree(matrix, rows, complete)
            && Verdict(matrix, rows, 1, complete).candidates == 10000
  {
    hide MatrixOk, Fold, Verdict, Heavy, NthBatch;
    var row := Evaluation(1, 1, false, 60, 60);
    var rows := seq(10000, _ => row);
    forall b: nat | 0 < b <= MAX_BATCH_ROWS
      ensures Light(rows, b)
    {
      BoundedIsLight(rows, b, 60);
    }
    EveryBatchSizeAgrees(matrix, rows, complete);
    CompletesExactly(matrix, rows, 1, complete);
    RepeatedIsHeavy(rows, 60);
  }

  lemma RepeatedIsHeavy(rows: seq<Evaluation>, m: nat)
    requires forall i :: 0 <= i < |rows| ==> rows[i].oldRecords == m
    requires |rows| * m > EVIDENCE_BUDGET
    ensures Heavy(rows)
  {
    SumRepeated(OldCounts(rows), m);
  }

  lemma {:induction false} SumRepeated(counts: seq<nat>, m: nat)
    requires forall i :: 0 <= i < |counts| ==> counts[i] == m
    ensures Sum(counts) == |counts| * m
  {
    if counts != [] {
      SumRepeated(counts[..|counts| - 1], m);
      assert |counts| * m == (|counts| - 1) * m + m;
    }
  }
}
