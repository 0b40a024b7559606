/** The fact index: row masks for the symbols that heavily used fields are compared
    with, and leaf evaluation from those masks. */
module FactIndex {
  import opened Bitsets
  import opened Programs
  import opened Constants
  import opened Predicates
  import Roots
  import A = Applicability

  // ----- what the compiler lists -----

  const MIN_USES: nat := 96

  predicate IsQuery(op: Opcode) {
    op == EQUAL || op == NOT_EQUAL || op == IN
  }

  /** The symbols that a row asks of its field. */
  function RowSymbols(c: Canonical, payload: Payload): seq<nat> {
    if !IsQuery(payload.opcode) then []
    else if payload.opcode == IN then A.Symbols(c, payload.list)
    else A.Symbols(c, [payload.value])
  }

  /** The symbols asked of field f by the first n rows, in row order. */
  function Queries(p: Program, c: Canonical, f: nat, n: nat): seq<nat>
    requires n <= |p.rows|
  {
    if n == 0 then []
    else Queries(p, c, f, n - 1) + if p.rows[n - 1].payload.field == f then RowSymbols(c, p.rows[n - 1].payload) else []
  }

  /** A selected field with its sorted symbols. */
  datatype FieldSpec = FieldSpec(field: nat, values: seq<nat>)

  predicate IsSymbolField(symbolFields: seq<bool>, f: nat) {
    1 <= f <= |symbolFields| && symbolFields[f - 1]
  }

  /** What the compiler guarantees: queries name existing fields, and queries on symbol
      fields name symbols. */
  ghost predicate QueriesOk(p: Program, c: Canonical, symbolFields: seq<bool>) {
    forall i :: 0 <= i < |p.rows| && IsQuery(OpcodeAt(p, i)) ==>
      && 1 <= p.rows[i].payload.field <= |symbolFields|
      && (IsSymbolField(symbolFields, p.rows[i].payload.field) ==> 0 !in RowSymbols(c, p.rows[i].payload))
  }

  predicate HasField(spec: seq<FieldSpec>, f: nat) {
    exists i :: 0 <= i < |spec| && spec[i].field == f
  }

  /** A symbol field that enough comparisons use. */
  predicate Selected(p: Program, c: Canonical, symbolFields: seq<bool>, f: nat) {
    IsSymbolField(symbolFields, f) && |Queries(p, c, f, |p.rows|)| >= MIN_USES
  }

  /** The specification lists exactly the symbol fields with enough uses, in order,
      each with the sorted symbols asked of it. */
  ghost predicate SpecOk(p: Program, c: Canonical, symbolFields: seq<bool>, spec: seq<FieldSpec>) {
    && (forall i, j :: 0 <= i < j < |spec| ==> spec[i].field < spec[j].field)
    && (forall f: nat :: HasField(spec, f) <==> Selected(p, c, symbolFields, f))
    && (forall i :: 0 <= i < |spec| ==> FieldSpecOk(p, c, spec[i]))
  }

  ghost predicate FieldSpecOk(p: Program, c: Canonical, spec: FieldSpec) {
    && Roots.StrictlyAscending(spec.values)
    && forall v :: v in spec.values <==> v in Queries(p, c, spec.field, |p.rows|)
  }

  /** The per-field query lists after n rows. Only symbol fields collect. */
  ghost predicate CollectedTo(p: Program, c: Canonical, symbolFields: seq<bool>, lists: seq<seq<nat>>, n: nat)
    requires n <= |p.rows|
  {
    && |lists| == |symbolFields|
    && forall f :: 1 <= f <= |lists| ==> ListAt(lists, f) == if symbolFields[f - 1] then Queries(p, c, f, n) else []
  }

  function ListAt(lists: seq<seq<nat>>, f: nat): seq<nat> {
    if 1 <= f <= |lists| then lists[f - 1] else []
  }

  /** Some symbol field has more queries than 32 bits count. */
  ghost predicate TooManyQueries(p: Program, c: Canonical, symbolFields: seq<bool>) {
    exists f: nat :: IsSymbolField(symbolFields, f) && |Queries(p, c, f, |p.rows|)| > MAX_UINT32
  }

  /** Collect the queries of one row. */
  method CollectRow(p: Program, c: Canonical, symbolFields: seq<bool>, lists: seq<seq<nat>>, i: nat)
    returns (status: Status, lists': seq<seq<nat>>)
    requires QueriesOk(p, c, symbolFields) && i < |p.rows| && CollectedTo(p, c, symbolFields, lists, i)
    ensures status == Done || (status == TooLarge && TooManyQueries(p, c, symbolFields))
    ensures status == Done ==> CollectedTo(p, c, symbolFields, lists', i + 1)
  {
    hide RowSymbols, Queries, CollectedTo, TooManyQueries;
    CollectedShape(p, c, symbolFields, lists, i);
    lists' := lists;
    var payload := p.rows[i].payload;
    if !IsQuery(payload.opcode) {
      NoSymbols(c, payload);
      CollectSkip(p, c, symbolFields, lists, i);
      return Done, lists;
    }
    var field := payload.field;
    if field == 0 || field > |symbolFields| {
      return InvalidProgram, lists;
    }
    if !symbolFields[field - 1] {
      CollectSkip(p, c, symbolFields, lists, i);
      return Done, lists;
    }
    var symbols := RowSymbols(c, payload);
    if 0 in symbols {
      return InvalidProgram, lists;
    }
    if |symbols| > MAX_UINT32 - |lists[field - 1]| {
      Overflows(p, c, symbolFields, field, i);
      return TooLarge, lists;
    }
    CollectStep(p, c, symbolFields, lists, i);
    return Done, lists[field - 1 := lists[field - 1] + symbols];
  }

  lemma Overflows(p: Program, c: Canonical, symbolFields: seq<bool>, f: nat, i: nat)
    requires i < |p.rows| && IsSymbolField(symbolFields, f) && p.rows[i].payload.field == f
    requires |RowSymbols(c, p.rows[i].payload)| + |Queries(p, c, f, i)| > MAX_UINT32
    ensures TooManyQueries(p, c, symbolFields)
  {
    hide RowSymbols, Queries;
    QueriesStep(p, c, f, i);
    QueriesGrow(p, c, f, i + 1, |p.rows|);
  }

  /** Count and collect the queries of every symbol field. Counts beyond 32 bits are
      refused. */
  method CollectQueries(p: Program, c: Canonical,
                        symbolFields: seq<bool>) returns (status: Status, lists: seq<seq<nat>>)
    requires QueriesOk(p, c, symbolFields)
    ensures status == Done || (status == TooLarge && TooManyQueries(p, c, symbolFields))
    ensures status == Done ==> CollectedTo(p, c, symbolFields, lists, |p.rows|)
  {
    lists := seq(|symbolFields|, _ => []);
    CollectedStart(p, c, symbolFields, lists);
    hide CollectedTo, QueriesOk, TooManyQueries;
    for i := 0 to |p.rows|
      invariant CollectedTo(p, c, symbolFields, lists, i)
    {
      status, lists := CollectRow(p, c, symbolFields, lists, i);
      if status != Done {
        return;
      }
    }
    status := Done;
  }

  lemma CollectedStart(p: Program, c: Canonical, symbolFields: seq<bool>, lists: seq<seq<nat>>)
    requires |lists| == |symbolFields| && forall f :: 0 <= f < |lists| ==> lists[f] == []
    ensures CollectedTo(p, c, symbolFields, lists, 0)
  {
  }

  lemma CollectedShape(p: Program, c: Canonical, symbolFields: seq<bool>, lists: seq<seq<nat>>, i: nat)
    requires i <= |p.rows| && CollectedTo(p, c, symbolFields, lists, i)
    ensures |lists| == |symbolFields|
    ensures forall f :: 1 <= f <= |symbolFields| && IsSymbolField(symbolFields, f) ==>
              lists[f - 1] == Queries(p, c, f, i)
  {
    hide Queries;
    forall f | 1 <= f <= |symbolFields| && IsSymbolField(symbolFields, f)
      ensures lists[f - 1] == Queries(p, c, f, i)
    {
      assert ListAt(lists, f) == lists[f - 1];
    }
  }

  lemma NoSymbols(c: Canonical, payload: Payload)
    requires !IsQuery(payload.opcode)
    ensures RowSymbols(c, payload) == []
  {
  }

  lemma QueriesStep(p: Program, c: Canonical, f: nat, i: nat)
    requires i < |p.rows|
    ensures p.rows[i].payload.field == f ==>
              Queries(p, c, f, i + 1) == Queries(p, c, f, i) + RowSymbols(c, p.rows[i].payload)
    ensures p.rows[i].payload.field != f || RowSymbols(c, p.rows[i].payload) == [] ==>
              Queries(p, c, f, i + 1) == Queries(p, c, f, i)
  {
    hide RowSymbols;
  }

  lemma CollectStep(p: Program, c: Canonical, symbolFields: seq<bool>, lists: seq<seq<nat>>, i: nat)
    requires i < |p.rows| && CollectedTo(p, c, symbolFields, lists, i)
    requires IsSymbolField(symbolFields, p.rows[i].payload.field)
    ensures var f := p.rows[i].payload.field;
            CollectedTo(p, c, symbolFields, lists[f - 1 := lists[f - 1] + RowSymbols(c, p.rows[i].payload)], i + 1)
  {
    hide RowSymbols, Queries;
    var f := p.rows[i].payload.field;
    var next := lists[f - 1 := lists[f - 1] + RowSymbols(c, p.rows[i].payload)];
    forall g | 1 <= g <= |next|
      ensures ListAt(next, g) == if symbolFields[g - 1] then Queries(p, c, g, i + 1) else []
    {
      assert ListAt(lists, g) == if symbolFields[g - 1] then Queries(p, c, g, i) else [];
      QueriesStep(p, c, g, i);
    }
  }

  lemma CollectSkip(p: Program, c: Canonical, symbolFields: seq<bool>, lists: seq<seq<nat>>, i: nat)
    requires i < |p.rows| && CollectedTo(p, c, symbolFields, lists, i)
    requires !IsSymbolField(symbolFields, p.rows[i].payload.field) || RowSymbols(c, p.rows[i].payload) == []
    ensures CollectedTo(p, c, symbolFields, lists, i + 1)
  {
    hide RowSymbols, Queries;
    forall g | 1 <= g <= |lists|
      ensures ListAt(lists, g) == if symbolFields[g - 1] then Queries(p, c, g, i + 1) else []
    {
      assert ListAt(lists, g) == if symbolFields[g - 1] then Queries(p, c, g, i) else [];
      QueriesStep(p, c, g, i);
    }
  }

  lemma {:induction false} QueriesGrow(p: Program, c: Canonical, f: nat, m: nat, n: nat)
    requires m <= n <= |p.rows|
    ensures |Queries(p, c, f, m)| <= |Queries(p, c, f, n)|
    decreases n
  {
    hide RowSymbols;
    if m < n {
      QueriesGrow(p, c, f, m, n - 1);
    }
  }

  /** Keep the fields with enough uses, and sort their symbols without repeats. */
  method SelectFields(p: Program, c: Canonical, symbolFields: seq<bool>,
                      lists: seq<seq<nat>>) returns (spec: seq<FieldSpec>)
    requires CollectedTo(p, c, symbolFields, lists, |p.rows|)
    ensures SpecOk(p, c, symbolFields, spec)
  {
    hide RowSymbols, Queries, FieldSpecOk, Selected, CollectedTo;
    ListsLength(p, c, symbolFields, lists);
    spec := [];
    for k := 0 to |lists|
      invariant forall i :: 0 <= i < |spec| ==> spec[i].field <= k && FieldSpecOk(p, c, spec[i])
      invariant forall i, j :: 0 <= i < j < |spec| ==> spec[i].field < spec[j].field
      invariant forall f: nat :: HasField(spec, f) <==> 1 <= f <= k && Selected(p, c, symbolFields, f)
    {
      ListFacts(p, c, symbolFields, lists, k + 1);
      if |lists[k]| >= MIN_USES {
        var sorted := Roots.SortIds(lists[k]);
        var values := Roots.DropRepeats(sorted);
        SpecFacts(p, c, k + 1, lists[k], sorted, values);
        HasOneMore(spec, FieldSpec(k + 1, values));
        spec := spec + [FieldSpec(k + 1, values)];
      }
    }
    forall f: nat
      ensures HasField(spec, f) <==> Selected(p, c, symbolFields, f)
    {
      SelectedInRange(p, c, symbolFields, f);
    }
  }

  /** The number of comparisons on the selected fields up to n. */
  function SelectedUses(p: Program, c: Canonical, symbolFields: seq<bool>, n: nat): nat {
    if n == 0 then 0
    else SelectedUses(p, c, symbolFields, n - 1) +
         if Selected(p, c, symbolFields, n) then |Queries(p, c, n, |p.rows|)| else 0
  }

  lemma {:induction false} UsesCount(p: Program, c: Canonical, symbolFields: seq<bool>, f: nat, n: nat)
    requires 1 <= f <= n && Selected(p, c, symbolFields, f)
    ensures SelectedUses(p, c, symbolFields, n) >= |Queries(p, c, f, |p.rows|)|
    decreases n
  {
    hide Selected, Queries;
    if f < n {
      UsesCount(p, c, symbolFields, f, n - 1);
    }
  }

  lemma TooManyUses(p: Program, c: Canonical, symbolFields: seq<bool>)
    requires TooManyQueries(p, c, symbolFields)
    ensures SelectedUses(p, c, symbolFields, |symbolFields|) > MAX_UINT32
  {
    hide Queries, SelectedUses;
    var f: nat :| IsSymbolField(symbolFields, f) && |Queries(p, c, f, |p.rows|)| > MAX_UINT32;
    UsesCount(p, c, symbolFields, f, |symbolFields|);
  }

  method SelectedTotal(p: Program, c: Canonical, symbolFields: seq<bool>, lists: seq<seq<nat>>) returns (total: nat)
    requires CollectedTo(p, c, symbolFields, lists, |p.rows|)
    ensures total == SelectedUses(p, c, symbolFields, |symbolFields|)
  {
    hide CollectedTo, Queries, Selected;
    ListsLength(p, c, symbolFields, lists);
    total := 0;
    for k := 0 to |lists|
      invariant total == SelectedUses(p, c, symbolFields, k)
    {
      ListFacts(p, c, symbolFields, lists, k + 1);
      if |lists[k]| >= MIN_USES {
        total := total + |lists[k]|;
      }
    }
  }

  /** The index specification; the total number of listed symbols must fit 32 bits. */
  method LowerFactIndexSpec(p: Program, c: Canonical,
                            symbolFields: seq<bool>) returns (status: Status, spec: seq<FieldSpec>)
    requires QueriesOk(p, c, symbolFields)
    ensures status == if SelectedUses(p, c, symbolFields, |symbolFields|) <= MAX_UINT32 then Done else TooLarge
    ensures status == Done ==> SpecOk(p, c, symbolFields, spec)
  {
    hide CollectedTo, SpecOk, QueriesOk, TooManyQueries, SelectedUses;
    spec := [];
    var lists;
    status, lists := CollectQueries(p, c, symbolFields);
    if status != Done {
      TooManyUses(p, c, symbolFields);
      return;
    }
    var total := SelectedTotal(p, c, symbolFields, lists);
    if total > MAX_UINT32 {
      return TooLarge, spec;
    }
    spec := SelectFields(p, c, symbolFields, lists);
  }

  lemma HasOneMore(spec: seq<FieldSpec>, more: FieldSpec)
    ensures forall f: nat :: HasField(spec + [more], f) <==> HasField(spec, f) || f == more.field
  {
    assert (spec + [more])[|spec|] == more;
    assert forall i :: 0 <= i < |spec| ==> (spec + [more])[i] == spec[i];
  }

  lemma SelectedInRange(p: Program, c: Canonical, symbolFields: seq<bool>, f: nat)
    ensures Selected(p, c, symbolFields, f) ==> 1 <= f <= |symbolFields|
  {
  }

  lemma ListsLength(p: Program, c: Canonical, symbolFields: seq<bool>, lists: seq<seq<nat>>)
    requires CollectedTo(p, c, symbolFields, lists, |p.rows|)
    ensures |lists| == |symbolFields|
  {
  }

  lemma ListFacts(p: Program, c: Canonical, symbolFields: seq<bool>, lists: seq<seq<nat>>, f: nat)
    requires CollectedTo(p, c, symbolFields, lists, |p.rows|) && 1 <= f <= |lists|
    ensures |lists[f - 1]| >= MIN_USES <==> Selected(p, c, symbolFields, f)
    ensures Selected(p, c, symbolFields, f) ==> lists[f - 1] == Queries(p, c, f, |p.rows|)
  {
    assert ListAt(lists, f) == lists[f - 1];
  }

  lemma SpecFacts(p: Program, c: Canonical, f: nat, list: seq<nat>, sorted: seq<nat>, values: seq<nat>)
    requires list == Queries(p, c, f, |p.rows|) && multiset(sorted) == multiset(list)
    requires Roots.StrictlyAscending(values) && forall v :: v in values <==> v in sorted
    ensures FieldSpecOk(p, c, FieldSpec(f, values))
  {
    forall v
      ensures v in sorted <==> v in list
    {
      assert v in sorted <==> v in multiset(sorted);
      assert v in list <==> v in multiset(list);
    }
  }

  /** Every symbol a row asks of a selected field is listed. */
  lemma {:induction false} QueryIsListed(p: Program, c: Canonical, i: nat, n: nat, v: nat)
    requires i < n <= |p.rows| && v in RowSymbols(c, p.rows[i].payload)
    ensures v in Queries(p, c, p.rows[i].payload.field, n)
    decreases n
  {
    hide RowSymbols;
    if i < n - 1 {
      QueryIsListed(p, c, i, n - 1, v);
    }
  }

  /** The check that guards index evaluation accepts every compiled specification. */
  lemma CompiledQueriesCovered(p: Program, c: Canonical, symbolFields: seq<bool>, spec: seq<FieldSpec>, i: nat, k: nat)
    requires SpecOk(p, c, symbolFields, spec) && i < |p.rows| && k < |spec| && spec[k].field == p.rows[i].payload.field
    ensures forall v :: v in RowSymbols(c, p.rows[i].payload) ==> v in spec[k].values
  {
    assert FieldSpecOk(p, c, spec[k]);
    hide RowSymbols;
    forall v | v in RowSymbols(c, p.rows[i].payload)
      ensures v in spec[k].values
    {
      QueryIsListed(p, c, i, |p.rows|, v);
    }
  }

  // ----- masks -----

  /** One mask per listed value: the rows that hold it. */
  ghost predicate MasksTo(s: Shard, values: seq<nat>, masks: seq<Plane>, next: nat)
    requires ShardOk(s) && s.column.Scalars?
  {
    && |masks| == |values|
    && forall v :: 0 <= v < |masks| ==> MaskTo(s, values[v], masks[v], next)
  }

  ghost predicate MaskTo(s: Shard, value: int, mask: Plane, next: nat)
    requires ShardOk(s) && s.column.Scalars?
  {
    && |mask| == WordCount(s.rows)
    && forall w: nat, k: nat :: w < |mask| && k < 64 ==>
         (mask[w][k] <==> InShard(s, w, k) && 64 * w + k < next && ValueAt(s, w, k) == value)
  }

  lemma MaskBit(s: Shard, value: int, mask: Plane, r: nat)
    requires ShardOk(s) && s.column.Scalars? && r < s.rows && MaskTo(s, value, mask, r)
    ensures r / 64 < |mask|
    ensures s.column.values[s.base + r] == value ==>
              MaskTo(s, value, mask[r / 64 := mask[r / 64][r % 64 := true]], r + 1)
    ensures s.column.values[s.base + r] != value ==> MaskTo(s, value, mask, r + 1)
  {
    assert InShard(s, r / 64, r % 64);
    forall w: nat, k: nat | InShard(s, w, k)
      ensures 64 * w + k == r <==> w == r / 64 && k == r % 64
    {
    }
  }

  method FindValue(values: seq<nat>, value: int) returns (found: bool, row: nat)
    ensures found <==> exists v :: 0 <= v < |values| && values[v] == value
    ensures found ==> row < |values| && values[row] == value
  {
    for v := 0 to |values|
      invariant forall u :: 0 <= u < v ==> values[u] != value
    {
      if values[v] == value {
        return true, v;
      }
    }
    return false, 0;
  }

  /** Scan the column once, setting one bit per row that holds a listed value. */
  method BuildMasks(s: Shard, values: seq<nat>) returns (masks: seq<Plane>)
    requires ShardOk(s) && s.column.Scalars? && Roots.StrictlyAscending(values)
    ensures MasksTo(s, values, masks, s.rows)
  {
    masks := seq(|values|, _ => seq(WordCount(s.rows), _ => Zero()));
    for r := 0 to s.rows
      invariant MasksTo(s, values, masks, r)
    {
      hide MaskTo;
      var found, row := FindValue(values, s.column.values[s.base + r]);
      forall v | 0 <= v < |values|
        ensures r / 64 < |masks[v]|
        ensures if found && v == row then MaskTo(s, values[v], masks[v][r / 64 := masks[v][r / 64][r % 64 := true]],
                                                 r + 1)
                else MaskTo(s, values[v], masks[v], r + 1)
      {
        assert MaskTo(s, values[v], masks[v], r);
        MaskBit(s, values[v], masks[v], r);
        assert found && v != row ==> values[v] != values[row] by {
          if found && v != row {
            assert v < row ==> values[v] < values[row];
            assert row < v ==> values[row] < values[v];
          }
        }
      }
      if found {
        masks := masks[row := masks[row][r / 64 := masks[row][r / 64][r % 64 := true]]];
      }
    }
  }

  /** The symbols a test asks for. */
  function Asked(test: Test): seq<int> {
    match test
    case Compare(_, operand) => [operand]
    case Member(values) => values
    case _ => []
  }

  ghost predicate Covered(test: Test, values: seq<nat>) {
    forall v :: v in Asked(test) ==> exists k :: 0 <= k < |values| && values[k] == v
  }

  /** The match word of an indexed equality, inequality or membership. */
  method IndexMatches(s: Shard, test: Test, values: seq<nat>, masks: seq<Plane>) returns (matches: Plane)
    requires ShardOk(s) && WellTyped(test, s.column) && s.column.Scalars? && MasksTo(s, values, masks, s.rows)
    requires Covered(test, values)
    requires test.Member? || (test.Compare? && (test.op == EQUAL || test.op == NOT_EQUAL))
    ensures |matches| == WordCount(s.rows) && forall w :: 0 <= w < |matches| ==> MatchWordOk(s, test, matches[w], w)
  {
    var words := WordCount(s.rows);
    if test.Compare? {
      assert test.operand in Asked(test);
      var found, row := FindValue(values, test.operand);
      assert MaskTo(s, values[row], masks[row], s.rows);
      matches := masks[row];
      if test.op == NOT_EQUAL {
        matches := seq(words, w requires 0 <= w < words => NotWord(masks[row][w]));
      }
      return;
    }
    matches := seq(words, _ => Zero());
    for i := 0 to |test.values|
      invariant |matches| == words
      invariant forall w: nat, k: nat :: InShard(s, w, k) ==> (matches[w][k] <==> ValueAt(s, w, k) in test.values[..i])
    {
      assert test.values[i] in Asked(test);
      var found, row := FindValue(values, test.values[i]);
      assert MaskTo(s, values[row], masks[row], s.rows);
      matches := seq(words, w requires 0 <= w < words => OrWord(matches[w], masks[row][w]));
      assert test.values[..i + 1] == test.values[..i] + [test.values[i]];
    }
    assert test.values[..|test.values|] == test.values;
  }

  /** The index evaluator. On a covered query it writes the planes of the scalar one. */
  method EvalIndex(s: Shard, test: Test, values: seq<nat>, masks: seq<Plane>) returns (taken: bool, p: Planes)
    requires ShardOk(s) && WellTyped(test, s.column) && s.column.Scalars? && MasksTo(s, values, masks, s.rows)
    requires Covered(test, values)
    ensures taken <==> test.Member? || (test.Compare? && (test.op == EQUAL || test.op == NOT_EQUAL))
    ensures taken ==> PlanesOk(s, test, p)
  {
    hide MatchWordOk, MasksTo, Covered, WordOk;
    var positive: Plane, negative: Plane, missing: Plane := [], [], [];
    p := Planes(positive, negative, missing);
    if !test.Member? && !(test.Compare? && (test.op == EQUAL || test.op == NOT_EQUAL)) {
      return false, p;
    }
    var matches := IndexMatches(s, test, values, masks);
    for w := 0 to |matches|
      invariant |positive| == |negative| == |missing| == w
      invariant forall v :: 0 <= v < w ==> WordOk(s, test, positive[v], negative[v], missing[v], v)
    {
      var valid := LeafWordMask(w, |matches|, s.rows);
      var present := AndWord(s.presence[s.base / 64 + w], valid);
      CombineWord(s, test, w, matches[w]);
      positive := positive + [AndWord(present, matches[w])];
      negative := negative + [AndNotWord(present, matches[w])];
      missing := missing + [AndNotWord(valid, present)];
    }
    p := Planes(positive, negative, missing);
    taken := true;
  }

  /** The executor's choice of path. Whatever paths the mode, the row count and the
      index allow, the planes are those of the scalar evaluator. */
  method EvalLeaf(s: Shard, test: Test, indexed: bool, vector: bool, values: seq<nat>, masks: seq<Plane>)
    returns (p: Planes)
    requires ShardOk(s) && WellTyped(test, s.column)
    requires indexed ==> s.column.Scalars? && MasksTo(s, values, masks, s.rows) && Covered(test, values)
    ensures PlanesOk(s, test, p)
    ensures forall q :: PlanesOk(s, test, q) ==> q == p
  {
    hide PlanesOk, MasksTo, Covered;
    var taken := false;
    if indexed && !test.Defined? {
      taken, p := EvalIndex(s, test, values, masks);
    }
    if !taken && vector && !test.Defined? {
      taken, p := EvalVector(s, test);
    }
    if !taken {
      p := EvalScalar(s, test);
    }
    forall q | PlanesOk(s, test, q)
      ensures q == p
    {
      PlanesAreDetermined(s, test, p, q);
    }
  }

  /** Splitting a batch at a word boundary splits the planes: a row's bits depend only on
      its own physical row. */
  lemma ShardsAgree(whole: Shard, part: Shard, test: Test, p: Planes, q: Planes, w: nat)
    requires ShardOk(whole) && ShardOk(part) && WellTyped(test, whole.column)
    requires part.presence == whole.presence && part.column == whole.column
    requires whole.base <= part.base && part.base + part.rows <= whole.base + whole.rows
    requires PlanesOk(whole, test, p) && PlanesOk(part, test, q) && w < WordCount(part.rows)
    ensures var offset := (part.base - whole.base) / 64;
            && offset + w < WordCount(whole.rows)
            && forall k :: 0 <= k < 64 && InShard(part, w, k) ==>
                 && q.positive[w][k] == p.positive[offset + w][k]
                 && q.negative[w][k] == p.negative[offset + w][k]
                 && q.missing[w][k] == p.missing[offset + w][k]
  {
    var offset := (part.base - whole.base) / 64;
    assert part.base / 64 == whole.base / 64 + offset;
    forall k | 0 <= k < 64 && InShard(part, w, k)
      ensures q.positive[w][k] == p.positive[offset + w][k] && q.negative[w][k] == p.negative[offset + w][k]
      ensures q.missing[w][k] == p.missing[offset + w][k]
    {
      assert InShard(whole, offset + w, k);
      assert WordOk(whole, test, p.positive[offset + w], p.negative[offset + w], p.missing[offset + w], offset + w);
      assert WordOk(part, test, q.positive[w], q.negative[w], q.missing[w], w);
      assert BitsOk(whole, test, p.positive[offset + w][k], p.negative[offset + w][k], p.missing[offset + w][k],
                    offset + w, k);
      assert BitsOk(part, test, q.positive[w][k], q.negative[w][k], q.missing[w][k], w, k);
      SameRow(whole, part, test, w, k, offset);
    }
  }

  lemma SameRow(whole: Shard, part: Shard, test: Test, w: nat, k: nat, offset: nat)
    requires ShardOk(whole) && ShardOk(part) && WellTyped(test, whole.column)
    requires part.presence == whole.presence && part.column == whole.column
    requires InShard(part, w, k) && InShard(whole, offset + w, k) && part.base == whole.base + 64 * offset
    ensures PresentAt(part, w, k) == PresentAt(whole, offset + w, k)
    ensures MatchesAt(part, test, w, k) == MatchesAt(whole, test, offset + w, k)
  {
    assert part.base / 64 == whole.base / 64 + offset;
  }
}
