/** Evaluating a batch of requests with a compiled policy: leaf rows through the fact
    index, the vector or the scalar path, connectives in reused slots. */
module BatchEvaluation {
  import opened Optional
  import opened Truth
  import opened Documents
  import opened Meanings
  import opened Programs
  import opened OpenAddress
  import opened Constants
  import opened Candidates
  import opened Lowering
  import opened Lowerers
  import opened Roots
  import opened Compaction
  import opened Schedule
  import opened Schedulers
  import opened NodeMaps
  import opened Compiler
  import opened Facts
  import A = Applicability
  import F = FactIndex
  import I = PolicyIndex

  // ----- every compiled row is typed -----

  ghost predicate ProgramTyped(p: Program, c: Canonical, kinds: seq<Kind>) {
    forall i :: 0 <= i < |p.rows| ==> PayloadTyped(c, kinds, p.rows[i].payload)
  }

  /** The candidate row that a final row comes from. */
  lemma RowSource(e: Columns, compacted: Compacted, scheduled: Scheduled, f: nat) returns (i: nat)
    requires Rewritten(e, compacted, scheduled) && f < |scheduled.program.rows|
    ensures i < |e.program.rows| && scheduled.program.rows[f].payload == e.program.rows[i].payload
  {
    hide Topological, Needed, Tiled, Ops;
    var j := scheduled.order[f];
    assert Matches(scheduled.program, compacted.program, scheduled.order, f);
    assert Matches(compacted.program, e.program, compacted.source, j);
    i := compacted.source[j];
  }

  /** A leaf row holds the payload of a leaf of the document. */
  lemma LeafOrigin(doc: Document, c: Canonical, roots: seq<set<Role>>, e: Columns, i: nat) returns (u: NodeId)
    requires Clean(doc) && Lowered(doc, c, roots, e) && i < |e.program.rows| && !IsConnective(OpcodeAt(e.program, i))
    ensures 1 <= u <= |doc.nodes| && IsLeaf(doc.nodes[u - 1])
    ensures e.program.rows[i].payload == LeafPayload(c, doc.nodes[u - 1])
  {
    hide FlagsOk, RolesOk, LeafPayload, Flat, Topological;
    assert Owns(e, i);
    u :| CanonAt(e, u) == i + 1;
    assert NodeDone(doc, c, e, u);
    assert NodeClean(doc, u);
  }

  /** The types of a document carry over to its compiled form. */
  lemma CompiledTyped(doc: Document, names: seq<Bytes>, kinds: seq<Kind>, out: Compiled, trace: Trace)
    requires Clean(doc) && Typed(doc, kinds) && CanonicalOk(out.constants, names, doc.literals)
    requires Traced(doc, out, trace)
    ensures ProgramTyped(out.program, out.constants, kinds)
  {
    hide Clean, CanonicalOk, LeafPayload, Lowered, Rewritten, LeafTyped, Tiled, PredicateTyped;
    forall f | 0 <= f < |out.program.rows|
      ensures PayloadTyped(out.constants, kinds, out.program.rows[f].payload)
    {
      var i := RowSource(trace.columns, trace.compacted, trace.scheduled, f);
      if !IsConnective(OpcodeAt(out.program, f)) {
        var u := LeafOrigin(doc, out.constants, trace.roots, trace.columns, i);
        TypedPayload(out.constants, names, doc, kinds, doc.nodes[u - 1]);
      }
    }
  }

  // ----- what the indexes ask of a compiled policy -----

  function SymbolFields(kinds: seq<Kind>): seq<bool> {
    seq(|kinds|, f requires 0 <= f < |kinds| => kinds[f] == SymbolKind)
  }

  lemma KeySymbol(c: Canonical, id: nat)
    requires KeyKind(c, id, SymbolKind)
    ensures A.SelectorSymbol(c, id) != 0 && A.SelectorSymbol(c, id) == Number(KeyFor(c, id))
  {
  }

  /** The symbols of a typed test on a symbol field. */
  lemma TestedSymbols(c: Canonical, p: Payload)
    requires PredicateTyped(c, SymbolKind, p) && (p.opcode == EQUAL || p.opcode == NOT_EQUAL || p.opcode == IN)
    ensures var values := if p.opcode == IN then p.list else [p.value];
            && A.Symbols(c, values) != [] && 0 !in A.Symbols(c, values)
            && F.Asked(TestOf(c, SymbolKind, p)) == A.Symbols(c, values)
  {
    var values := if p.opcode == IN then p.list else [p.value];
    forall k | 0 <= k < |values|
      ensures A.Symbols(c, values)[k] != 0 && A.Symbols(c, values)[k] == Number(KeyFor(c, values[k]))
    {
      KeySymbol(c, values[k]);
    }
  }

  /** What applicability extraction and the fact index ask of a program holds of every
      compiled policy. */
  lemma CompiledQueries(p: Program, c: Canonical, kinds: seq<Kind>)
    requires ProgramTyped(p, c, kinds)
    ensures A.SelectorsOk(p, c, SymbolFields(kinds)) && F.QueriesOk(p, c, SymbolFields(kinds))
  {
    hide PredicateTyped, A.Symbols;
    forall i | 0 <= i < |p.rows| && F.IsQuery(OpcodeAt(p, i))
      ensures 1 <= p.rows[i].payload.field <= |kinds|
      ensures kinds[p.rows[i].payload.field - 1] == SymbolKind ==>
                && 0 !in F.RowSymbols(c, p.rows[i].payload)
                && (OpcodeAt(p, i) != NOT_EQUAL ==> A.SelectorValues(p, c, i) != [] && 0 !in A.SelectorValues(p, c, i))
    {
      var payload := p.rows[i].payload;
      assert PayloadTyped(c, kinds, payload);
      if kinds[payload.field - 1] == SymbolKind {
        TestedSymbols(c, payload);
      }
    }
  }

  /** The symbols of row r, as the applicability index reads them. */
  ghost function SymbolFacts(b: Batch, c: Canonical, kinds: seq<Kind>, r: nat): A.Facts
    requires BatchOk(b, c, kinds) && r < b.rows
  {
    f => if 1 <= f <= |kinds| then SymbolIn(ShardAt(b, f), kinds[f - 1], b.symbols, r) else None
  }

  ghost function SymbolIn(s: V.Shard, kind: Kind, symbols: seq<Bytes>, r: nat): Option<nat>
    requires ColumnOk(s, kind, symbols) && r < s.rows
  {
    if kind == SymbolKind && PresentIn(s, r) then Some(s.column.values[s.base + r]) else None
  }

  /** Evaluating a selector by its facts is what the applicability index assumes. */
  lemma CompiledReadsFacts(b: Batch, p: Program, c: Canonical, kinds: seq<Kind>, r: nat, evidence: Atom -> Cell)
    requires ProgramTyped(p, c, kinds) && BatchOk(b, c, kinds) && r < b.rows
    ensures A.ReadsFacts(p, c, SymbolFields(kinds), LeafTruth(c, FactTruth(FactsAt(b, c, kinds, r), evidence)),
                         SymbolFacts(b, c, kinds, r))
  {
    hide PayloadTyped, BatchOk, FactTruth, FactsAt, SymbolFacts, LeafTruth, A.SelectorValues;
    forall i: nat, f: nat | A.Selects(p, SymbolFields(kinds), i, f)
      ensures SelectorReads(LeafTruth(c, FactTruth(FactsAt(b, c, kinds, r), evidence))(p.rows[i].payload),
                            SymbolFacts(b, c, kinds, r)(f), A.SelectorValues(p, c, i))
    {
      SelectorReadsFact(b, p, c, kinds, r, evidence, i, f);
    }
  }

  predicate SelectorReads(cell: Cell, fact: Option<nat>, values: seq<nat>) {
    && (cell.positive <==> fact.Some? && fact.value in values)
    && (cell.negative <==> fact.Some? && fact.value !in values)
  }

  lemma SelectorReadsFact(b: Batch, p: Program, c: Canonical, kinds: seq<Kind>, r: nat, evidence: Atom -> Cell, i: nat,
                          f: nat)
    requires ProgramTyped(p, c, kinds) && BatchOk(b, c, kinds) && r < b.rows && A.Selects(p, SymbolFields(kinds), i, f)
    ensures SelectorReads(LeafTruth(c, FactTruth(FactsAt(b, c, kinds, r), evidence))(p.rows[i].payload),
                          SymbolFacts(b, c, kinds, r)(f), A.SelectorValues(p, c, i))
  {
    hide PredicateTyped, ColumnOk, Holds, A.Symbols, ValueIn, V.ShardOk, AtomAt;
    var payload, s := p.rows[i].payload, ShardAt(b, f);
    assert PayloadTyped(c, kinds, payload) && ColumnOk(s, SymbolKind, b.symbols);
    AtomIs(c, payload);
    ShardFacts(b, c, kinds, f);
    ValueIsThere(s, SymbolKind, b.symbols, r);
    if PresentIn(s, r) {
      SelectorHolds(c, payload, s, b.symbols, r);
    }
    assert SymbolFacts(b, c, kinds, r)(f) == SymbolIn(s, SymbolKind, b.symbols, r);
    assert FactsAt(b, c, kinds, r)(f) == FactIn(s, SymbolKind, b.symbols, r);
  }

  lemma SelectorHolds(c: Canonical, p: Payload, s: V.Shard, symbols: seq<Bytes>, r: nat)
    requires PredicateTyped(c, SymbolKind, p) && (p.opcode == EQUAL || p.opcode == IN)
    requires ColumnOk(s, SymbolKind, symbols) && r < s.rows && PresentIn(s, r) && c.symbols <= symbols
    requires Distinct(symbols)
    ensures var fact, atom := ValueIn(s, SymbolKind, symbols, r), AtomAt(c, p);
            && fact.Known?
            && (Holds(atom.op, fact.literal, atom.operand, atom.list) <==>
                s.column.values[s.base + r] in A.Symbols(c, A.TestedValues(p)))
  {
    hide V.MatchesAt, AtomAt, Holds, A.Symbols, PredicateTyped, V.InShard, V.WellTyped;
    TestedSymbols(c, p);
    TestMeans(c, SymbolKind, p, s, symbols, r);
    RowInShard(s, r);
    SelectorMatches(c, p, s, r / 64, r % 64);
  }

  lemma SelectorMatches(c: Canonical, p: Payload, s: V.Shard, w: nat, k: nat)
    requires p.opcode == EQUAL || p.opcode == IN
    requires V.ShardOk(s) && s.column.Scalars? && V.InShard(s, w, k) && V.WellTyped(TestOf(c, SymbolKind, p), s.column)
    requires F.Asked(TestOf(c, SymbolKind, p)) == A.Symbols(c, A.TestedValues(p))
    ensures V.MatchesAt(s, TestOf(c, SymbolKind, p), w, k) <==> V.ValueAt(s, w, k) in A.Symbols(c, A.TestedValues(p))
  {
    hide A.Symbols, KeyFor, V.ShardOk, V.ValueAt, V.InShard;
  }

  // ----- leaf planes -----

  /** The planes of the predicate rows are the reference planes of their tests. */
  ghost predicate PlaneOk(c: Canonical, kinds: seq<Kind>, b: Batch, p: Payload, planes: V.Planes)
    requires BatchOk(b, c, kinds)
  {
    IsPredicate(p.opcode) ==>
      && 1 <= p.field <= |kinds|
      && var s, test := ShardAt(b, p.field), TestOf(c, kinds[p.field - 1], p);
      V.ShardOk(s) && V.WellTyped(test, s.column) && V.PlanesOk(s, test, planes)
  }

  ghost predicate PlanesTo(p: Program, c: Canonical, kinds: seq<Kind>, b: Batch, planes: seq<V.Planes>, n: nat)
    requires BatchOk(b, c, kinds)
  {
    && |planes| == n <= |p.rows|
    && forall i :: 0 <= i < n ==> PlaneOk(c, kinds, b, p.rows[i].payload, planes[i])
  }

  ghost predicate IndexOk(c: Canonical, kinds: seq<Kind>, b: Batch, spec: seq<F.FieldSpec>, masks: seq<seq<V.Plane>>,
                          n: nat)
    requires BatchOk(b, c, kinds)
  {
    && |masks| == n <= |spec|
    && forall k :: 0 <= k < n ==> MaskOk(c, kinds, b, spec[k], masks[k])
  }

  ghost predicate MaskOk(c: Canonical, kinds: seq<Kind>, b: Batch, spec: F.FieldSpec, masks: seq<V.Plane>)
    requires BatchOk(b, c, kinds)
  {
    && 1 <= spec.field <= |kinds| && kinds[spec.field - 1] == SymbolKind
    && var s := ShardAt(b, spec.field);
    V.ShardOk(s) && s.column.Scalars? && F.MasksTo(s, spec.values, masks, s.rows)
  }

  lemma SpecField(p: Program, c: Canonical, kinds: seq<Kind>, spec: seq<F.FieldSpec>, k: nat)
    requires F.SpecOk(p, c, SymbolFields(kinds), spec) && k < |spec|
    ensures 1 <= spec[k].field <= |kinds| && kinds[spec[k].field - 1] == SymbolKind && StrictlyAscending(spec[k].values)
  {
    assert F.HasField(spec, spec[k].field);
    assert F.Selected(p, c, SymbolFields(kinds), spec[k].field);
    assert F.FieldSpecOk(p, c, spec[k]);
  }

  lemma ShardFacts(b: Batch, c: Canonical, kinds: seq<Kind>, f: nat)
    requires BatchOk(b, c, kinds) && 1 <= f <= |kinds|
    ensures 1 <= f <= |b.presence| == |b.columns| && ColumnOk(ShardAt(b, f), kinds[f - 1], b.symbols)
    ensures V.ShardOk(ShardAt(b, f)) && (kinds[f - 1] == SymbolKind ==> ShardAt(b, f).column.Scalars?)
  {
  }

  /** The masks of every indexed field. */
  method BuildIndex(ghost p: Program, c: Canonical, kinds: seq<Kind>, b: Batch,
                    spec: seq<F.FieldSpec>) returns (masks: seq<seq<V.Plane>>)
    requires BatchOk(b, c, kinds) && F.SpecOk(p, c, SymbolFields(kinds), spec)
    ensures IndexOk(c, kinds, b, spec, masks, |spec|)
  {
    masks := [];
    for k := 0 to |spec|
      invariant IndexOk(c, kinds, b, spec, masks, k)
    {
      hide BatchOk, F.SpecOk, F.MasksTo;
      SpecField(p, c, kinds, spec, k);
      ShardFacts(b, c, kinds, spec[k].field);
      var mask := F.BuildMasks(ShardAt(b, spec[k].field), spec[k].values);
      masks := masks + [mask];
    }
  }

  /** The position of a field in the index, if it is there. */
  method FindIndex(spec: seq<F.FieldSpec>, field: nat) returns (indexed: bool, k: nat)
    ensures indexed ==> k < |spec| && spec[k].field == field
  {
    for i := 0 to |spec| {
      if spec[i].field == field {
        return true, i;
      }
    }
    return false, 0;
  }

  /** A compiled test of an indexed field only asks for listed symbols. */
  lemma IndexCovers(p: Program, c: Canonical, kinds: seq<Kind>, spec: seq<F.FieldSpec>, i: nat, k: nat)
    requires ProgramTyped(p, c, kinds) && F.SpecOk(p, c, SymbolFields(kinds), spec) && i < |p.rows| && k < |spec|
    requires IsPredicate(OpcodeAt(p, i)) && spec[k].field == p.rows[i].payload.field
    ensures F.Covered(TestOf(c, SymbolKind, p.rows[i].payload), spec[k].values)
  {
    var payload := p.rows[i].payload;
    assert PayloadTyped(c, kinds, payload);
    SpecField(p, c, kinds, spec, k);
    F.CompiledQueriesCovered(p, c, SymbolFields(kinds), spec, i, k);
    hide F.SpecOk;
    if F.IsQuery(payload.opcode) {
      TestedSymbols(c, payload);
      hide A.Symbols, TestOf, PredicateTyped;
      assert F.Asked(TestOf(c, SymbolKind, payload)) == F.RowSymbols(c, payload);
    } else {
      assert F.Asked(TestOf(c, SymbolKind, payload)) == [];
    }
  }

  /** Evaluate the predicate rows, each by whatever path the index and the row allow. */
  method EvaluateLeaves(p: Program, c: Canonical, kinds: seq<Kind>, b: Batch, spec: seq<F.FieldSpec>, vector: bool)
    returns (planes: seq<V.Planes>)
    requires ProgramTyped(p, c, kinds) && BatchOk(b, c, kinds) && F.SpecOk(p, c, SymbolFields(kinds), spec)
    ensures PlanesTo(p, c, kinds, b, planes, |p.rows|)
  {
    var masks := BuildIndex(p, c, kinds, b, spec);
    planes := [];
    for i := 0 to |p.rows|
      invariant PlanesTo(p, c, kinds, b, planes, i)
    {
      hide ProgramTyped, BatchOk, F.SpecOk, IndexOk, PlaneOk;
      var next := V.Planes([], [], []);
      NothingToRead(c, kinds, b, p.rows[i].payload, next);
      if IsPredicate(OpcodeAt(p, i)) {
        next := EvaluatePredicate(p, c, kinds, b, spec, masks, vector, i);
      }
      planes := planes + [next];
    }
  }

  lemma NothingToRead(c: Canonical, kinds: seq<Kind>, b: Batch, p: Payload, planes: V.Planes)
    requires BatchOk(b, c, kinds)
    ensures !IsPredicate(p.opcode) ==> PlaneOk(c, kinds, b, p, planes)
  {
  }

  method EvaluatePredicate(p: Program, c: Canonical, kinds: seq<Kind>, b: Batch, spec: seq<F.FieldSpec>,
                           masks: seq<seq<V.Plane>>,
                           vector: bool, i: nat) returns (planes: V.Planes)
    requires ProgramTyped(p, c, kinds) && BatchOk(b, c, kinds) && F.SpecOk(p, c, SymbolFields(kinds), spec)
    requires IndexOk(c, kinds, b, spec, masks, |spec|) && i < |p.rows| && IsPredicate(OpcodeAt(p, i))
    ensures PlaneOk(c, kinds, b, p.rows[i].payload, planes)
  {
    hide BatchOk, F.SpecOk, F.MasksTo, F.Covered, PredicateTyped, TestOf, V.PlanesOk, V.ShardOk, V.WellTyped, ColumnOk;
    var payload := p.rows[i].payload;
    assert PayloadTyped(c, kinds, payload);
    var kind := kinds[payload.field - 1];
    ShardFacts(b, c, kinds, payload.field);
    var s, test := ShardAt(b, payload.field), TestOf(c, kind, payload);
    TestWellTyped(c, kind, payload, s, b.symbols);
    var indexed, k := FindIndex(spec, payload.field);
    var values, mask: seq<V.Plane> := [], [];
    if indexed {
      SpecField(p, c, kinds, spec, k);
      IndexCovers(p, c, kinds, spec, i, k);
      assert MaskOk(c, kinds, b, spec[k], masks[k]);
      values, mask := spec[k].values, masks[k];
    }
    planes := F.EvalLeaf(s, test, indexed, vector, values, mask);
  }

  // ----- the whole batch -----

  /** How the executor reads a leaf row in request r: constants, the planes of a
      predicate, and evidence. */
  function LeafReader(p: Program, c: Canonical, planes: seq<V.Planes>, evidence: Atom -> Cell,
                      r: nat): Payload -> Cell {
    (payload: Payload) =>
      if payload.opcode == BOOLEAN then Decided(LiteralOf(c, payload.value) == Bool(true))
      else if payload.opcode == EVIDENCE then evidence(AtomAt(c, payload))
      else
        var i := FirstRow(p, payload, 0);
        if i < |planes| then CellAt(planes[i], r) else Cell(false, false, {})
  }

  /** The first row with a payload. */
  function FirstRow(p: Program, payload: Payload, from: nat): (i: nat)
    ensures from <= i && (i < |p.rows| ==> p.rows[i].payload == payload)
    ensures forall j :: from <= j < |p.rows| && p.rows[j].payload == payload ==> i <= j && i < |p.rows|
    decreases |p.rows| - from
  {
    if from >= |p.rows| || p.rows[from].payload == payload then from else FirstRow(p, payload, from + 1)
  }

  /** Reading the planes gives the truth of the atoms under the facts of the request. */
  lemma ReaderAgrees(p: Program, c: Canonical, kinds: seq<Kind>, b: Batch, planes: seq<V.Planes>,
                     evidence: Atom -> Cell, r: nat)
    requires Topological(p) && ProgramTyped(p, c, kinds) && BatchOk(b, c, kinds)
    requires PlanesTo(p, c, kinds, b, planes, |p.rows|) && r < b.rows
    ensures AgreeOnLeaves(p, LeafReader(p, c, planes, evidence, r),
                          LeafTruth(c, FactTruth(FactsAt(b, c, kinds, r), evidence)))
  {
    hide PlanesTo, ProgramTyped, BatchOk, LeafReader, LeafTruth;
    forall j | 0 <= j < |p.rows| && !IsConnective(OpcodeAt(p, j))
      ensures LeafReader(p, c, planes, evidence, r)(p.rows[j].payload) ==
              LeafTruth(c, FactTruth(FactsAt(b, c, kinds, r), evidence))(p.rows[j].payload)
    {
      assert RowOk(p, j);
      if IsPredicate(OpcodeAt(p, j)) {
        ReadsPredicate(p, c, kinds, b, planes, evidence, r, j);
      } else {
        ReadsConstant(p, c, planes, FactsAt(b, c, kinds, r), evidence, r, p.rows[j].payload);
      }
    }
  }

  lemma ReadsConstant(p: Program, c: Canonical, planes: seq<V.Planes>, facts: FactRow, evidence: Atom -> Cell, r: nat,
                      payload: Payload)
    requires payload.opcode == BOOLEAN || payload.opcode == EVIDENCE
    ensures LeafReader(p, c, planes, evidence, r)(payload) == LeafTruth(c, FactTruth(facts, evidence))(payload)
  {
    var atom := AtomAt(c, payload);
    assert LeafTruth(c, FactTruth(facts, evidence))(payload) == AtomTruth(facts, evidence, atom);
    if payload.opcode == BOOLEAN {
      assert atom == BooleanAtom(LiteralOf(c, payload.value));
    } else {
      assert atom.EvidenceAtom?;
      assert LeafReader(p, c, planes, evidence, r)(payload) == evidence(atom);
    }
  }

  lemma ReadsPredicate(p: Program, c: Canonical, kinds: seq<Kind>, b: Batch, planes: seq<V.Planes>,
                       evidence: Atom -> Cell, r: nat, j: nat)
    requires ProgramTyped(p, c, kinds) && BatchOk(b, c, kinds) && PlanesTo(p, c, kinds, b, planes, |p.rows|)
    requires r < b.rows
    requires j < |p.rows| && IsPredicate(OpcodeAt(p, j))
    ensures LeafReader(p, c, planes, evidence, r)(p.rows[j].payload) ==
            LeafTruth(c, FactTruth(FactsAt(b, c, kinds, r), evidence))(p.rows[j].payload)
  {
    hide BatchOk, V.PlanesOk, V.ShardOk, V.WellTyped, PredicateTyped, TestOf, FactTruth, FactsAt, CellAt, AtomAt;
    var payload := p.rows[j].payload;
    var i := FirstRow(p, payload, 0);
    assert i <= j && p.rows[i].payload == payload;
    assert PayloadTyped(c, kinds, p.rows[i].payload) && PlaneOk(c, kinds, b, p.rows[i].payload, planes[i]);
    LeafBits(b, c, kinds, payload, planes[i], r, evidence);
  }

  function EvidenceAt(evidence: (nat, Atom) -> Cell, r: nat): Atom -> Cell {
    atom => evidence(r, atom)
  }

  /** Evaluating a root over a batch gives, in every row, the meaning of the source node
      under the facts of that row. */
  method EvaluateBatch(doc: Document, ghost names: seq<Bytes>, kinds: seq<Kind>, out: Compiled, ghost last: seq<nat>,
                       ghost trace: Trace,
                       spec: seq<F.FieldSpec>, b: Batch, evidence: (nat, Atom) -> Cell, vector: bool, root: NodeId)
    returns (status: Status, cells: seq<Cell>)
    requires Accepted(doc) && Clean(doc) && Typed(doc, kinds) && CanonicalOk(out.constants, names, doc.literals)
    requires CompiledOk(doc, out, last) && Traced(doc, out, trace) && root in AllRoots(doc)
    requires F.SpecOk(out.program, out.constants, SymbolFields(kinds), spec) && BatchOk(b, out.constants, kinds)
    ensures status == Done && |cells| == b.rows && 1 <= root <= |doc.nodes|
    ensures forall r :: 0 <= r < b.rows ==>
              cells[r] == Meaning(doc, FactTruth(FactsAt(b, out.constants, kinds, r), EvidenceAt(evidence, r)), root)
  {
    hide Clean, Accepted, Typed, CanonicalOk, CompiledOk, Traced, AllRoots, F.SpecOk, BatchOk, Meaning, FactTruth,
         FactsAt, ProgramTyped,
         PlanesTo, AgreeOnLeaves, LeafTruth;
    AcceptedIsClean(doc);
    CompiledTyped(doc, names, kinds, out, trace);
    CompiledShape(doc, out, last);
    var planes := EvaluateLeaves(out.program, out.constants, kinds, b, spec, vector);
    cells, status := [], Done;
    RootInRange(doc, root);
    for r := 0 to b.rows
      invariant |cells| == r && status == Done
      invariant forall q :: 0 <= q < r ==>
                  cells[q] == Meaning(doc, FactTruth(FactsAt(b, out.constants, kinds, q), EvidenceAt(evidence, q)),
                                      root)
    {
      var cell;
      ReaderAgrees(out.program, out.constants, kinds, b, planes, EvidenceAt(evidence, r), r);
      status, cell := EvaluateWith(doc, out, last,
                                   LeafReader(out.program, out.constants, planes, EvidenceAt(evidence, r), r),
                                   FactTruth(FactsAt(b, out.constants, kinds, r), EvidenceAt(evidence, r)), root);
      cells := cells + [cell];
    }
  }

  lemma CompiledShape(doc: Document, out: Compiled, last: seq<nat>)
    requires Clean(doc) && CompiledOk(doc, out, last)
    ensures Topological(out.program)
  {
    hide Clean, Topological;
  }

  lemma RootInRange(doc: Document, root: NodeId)
    requires Clean(doc) && InTable(doc, AllRoots(doc)) && root in AllRoots(doc)
    ensures 1 <= root <= |doc.nodes|
  {
    hide AllRoots, Clean;
  }

  /** A compiled policy and its fact index. The index only fails on its 32-bit total. */
  method LowerIndex(doc: Document, ghost names: seq<Bytes>, kinds: seq<Kind>, out: Compiled, ghost trace: Trace)
    returns (status: Status, spec: seq<F.FieldSpec>)
    requires Clean(doc) && Typed(doc, kinds) && CanonicalOk(out.constants, names, doc.literals)
    requires Traced(doc, out, trace)
    ensures status ==
            if F.SelectedUses(out.program, out.constants, SymbolFields(kinds), |kinds|) <= MAX_UINT32 then Done
            else TooLarge
    ensures status == Done ==> F.SpecOk(out.program, out.constants, SymbolFields(kinds), spec)
  {
    hide Clean, Typed, CanonicalOk, Traced, F.SpecOk, F.QueriesOk, A.SelectorsOk, ProgramTyped, F.SelectedUses;
    CompiledTyped(doc, names, kinds, out, trace);
    CompiledQueries(out.program, out.constants, kinds);
    status, spec := F.LowerFactIndexSpec(out.program, out.constants, SymbolFields(kinds));
  }

  /** Skipping a requirement is sound: when the applicability index leaves it out for
      the symbols of a row, its applicability root means false under the row's facts. */
  lemma SkippedIsFalse(doc: Document, names: seq<Bytes>, kinds: seq<Kind>, out: Compiled, last: seq<nat>, trace: Trace,
                       b: Batch, r: nat, evidence: Atom -> Cell, roots: seq<InstructionId>,
                       constraints: seq<I.Constraint>,
                       row: nat, field: FieldId, root: NodeId)
    requires Accepted(doc) && Clean(doc) && Typed(doc, kinds) && CanonicalOk(out.constants, names, doc.literals)
    requires CompiledOk(doc, out, last) && Traced(doc, out, trace) && BatchOk(b, out.constants, kinds) && r < b.rows
    requires root in AllRoots(doc) && row < |roots| && NodeIds(out.nodes, root) == [roots[row]]
    requires forall k :: 0 <= k < |constraints| ==>
               I.Justified(out.program, out.constants, SymbolFields(kinds), roots, constraints[k])
    requires var fact := SymbolFacts(b, out.constants, kinds, r)(field);
             fact.Some? && !I.Admits(constraints, row, field, fact.value)
    ensures 1 <= root <= |doc.nodes|
    ensures var cell := Meaning(doc, FactTruth(FactsAt(b, out.constants, kinds, r), evidence), root);
            !cell.positive && cell.negative
  {
    hide Clean, Accepted, Typed, CanonicalOk, CompiledOk, Traced, AllRoots, BatchOk, Meaning, FactTruth, FactsAt,
         ProgramTyped,
         LeafTruth, Value, SymbolFacts, I.Justified, I.Admits, Topological;
    AcceptedIsClean(doc);
    RootInRange(doc, root);
    CompiledTyped(doc, names, kinds, out, trace);
    CompiledReadsFacts(b, out.program, out.constants, kinds, r, evidence);
    var truth := FactTruth(FactsAt(b, out.constants, kinds, r), evidence);
    RootFacts(doc, out, last, truth, root);
    I.FilteredIsFalse(out.program, out.constants, SymbolFields(kinds), roots, constraints,
                      LeafTruth(out.constants, truth),
                      SymbolFacts(b, out.constants, kinds, r), row, field);
  }
}
