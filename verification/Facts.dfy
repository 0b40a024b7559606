/** Facts of a request and what they make of the atoms of a policy: the typing that the
    validator enforces, the columns of a batch, and the link between a row's bits and
    the truth of an atom. */
module Facts {
  import opened Optional
  import opened Truth
  import opened Documents
  import opened Meanings
  import opened Programs
  import opened OpenAddress
  import opened Constants
  import opened Candidates
  import V = Predicates

  datatype Kind = SymbolKind | IntegerKind | BooleanKind | TimestampKind | PresenceKind

  /** The reason of a missing fact. */
  const MISSING: Reason := 1

  function KindOf(literal: Literal): Kind {
    match literal
    case Symbol(_) => SymbolKind
    case Integer(_) => IntegerKind
    case Bool(_) => BooleanKind
    case Timestamp(_) => TimestampKind
  }

  predicate OrderedOp(op: nat) {
    LESS <= op <= GREATER_EQUAL
  }

  predicate OrderedKind(kind: Kind) {
    kind == IntegerKind || kind == TimestampKind
  }

  // ----- typed documents -----

  predicate HasKind(doc: Document, id: ValueId, kind: Kind) {
    IsValue(doc, id) && KindOf(LiteralAt(doc, id)) == kind
  }

  /** The arity and kinds of a comparison, as the validator demands them. */
  predicate LeafTyped(doc: Document, kinds: seq<Kind>, node: Node) {
    match node
    case Boolean(value) => HasKind(doc, value, BooleanKind)
    case Compare(field, op, operand, list) =>
      && 1 <= field <= |kinds| && COMPARE_EQUAL <= op <= COMPARE_DEFINED
      && var kind := kinds[field - 1];
      if op == COMPARE_EXISTS || op == COMPARE_DEFINED then operand == 0 && list == []
      else if op == COMPARE_IN then
        operand == 0 && list != [] && kind != PresenceKind && forall k :: 0 <= k < |list| ==>
          HasKind(doc, list[k], kind)
      else
        list == [] && HasKind(doc, operand, kind) && (OrderedOp(op) ==> OrderedKind(kind))
    case _ => true
  }

  predicate Typed(doc: Document, kinds: seq<Kind>) {
    forall i :: 0 <= i < |doc.nodes| ==> LeafTyped(doc, kinds, doc.nodes[i])
  }

  // ----- facts and atoms -----

  /** What a request says of a field: nothing, that it is there, or its value. */
  datatype Fact = Absent | Present | Known(literal: Literal)

  type FactRow = FieldId -> Fact

  predicate InOrder(op: nat, x: int, y: int) {
    if op == LESS then x < y
    else if op == V.LESS_EQUAL then x <= y
    else if op == V.GREATER then x > y
    else x >= y
  }

  predicate CompareLiterals(op: nat, a: Literal, b: Literal) {
    if op == COMPARE_EQUAL then a == b
    else if op == NOT_EQUAL then a != b
    else match a
      case Integer(x) => b.Integer? && InOrder(op, x, b.integer)
      case Timestamp(x) => b.Timestamp? && InOrder(op, x, b.timestamp)
      case _ => false
  }

  /** Whether a comparison holds of a known value. */
  predicate Holds(op: nat, value: Literal, operand: Option<Literal>, list: seq<Literal>) {
    if op == COMPARE_IN then value in list else operand.Some? && CompareLiterals(op, value, operand.value)
  }

  /** A missing fact decides nothing, except whether the fact is defined. */
  function AtomTruth(facts: FactRow, evidence: Atom -> Cell, atom: Atom): Cell {
    match atom
    case BooleanAtom(literal) => Decided(literal == Bool(true))
    case EvidenceAtom(_, _, _, _, _) => evidence(atom)
    case CompareAtom(field, op, operand, list) =>
      var fact := facts(field);
      if op == COMPARE_DEFINED then Decided(!fact.Absent?)
      else if fact.Absent? then Cell(false, false, {MISSING})
      else if op == COMPARE_EXISTS then Decided(true)
      else Decided(fact.Known? && Holds(op, fact.literal, operand, list))
  }

  function FactTruth(facts: FactRow, evidence: Atom -> Cell): Atom -> Cell {
    atom => AtomTruth(facts, evidence, atom)
  }

  // ----- typed payloads -----

  /** The rows that read a fact. */
  predicate IsPredicate(op: Opcode) {
    EQUAL <= op <= GREATER_EQUAL || op == DEFINED
  }

  predicate KeyKind(c: Canonical, id: nat, kind: Kind) {
    1 <= id <= |c.values| && KeyOk(c.values[id - 1], c.symbols) && KindOf(Spelled(c.values[id - 1], c.symbols)) == kind
  }

  predicate PayloadTyped(c: Canonical, kinds: seq<Kind>, p: Payload) {
    && (p.opcode == BOOLEAN ==> KeyKind(c, p.value, BooleanKind))
    && (IsPredicate(p.opcode) ==> 1 <= p.field <= |kinds| && PredicateTyped(c, kinds[p.field - 1], p))
  }

  predicate PredicateTyped(c: Canonical, kind: Kind, p: Payload) {
    if p.opcode == EXISTS || p.opcode == DEFINED then p.value == 0 && p.list == []
    else if p.opcode == IN then
      p.value == 0 && p.list != [] && kind != PresenceKind && forall k :: 0 <= k < |p.list| ==>
        KeyKind(c, p.list[k], kind)
    else
      p.list == [] && KeyKind(c, p.value, kind) && (OrderedOp(p.opcode) ==> OrderedKind(kind))
  }

  lemma CanonicalKind(c: Canonical, names: seq<Bytes>, doc: Document, id: ValueId, kind: Kind)
    requires CanonicalOk(c, names, doc.literals) && HasKind(doc, id, kind)
    ensures KeyKind(c, CanonicalValue(c, id), kind)
  {
    assert Remaps(c.symbols, c.values, doc.literals[id - 1], c.valueRemap[id - 1], c.symbolRemap[id - 1]);
  }

  /** Lowering keeps the types. */
  lemma TypedPayload(c: Canonical, names: seq<Bytes>, doc: Document, kinds: seq<Kind>, node: Node)
    requires CanonicalOk(c, names, doc.literals) && IsLeaf(node) && LeafTyped(doc, kinds, node)
    ensures PayloadTyped(c, kinds, LeafPayload(c, node))
  {
    hide CanonicalOk, KeyKind, CanonicalValue, HasKind, OrderedOp, OrderedKind;
    match node
    case Boolean(value) => CanonicalKind(c, names, doc, value, BooleanKind);
    case Compare(field, op, operand, list) =>
      var kind := kinds[field - 1];
      if op == COMPARE_IN {
        forall k | 0 <= k < |list|
          ensures KeyKind(c, CanonicalValue(c, list[k]), kind)
        {
          CanonicalKind(c, names, doc, list[k], kind);
        }
      } else if op != COMPARE_EXISTS && op != COMPARE_DEFINED {
        CanonicalKind(c, names, doc, operand, kind);
        OperandPresent(doc, operand, kind);
      }
    case Evidence(_, _, _, _, _) =>
  }

  lemma OperandPresent(doc: Document, id: ValueId, kind: Kind)
    requires HasKind(doc, id, kind)
    ensures id != 0
  {
  }

  // ----- tests on columns -----

  function Number(key: ValueKey): int {
    match key
    case SymbolKey(id) => id
    case IntegerKey(i) => i
    case TimestampKey(t) => t
    case BooleanKey(_) => 0
  }

  function Flag(key: ValueKey): bool {
    key.BooleanKey? && key.boolean
  }

  function KeyFor(c: Canonical, id: nat): ValueKey {
    if 1 <= id <= |c.values| then c.values[id - 1] else IntegerKey(0)
  }

  /** The test of a predicate row on the column of its field. */
  function TestOf(c: Canonical, kind: Kind, p: Payload): V.Test {
    if p.opcode == EXISTS then V.Exists
    else if p.opcode == DEFINED then V.Defined
    else if p.opcode == IN then
      if kind == BooleanKind then
        V.MemberFlag(seq(|p.list|, k requires 0 <= k < |p.list| => Flag(KeyFor(c, p.list[k]))))
      else V.Member(seq(|p.list|, k requires 0 <= k < |p.list| => Number(KeyFor(c, p.list[k]))))
    else if kind == BooleanKind then V.CompareFlag(p.opcode == EQUAL, Flag(KeyFor(c, p.value)))
    else V.Compare(p.opcode, Number(KeyFor(c, p.value)))
  }

  // ----- batches -----

  /** A range of rows over columns, one presence mask and one column a field. Symbol
      columns hold identifiers: first those of the program, then the batch's own. */
  datatype Batch = Batch(base: nat, rows: nat, presence: seq<V.Plane>, columns: seq<V.Column>, symbols: seq<Bytes>)

  function ShardAt(b: Batch, f: FieldId): V.Shard
    requires 1 <= f <= |b.presence| == |b.columns|
  {
    V.Shard(b.base, b.rows, b.presence[f - 1], b.columns[f - 1])
  }

  predicate PresentIn(s: V.Shard, r: nat)
    requires V.ShardOk(s) && r < s.rows
  {
    V.PresentAt(s, r / 64, r % 64)
  }

  ghost predicate ColumnOk(s: V.Shard, kind: Kind, symbols: seq<Bytes>) {
    && V.ShardOk(s)
    && (kind == BooleanKind || kind == PresenceKind <==> s.column.Flags?)
    && (kind == SymbolKind ==> forall r :: 0 <= r < s.rows && PresentIn(s, r) ==>
         1 <= s.column.values[s.base + r] <= |symbols|)
  }

  ghost predicate BatchOk(b: Batch, c: Canonical, kinds: seq<Kind>) {
    && |b.presence| == |b.columns| == |kinds|
    && c.symbols <= b.symbols && Distinct(b.symbols)
    && forall f :: 1 <= f <= |kinds| ==> ColumnOk(ShardAt(b, f), kinds[f - 1], b.symbols)
  }

  /** What a present row of a column says. */
  ghost function ValueIn(s: V.Shard, kind: Kind, symbols: seq<Bytes>, r: nat): Fact
    requires ColumnOk(s, kind, symbols) && r < s.rows && PresentIn(s, r)
  {
    match kind
    case SymbolKind => Known(Symbol(symbols[s.column.values[s.base + r] - 1]))
    case IntegerKind => Known(Integer(s.column.values[s.base + r]))
    case TimestampKind => Known(Timestamp(s.column.values[s.base + r]))
    case BooleanKind => Known(Bool(V.FlagAt(s, r / 64, r % 64)))
    case PresenceKind => Present
  }

  ghost function FactIn(s: V.Shard, kind: Kind, symbols: seq<Bytes>, r: nat): Fact
    requires ColumnOk(s, kind, symbols) && r < s.rows
  {
    if PresentIn(s, r) then ValueIn(s, kind, symbols, r) else Absent
  }

  /** The facts of row r of a batch. */
  ghost function FactsAt(b: Batch, c: Canonical, kinds: seq<Kind>, r: nat): FactRow
    requires BatchOk(b, c, kinds) && r < b.rows
  {
    f => if 1 <= f <= |kinds| then FactIn(ShardAt(b, f), kinds[f - 1], b.symbols, r) else Absent
  }

  // ----- bits and atoms -----

  lemma RowInShard(s: V.Shard, r: nat)
    requires V.ShardOk(s) && r < s.rows
    ensures V.InShard(s, r / 64, r % 64) && r / 64 < V.Bitsets.WordCount(s.rows)
    ensures s.column.Scalars? ==> V.ValueAt(s, r / 64, r % 64) == s.column.values[s.base + r]
  {
  }

  lemma TestWellTyped(c: Canonical, kind: Kind, p: Payload, s: V.Shard, symbols: seq<Bytes>)
    requires PredicateTyped(c, kind, p) && IsPredicate(p.opcode) && ColumnOk(s, kind, symbols)
    ensures V.WellTyped(TestOf(c, kind, p), s.column)
  {
    hide KeyKind, KeyFor;
    if p.opcode != EXISTS && p.opcode != DEFINED && p.opcode != IN {
      NotPresence(c, p.value, kind);
    }
  }

  lemma NotPresence(c: Canonical, id: nat, kind: Kind)
    requires KeyKind(c, id, kind)
    ensures kind != PresenceKind
  {
  }

  /** Two symbols of a duplicate-free table are equal iff their identifiers are. */
  lemma SymbolsApart(symbols: seq<Bytes>, i: nat, j: nat)
    requires Distinct(symbols) && 1 <= i <= |symbols| && 1 <= j <= |symbols|
    ensures symbols[i - 1] == symbols[j - 1] <==> i == j
  {
  }

  /** A column entry equals a constant iff the values they stand for are equal. */
  lemma EntryEquals(s: V.Shard, kind: Kind, symbols: seq<Bytes>, c: Canonical, id: nat, r: nat)
    requires ColumnOk(s, kind, symbols) && r < s.rows && PresentIn(s, r) && kind != PresenceKind
    requires c.symbols <= symbols && Distinct(symbols) && KeyKind(c, id, kind)
    ensures ValueIn(s, kind, symbols, r).Known?
    ensures kind != BooleanKind ==>
              (s.column.values[s.base + r] == Number(KeyFor(c, id)) <==>
               ValueIn(s, kind, symbols, r).literal == LiteralOf(c, id))
    ensures kind == BooleanKind ==>
              (V.FlagAt(s, r / 64, r % 64) == Flag(KeyFor(c, id)) <==>
               ValueIn(s, kind, symbols, r).literal == LiteralOf(c, id))
  {
    if kind == SymbolKind {
      var key := c.values[id - 1];
      assert symbols[key.id - 1] == c.symbols[key.id - 1];
      SymbolsApart(symbols, s.column.values[s.base + r], key.id);
    }
  }

  lemma EntryInOrder(s: V.Shard, kind: Kind, symbols: seq<Bytes>, c: Canonical, id: nat, r: nat, op: nat)
    requires ColumnOk(s, kind, symbols) && r < s.rows && PresentIn(s, r) && OrderedKind(kind) && OrderedOp(op)
    requires KeyKind(c, id, kind)
    ensures V.CompareValues(op, s.column.values[s.base + r], Number(KeyFor(c, id))) <==>
            CompareLiterals(op, ValueIn(s, kind, symbols, r).literal, LiteralOf(c, id))
  {
  }

  /** The test holds of a present entry iff the comparison holds of its value. */
  lemma TestMeans(c: Canonical, kind: Kind, p: Payload, s: V.Shard, symbols: seq<Bytes>, r: nat)
    requires PredicateTyped(c, kind, p) && IsPredicate(p.opcode) && p.opcode != EXISTS && p.opcode != DEFINED
    requires ColumnOk(s, kind, symbols) && r < s.rows && PresentIn(s, r) && c.symbols <= symbols && Distinct(symbols)
    ensures V.WellTyped(TestOf(c, kind, p), s.column) && V.InShard(s, r / 64, r % 64)
    ensures var fact, atom := ValueIn(s, kind, symbols, r), AtomAt(c, p);
            && fact.Known?
            && (V.MatchesAt(s, TestOf(c, kind, p), r / 64, r % 64) <==>
                Holds(atom.op, fact.literal, atom.operand, atom.list))
  {
    RowInShard(s, r);
    TestWellTyped(c, kind, p, s, symbols);
    if p.opcode == IN {
      MemberMeans(c, kind, p, s, symbols, r);
    } else {
      NotPresence(c, p.value, kind);
      CompareMeans(c, kind, p, s, symbols, r);
    }
  }

  lemma CompareMeans(c: Canonical, kind: Kind, p: Payload, s: V.Shard, symbols: seq<Bytes>, r: nat)
    requires PredicateTyped(c, kind, p) && IsPredicate(p.opcode) && p.opcode != EXISTS && p.opcode != DEFINED
    requires p.opcode != IN
    requires ColumnOk(s, kind, symbols) && r < s.rows && PresentIn(s, r) && c.symbols <= symbols && Distinct(symbols)
    requires kind != PresenceKind && V.WellTyped(TestOf(c, kind, p), s.column) && V.InShard(s, r / 64, r % 64)
    ensures ValueIn(s, kind, symbols, r).Known?
    ensures V.MatchesAt(s, TestOf(c, kind, p), r / 64, r % 64) <==>
            CompareLiterals(p.opcode, ValueIn(s, kind, symbols, r).literal, LiteralOf(c, p.value))
    ensures p.value != 0
  {
    RowInShard(s, r);
    EntryEquals(s, kind, symbols, c, p.value, r);
    if OrderedOp(p.opcode) {
      EntryInOrder(s, kind, symbols, c, p.value, r, p.opcode);
    }
    ValueIsKind(s, kind, symbols, r);
    hide ColumnOk, PresentIn, ValueIn, LiteralOf, KeyFor, V.FlagAt, V.ValueAt, V.InShard, V.ShardOk;
  }

  lemma ValueIsKind(s: V.Shard, kind: Kind, symbols: seq<Bytes>, r: nat)
    requires ColumnOk(s, kind, symbols) && r < s.rows && PresentIn(s, r) && kind != PresenceKind
    ensures KindOf(ValueIn(s, kind, symbols, r).literal) == kind
  {
  }

  lemma MemberMeans(c: Canonical, kind: Kind, p: Payload, s: V.Shard, symbols: seq<Bytes>, r: nat)
    requires PredicateTyped(c, kind, p) && p.opcode == IN
    requires ColumnOk(s, kind, symbols) && r < s.rows && PresentIn(s, r) && c.symbols <= symbols && Distinct(symbols)
    requires V.WellTyped(TestOf(c, kind, p), s.column) && V.InShard(s, r / 64, r % 64)
    ensures ValueIn(s, kind, symbols, r).Known?
    ensures V.MatchesAt(s, TestOf(c, kind, p), r / 64, r % 64) <==>
            ValueIn(s, kind, symbols, r).literal in AtomAt(c, p).list
  {
    RowInShard(s, r);
    forall k | 0 <= k < |p.list|
      ensures ValueIn(s, kind, symbols, r).Known?
      ensures kind != BooleanKind ==>
                (s.column.values[s.base + r] == Number(KeyFor(c, p.list[k])) <==>
                 ValueIn(s, kind, symbols, r).literal == LiteralOf(c, p.list[k]))
      ensures kind == BooleanKind ==>
                (V.FlagAt(s, r / 64, r % 64) == Flag(KeyFor(c, p.list[k])) <==>
                 ValueIn(s, kind, symbols, r).literal == LiteralOf(c, p.list[k]))
    {
      EntryEquals(s, kind, symbols, c, p.list[k], r);
    }
    assert ValueIn(s, kind, symbols, r).Known? by { assert KeyKind(c, p.list[0], kind); }
    var literals, value := AtomAt(c, p).list, ValueIn(s, kind, symbols, r).literal;
    hide ColumnOk, PresentIn, ValueIn, LiteralOf, KeyFor, V.FlagAt, V.ValueAt, V.InShard, V.ShardOk, KeyKind;
    assert forall k :: 0 <= k < |p.list| ==> literals[k] == LiteralOf(c, p.list[k]);
    if kind == BooleanKind {
      var flags := TestOf(c, kind, p).flags;
      assert forall k :: 0 <= k < |p.list| ==> flags[k] == Flag(KeyFor(c, p.list[k]));
    } else {
      var numbers := TestOf(c, kind, p).values;
      assert forall k :: 0 <= k < |p.list| ==> numbers[k] == Number(KeyFor(c, p.list[k]));
    }
  }

  /** The bits of row r. */
  function CellAt(planes: V.Planes, r: nat): Cell {
    var w, k := r / 64, r % 64;
    if w < |planes.positive| == |planes.negative| == |planes.missing| then
      Cell(planes.positive[w][k], planes.negative[w][k], if planes.missing[w][k] then {MISSING} else {})
    else Cell(false, false, {})
  }

  /** The reference planes of a predicate row are the truth of its atom, row by row. */
  lemma LeafBits(b: Batch, c: Canonical, kinds: seq<Kind>, p: Payload, planes: V.Planes, r: nat, evidence: Atom -> Cell)
    requires BatchOk(b, c, kinds) && PayloadTyped(c, kinds, p) && IsPredicate(p.opcode) && r < b.rows
    requires V.WellTyped(TestOf(c, kinds[p.field - 1], p), ShardAt(b, p.field).column)
    requires V.PlanesOk(ShardAt(b, p.field), TestOf(c, kinds[p.field - 1], p), planes)
    ensures CellAt(planes, r) == FactTruth(FactsAt(b, c, kinds, r), evidence)(AtomAt(c, p))
  {
    var s, kind := ShardAt(b, p.field), kinds[p.field - 1];
    assert ColumnOk(s, kind, b.symbols);
    RowInShard(s, r);
    var w, k, test := r / 64, r % 64, TestOf(c, kind, p);
    assert V.WordOk(s, test, planes.positive[w], planes.negative[w], planes.missing[w], w);
    assert V.BitsOk(s, test, planes.positive[w][k], planes.negative[w][k], planes.missing[w][k], w, k);
    if p.opcode != EXISTS && p.opcode != DEFINED && PresentIn(s, r) {
      TestMeans(c, kind, p, s, b.symbols, r);
    }
    AtomIs(c, p);
    assert FactsAt(b, c, kinds, r)(p.field) == FactIn(s, kind, b.symbols, r);
    ValueIsThere(s, kind, b.symbols, r);
    TestShape(c, kind, p);
    hide ColumnOk, BatchOk, ValueIn, LiteralOf, KeyFor, V.MatchesAt, V.ShardOk, V.InShard, V.PlanesOk, V.WordOk,
         V.WellTyped,
         PredicateTyped, TestOf, AtomAt, Holds, FactsAt;
  }

  lemma AtomIs(c: Canonical, p: Payload)
    requires IsPredicate(p.opcode)
    ensures AtomAt(c, p).CompareAtom? && AtomAt(c, p).field == p.field && AtomAt(c, p).op == CompareOperation(p.opcode)
  {
  }

  lemma ValueIsThere(s: V.Shard, kind: Kind, symbols: seq<Bytes>, r: nat)
    requires ColumnOk(s, kind, symbols) && r < s.rows
    ensures FactIn(s, kind, symbols, r).Absent? <==> !PresentIn(s, r)
  {
  }

  lemma TestShape(c: Canonical, kind: Kind, p: Payload)
    ensures p.opcode == EXISTS ==> TestOf(c, kind, p) == V.Exists
    ensures p.opcode == DEFINED <==> TestOf(c, kind, p) == V.Defined
  {
  }
}
