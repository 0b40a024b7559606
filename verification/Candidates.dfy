/** Instruction candidates: what each source node becomes, and the columns that
    hold the result of lowering. */
module Candidates {
  import opened Optional
  import opened Truth
  import opened Documents
  import opened Meanings
  import opened Programs
  import opened Constants

  datatype Role = Applicability | Assertion | EvidenceRole

  const EMPTY_PAYLOAD := Payload(0, 0, 0, [], 0, 0, 0, 0, 0)

  function Bare(opcode: Opcode): Payload {
    EMPTY_PAYLOAD.(opcode := opcode)
  }

  /** Comparison operations keep their number, except Defined. */
  function CompareOpcode(op: nat): Opcode {
    if op == COMPARE_DEFINED then DEFINED else op
  }

  function CompareOperation(opcode: Opcode): nat {
    if opcode == DEFINED then COMPARE_DEFINED else opcode
  }

  function CanonicalValue(c: Canonical, id: ValueId): nat {
    if 1 <= id <= |c.valueRemap| then c.valueRemap[id - 1] else 0
  }

  function CanonicalSymbol(c: Canonical, id: ValueId): nat {
    if 1 <= id <= |c.symbolRemap| then c.symbolRemap[id - 1] else 0
  }

  /** The payload of a leaf instruction. */
  function LeafPayload(c: Canonical, node: Node): Payload {
    match node
    case Boolean(value) => Bare(BOOLEAN).(value := CanonicalValue(c, value))
    case Compare(field, op, operand, list) =>
      if op == COMPARE_IN then
        Bare(IN).(field := field, list := seq(|list|, k requires 0 <= k < |list| => CanonicalValue(c, list[k])))
      else
        Bare(CompareOpcode(op)).(field := field, value := if operand == 0 then 0 else CanonicalValue(c, operand))
    case Evidence(kind, state, subject, scope, timing) =>
      Bare(EVIDENCE).(evidenceKind := kind, evidenceState := state, subject := CanonicalSymbol(c, subject),
                      scope := CanonicalSymbol(c, scope), timing := CanonicalSymbol(c, timing))
    case _ => EMPTY_PAYLOAD
  }

  function LiteralOf(c: Canonical, id: nat): Literal {
    if 1 <= id <= |c.values| && KeyOk(c.values[id - 1], c.symbols) then Spelled(c.values[id - 1], c.symbols)
    else Integer(0)
  }

  function SymbolOf(c: Canonical, id: nat): Option<seq<nat>> {
    if 1 <= id <= |c.symbols| then Some(c.symbols[id - 1]) else None
  }

  /** The atom an instruction row tests, read back through the canonical spaces. */
  function AtomAt(c: Canonical, payload: Payload): Atom {
    if payload.opcode == BOOLEAN then BooleanAtom(LiteralOf(c, payload.value))
    else if payload.opcode == EVIDENCE then
      EvidenceAtom(payload.evidenceKind, payload.evidenceState, SymbolOf(c, payload.subject),
                   SymbolOf(c, payload.scope), SymbolOf(c, payload.timing))
    else
      CompareAtom(payload.field, CompareOperation(payload.opcode),
                  if payload.value == 0 then None else Some(LiteralOf(c, payload.value)),
                  seq(|payload.list|, k requires 0 <= k < |payload.list| => LiteralOf(c, payload.list[k])))
  }

  lemma CanonicalLiteral(c: Canonical, names: seq<Bytes>, doc: Document, id: ValueId)
    requires CanonicalOk(c, names, doc.literals) && IsValue(doc, id)
    ensures CanonicalValue(c, id) != 0 && LiteralOf(c, CanonicalValue(c, id)) == LiteralAt(doc, id)
    ensures doc.literals[id - 1].Symbol? ==> SymbolOf(c, CanonicalSymbol(c, id)) == Some(doc.literals[id - 1].bytes)
  {
    assert Remaps(c.symbols, c.values, doc.literals[id - 1], c.valueRemap[id - 1], c.symbolRemap[id - 1]);
  }

  /** Reading a lowered leaf back gives the atom it came from. */
  lemma AtomRoundTrip(c: Canonical, names: seq<Bytes>, doc: Document, node: Node)
    requires CanonicalOk(c, names, doc.literals) && IsLeaf(node) && LeafOk(doc, node)
    ensures AtomAt(c, LeafPayload(c, node)) == AtomOf(doc, node)
  {
    forall id | IsValue(doc, id)
      ensures CanonicalValue(c, id) != 0 && LiteralOf(c, CanonicalValue(c, id)) == LiteralAt(doc, id)
      ensures doc.literals[id - 1].Symbol? ==> SymbolOf(c, CanonicalSymbol(c, id)) == Some(doc.literals[id - 1].bytes)
    {
      CanonicalLiteral(c, names, doc, id);
    }
    hide CanonicalOk, CanonicalValue, LiteralOf;
  }

  lemma LeafOpcode(c: Canonical, doc: Document, node: Node)
    requires IsLeaf(node) && LeafOk(doc, node)
    ensures ValidOpcode(LeafPayload(c, node).opcode) && !IsConnective(LeafPayload(c, node).opcode)
  {
  }

  /** What makes two candidates equal. */
  datatype Key = Key(payload: Payload, operands: seq<InstructionId>)

  function KeyAt(p: Program, i: nat): Key
    requires i < |p.rows|
  {
    Key(p.rows[i].payload, Ops(p, i))
  }

  function Keys(p: Program): seq<Key> {
    seq(|p.rows|, i requires 0 <= i < |p.rows| => KeyAt(p, i))
  }

  /** The columns of a lowering in progress: per source node its instruction and
      its flattened operand range, and per instruction its row and root flags. */
  datatype Columns = Columns(
    canon: seq<InstructionId>,
    flatStart: seq<nat>,
    flatCount: seq<nat>,
    program: Program,
    flags: seq<set<Role>>,
    slots: seq<nat>)

  function CanonAt(e: Columns, u: NodeId): InstructionId {
    if 1 <= u <= |e.canon| then e.canon[u - 1] else 0
  }

  function CanonAll(e: Columns, ids: seq<NodeId>): seq<InstructionId> {
    seq(|ids|, k requires 0 <= k < |ids| => CanonAt(e, ids[k]))
  }

  function FlatRange(e: Columns, u: NodeId): seq<InstructionId> {
    if 1 <= u <= |e.flatStart| && u <= |e.flatCount| then
      Range(e.program.operands, e.flatStart[u - 1], e.flatCount[u - 1])
    else []
  }

  ghost predicate Shaped(doc: Document, e: Columns) {
    && |e.canon| == |e.flatStart| == |e.flatCount| == |doc.nodes|
    && |e.flags| == |e.program.rows|
    && Topological(e.program)
  }

  /** The key of the instruction a node lowers to. */
  ghost function KeyOf(doc: Document, c: Canonical, e: Columns, u: NodeId): Key
    requires Clean(doc) && 1 <= u <= |doc.nodes|
  {
    match doc.nodes[u - 1]
    case Group(conjunction, _) => Key(Bare(if conjunction then ALL else ANY), CanonAll(e, Flat(doc, u)))
    case Negation(child) => Key(Bare(NOT), [CanonAt(e, child)])
    case leaf => Key(LeafPayload(c, leaf), [])
  }

  /** Node u has been lowered: its row is its key, and a group's flattened
      operands are kept for its parents. */
  ghost predicate NodeDone(doc: Document, c: Canonical, e: Columns, u: NodeId)
    requires Clean(doc) && 1 <= u <= |doc.nodes|
  {
    && 1 <= CanonAt(e, u) <= |e.program.rows|
    && KeyAt(e.program, CanonAt(e, u) - 1) == KeyOf(doc, c, e, u)
    && (doc.nodes[u - 1].Group? ==> FlatRange(e, u) == KeyOf(doc, c, e, u).operands)
  }

  ghost predicate LoweredNodes(doc: Document, c: Canonical, e: Columns)
    requires Clean(doc)
  {
    forall v :: 1 <= v <= |doc.nodes| && CanonAt(e, v) != 0 ==> NodeDone(doc, c, e, v)
  }

  function LeafTruth(c: Canonical, truth: Atom -> Cell): Payload -> Cell {
    p => truth(AtomAt(c, p))
  }

  /** Lowering preserves meaning: the instruction of a lowered node computes the
      meaning of the node, for every truth of the atoms. */
  lemma {:induction false} LoweringPreservesMeaning(doc: Document, names: seq<Bytes>, c: Canonical, e: Columns,
                                                    truth: Atom -> Cell, u: NodeId)
    requires Clean(doc) && CanonicalOk(c, names, doc.literals) && Shaped(doc, e) && LoweredNodes(doc, c, e)
    requires 1 <= u <= |doc.nodes| && CanonAt(e, u) != 0
    ensures CanonAt(e, u) <= |e.program.rows|
    ensures Value(e.program, LeafTruth(c, truth), CanonAt(e, u) - 1) == Meaning(doc, truth, u)
    decreases Rank(doc, u), 1
  {
    hide Rank, Meaning, Value, GroupOf, AtomAt, AtomOf, LeafPayload, Flattened, CanonicalOk, Ops, CanonAt;
    assert NodeDone(doc, c, e, u);
    ValueUnfold(e.program, LeafTruth(c, truth), CanonAt(e, u) - 1);
    MeaningUnfold(doc, truth, u);
    if doc.nodes[u - 1].Group? {
      FlattenedBelow(doc, u, |Out(doc, u)|);
      OperandsMean(doc, names, c, e, truth, u, Flat(doc, u));
      FlatteningPreservesMeaning(doc, truth, u, |Out(doc, u)|);
      assert Out(doc, u)[..|Out(doc, u)|] == Out(doc, u);
    } else if doc.nodes[u - 1].Negation? {
      var child := doc.nodes[u - 1].child;
      TargetsDescend(doc, u, 0);
      OperandsMean(doc, names, c, e, truth, u, [child]);
      assert CanonAll(e, [child]) == [CanonAt(e, child)];
      assert MeaningOf(doc, truth, [child]) == [Meaning(doc, truth, child)];
    } else {
      AtomRoundTrip(c, names, doc, doc.nodes[u - 1]);
      LeafOpcode(c, doc, doc.nodes[u - 1]);
      MeaningLeaf(doc, truth, u);
    }
  }

  lemma {:induction false} OperandsMean(doc: Document, names: seq<Bytes>, c: Canonical, e: Columns,
                                        truth: Atom -> Cell, u: NodeId, ids: seq<NodeId>)
    requires Clean(doc) && CanonicalOk(c, names, doc.literals) && Shaped(doc, e) && LoweredNodes(doc, c, e)
    requires 1 <= u <= |doc.nodes|
    requires forall k :: 0 <= k < |ids| ==> 1 <= ids[k] <= |doc.nodes| && Rank(doc, ids[k]) < Rank(doc, u)
    requires forall k :: 0 <= k < |ids| ==> 1 <= CanonAll(e, ids)[k] <= |e.program.rows|
    ensures InRange(doc, ids)
    ensures Values(e.program, LeafTruth(c, truth), CanonAll(e, ids)) == MeaningOf(doc, truth, ids)
    decreases Rank(doc, u), 0
  {
    hide Rank, Meaning, Value, LoweredNodes, CanonicalOk, LeafTruth, CanonAt;
    assert forall k :: 0 <= k < |ids| ==> CanonAll(e, ids)[k] == CanonAt(e, ids[k]);
    forall k | 0 <= k < |ids|
      ensures Value(e.program, LeafTruth(c, truth), CanonAt(e, ids[k]) - 1) == Meaning(doc, truth, ids[k])
    {
      LoweringPreservesMeaning(doc, names, c, e, truth, ids[k]);
    }
  }
}
