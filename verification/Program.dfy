/** Instruction programs: rows of payload columns plus a range into one shared
    operand slab. Operands are one-based InstructionIDs. */
module Programs {
  import opened Truth

  type Opcode = nat
  type InstructionId = nat

  const EQUAL: Opcode := 1
  const NOT_EQUAL: Opcode := 2
  const IN: Opcode := 3
  const EXISTS: Opcode := 4
  const LESS: Opcode := 5
  const GREATER_EQUAL: Opcode := 8
  const EVIDENCE: Opcode := 9
  const ALL: Opcode := 10
  const ANY: Opcode := 11
  const NOT: Opcode := 12
  const BOOLEAN: Opcode := 13
  const DEFINED: Opcode := 14

  const MAX_UINT16: nat := 0xFFFF
  const MAX_UINT32: nat := 0xFFFF_FFFF

  predicate ValidOpcode(op: Opcode) {
    EQUAL <= op <= DEFINED
  }

  predicate IsGroup(op: Opcode) {
    op == ALL || op == ANY
  }

  /** Opcodes whose row reads operands. */
  predicate IsConnective(op: Opcode) {
    IsGroup(op) || op == NOT
  }

  /** Everything a row holds besides its operand range. Values and symbols are
      canonical one-based identifiers; 0 means absent. */
  datatype Payload = Payload(
    opcode: Opcode,
    field: nat,
    value: nat,
    list: seq<nat>,
    evidenceKind: nat,
    evidenceState: nat,
    subject: nat,
    scope: nat,
    timing: nat)

  datatype Row = Row(payload: Payload, start: nat, count: nat)

  datatype Program = Program(rows: seq<Row>, operands: seq<InstructionId>)

  /** A slice of a slab; an impossible range is empty. */
  function Range(slab: seq<nat>, start: nat, count: nat): seq<nat> {
    if start + count <= |slab| then slab[start..start + count] else []
  }

  function Ops(p: Program, i: nat): seq<InstructionId>
    requires i < |p.rows|
  {
    Range(p.operands, p.rows[i].start, p.rows[i].count)
  }

  function OpcodeAt(p: Program, i: nat): Opcode
    requires i < |p.rows|
  {
    p.rows[i].payload.opcode
  }

  /** Row i's operand range fits the slab and names rows before it. */
  predicate OperandsPrecede(p: Program, i: nat)
    requires i < |p.rows|
  {
    && p.rows[i].start + p.rows[i].count <= |p.operands|
    && forall k :: 0 <= k < |Ops(p, i)| ==> 1 <= Ops(p, i)[k] <= i
  }

  predicate Ordered(p: Program) {
    forall i :: 0 <= i < |p.rows| ==> OperandsPrecede(p, i)
  }

  /** Row i reads only rows before it, and as many as its opcode calls for. */
  predicate RowOk(p: Program, i: nat)
    requires i < |p.rows|
  {
    && ValidOpcode(OpcodeAt(p, i))
    && OperandsPrecede(p, i)
    && (OpcodeAt(p, i) == NOT ==> |Ops(p, i)| == 1)
    && (IsGroup(OpcodeAt(p, i)) ==> |Ops(p, i)| >= 1)
    && (!IsConnective(OpcodeAt(p, i)) ==> |Ops(p, i)| == 0)
  }

  predicate Topological(p: Program) {
    forall i :: 0 <= i < |p.rows| ==> RowOk(p, i)
  }

  lemma TopologicalIsOrdered(p: Program)
    requires Topological(p)
    ensures Ordered(p)
  {
    forall i | 0 <= i < |p.rows|
      ensures OperandsPrecede(p, i)
    {
      assert RowOk(p, i);
    }
  }

  /** What a row computes from its operands, with leaves given by `leaf`. */
  function Combine(payload: Payload, operands: seq<Cell>, leaf: Payload -> Cell): Cell {
    if IsGroup(payload.opcode) then GroupOf(payload.opcode == ALL, operands)
    else if payload.opcode == NOT && |operands| == 1 then Not(operands[0])
    else leaf(payload)
  }

  /** The value of row i when every earlier value is retained. */
  function Value(p: Program, leaf: Payload -> Cell, i: nat): Cell
    requires Topological(p) && i < |p.rows|
    decreases i
  {
    assert RowOk(p, i);
    Combine(p.rows[i].payload, seq(|Ops(p, i)|, k requires 0 <= k < |Ops(p, i)| => Value(p, leaf, Ops(p, i)[k] - 1)),
            leaf)
  }

  /** The values a list of operands refers to. */
  function Values(p: Program, leaf: Payload -> Cell, ids: seq<InstructionId>): seq<Cell>
    requires Topological(p) && forall k :: 0 <= k < |ids| ==> 1 <= ids[k] <= |p.rows|
  {
    seq(|ids|, k requires 0 <= k < |ids| => Value(p, leaf, ids[k] - 1))
  }

  function AllValues(p: Program, leaf: Payload -> Cell): seq<Cell>
    requires Topological(p)
  {
    seq(|p.rows|, i requires 0 <= i < |p.rows| => Value(p, leaf, i))
  }

  lemma ValueUnfold(p: Program, leaf: Payload -> Cell, i: nat)
    requires Topological(p) && i < |p.rows|
    ensures RowOk(p, i) && Value(p, leaf, i) == Combine(p.rows[i].payload, Values(p, leaf, Ops(p, i)), leaf)
  {
    assert RowOk(p, i);
    assert Values(p, leaf, Ops(p, i)) ==
      seq(|Ops(p, i)|, k requires 0 <= k < |Ops(p, i)| => Value(p, leaf, Ops(p, i)[k] - 1));
  }

  ghost predicate AgreeOnLeaves(p: Program, leaf: Payload -> Cell, leaf': Payload -> Cell) {
    forall j :: 0 <= j < |p.rows| && !IsConnective(OpcodeAt(p, j)) ==>
      leaf(p.rows[j].payload) == leaf'(p.rows[j].payload)
  }

  /** Leaves that agree on the leaf rows of a program give every row the same value. */
  lemma {:induction false} AgreeingLeaves(p: Program, leaf: Payload -> Cell, leaf': Payload -> Cell, i: nat)
    requires Topological(p) && i < |p.rows|
    requires AgreeOnLeaves(p, leaf, leaf')
    ensures Value(p, leaf, i) == Value(p, leaf', i)
    decreases i
  {
    hide Value, Ops;
    ValueUnfold(p, leaf, i);
    ValueUnfold(p, leaf', i);
    assert Values(p, leaf, Ops(p, i)) == Values(p, leaf', Ops(p, i)) by {
      forall k | 0 <= k < |Ops(p, i)|
        ensures Value(p, leaf, Ops(p, i)[k] - 1) == Value(p, leaf', Ops(p, i)[k] - 1)
      {
        AgreeingLeaves(p, leaf, leaf', Ops(p, i)[k] - 1);
      }
    }
  }

  /** Row j of q is row source[j] of p with its operands renamed along `source`. */
  predicate Matches(q: Program, p: Program, source: seq<nat>, j: nat)
    requires |source| == |q.rows| && j < |q.rows|
  {
    && source[j] < |p.rows|
    && q.rows[j].payload == p.rows[source[j]].payload
    && |Ops(q, j)| == |Ops(p, source[j])|
    && forall k :: 0 <= k < |Ops(q, j)| ==>
         1 <= Ops(q, j)[k] <= |q.rows| && source[Ops(q, j)[k] - 1] + 1 == Ops(p, source[j])[k]
  }

  predicate Simulates(q: Program, p: Program, source: seq<nat>) {
    |source| == |q.rows| && forall j :: 0 <= j < |q.rows| ==> Matches(q, p, source, j)
  }

  /** A program that simulates another computes the same values. */
  lemma {:induction false} SimulationValue(q: Program, p: Program, source: seq<nat>, leaf: Payload -> Cell, j: nat)
    requires Topological(q) && Topological(p) && Simulates(q, p, source) && j < |q.rows|
    ensures source[j] < |p.rows| && Value(q, leaf, j) == Value(p, leaf, source[j])
    decreases j
  {
    hide Value, Combine, Ops;
    assert Matches(q, p, source, j);
    var i := source[j];
    ValueUnfold(q, leaf, j);
    ValueUnfold(p, leaf, i);
    assert Values(q, leaf, Ops(q, j)) == Values(p, leaf, Ops(p, i)) by {
      forall k | 0 <= k < |Ops(q, j)|
        ensures Value(q, leaf, Ops(q, j)[k] - 1) == Value(p, leaf, Ops(p, i)[k] - 1)
      {
        SimulationValue(q, p, source, leaf, Ops(q, j)[k] - 1);
      }
    }
  }
}
