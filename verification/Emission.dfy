/** Emitting one instruction: the operand range of a node is appended to the slab
    and the candidate is interned by structure, so equal candidates share a row. */
module Emission {
  import opened Documents
  import opened Meanings
  import opened Programs
  import opened Constants
  import opened OpenAddress
  import opened Candidates

  /** Node u has no width overflow. */
  ghost predicate NodeFits(doc: Document, u: NodeId)
    requires Clean(doc) && 1 <= u <= |doc.nodes|
  {
    match doc.nodes[u - 1]
    case Group(_, _) => |Flat(doc, u)| <= MAX_UINT16
    case Compare(_, op, _, list) => op == COMPARE_IN ==> |list| <= MAX_UINT16
    case _ => true
  }

  /** How many operands node u appends to the slab. */
  ghost function SlabNeed(doc: Document, u: NodeId): nat
    requires Clean(doc) && 1 <= u <= |doc.nodes|
  {
    match doc.nodes[u - 1]
    case Group(_, _) => |Flat(doc, u)|
    case Negation(_) => 1
    case _ => 0
  }

  /** Every child of u is lowered. */
  ghost predicate ChildrenDone(doc: Document, c: Canonical, e: Columns, u: NodeId)
    requires Clean(doc)
  {
    forall k :: 0 <= k < |Out(doc, u)| ==> Readable(doc, Out(doc, u)[k]) && NodeDone(doc, c, e, Out(doc, u)[k])
  }

  lemma {:induction false} FlattenedMonotone(doc: Document, u: NodeId, m: nat, n: nat)
    requires Clean(doc) && 1 <= u <= |doc.nodes| && doc.nodes[u - 1].Group? && m <= n <= |Out(doc, u)|
    ensures |Flattened(doc, u, m)| <= |Flattened(doc, u, n)|
    decreases n
  {
    hide Piece;
    if m < n {
      FlattenedMonotone(doc, u, m, n - 1);
    }
  }

  lemma CanonConcat(e: Columns, xs: seq<NodeId>, ys: seq<NodeId>)
    ensures CanonAll(e, xs + ys) == CanonAll(e, xs) + CanonAll(e, ys)
    ensures |CanonAll(e, xs)| == |xs|
  {
  }

  lemma CanonNone(e: Columns)
    ensures CanonAll(e, []) == []
  {
  }

  lemma Associate(a: seq<nat>, b: seq<nat>, c: seq<nat>)
    ensures (a + b) + c == a + (b + c)
  {
  }

  /** The operands that child k adds: the kept range of a merging child, or the
      child's own instruction. */
  lemma PieceOperands(doc: Document, c: Canonical, e: Columns, u: NodeId, k: nat)
    requires Clean(doc) && 1 <= u <= |doc.nodes| && doc.nodes[u - 1].Group? && k < |Out(doc, u)|
    requires ChildrenDone(doc, c, e, u)
    ensures var child := Out(doc, u)[k];
            Readable(doc, child) && CanonAll(e, Piece(doc, u, k)) ==
              if Merges(doc, doc.nodes[u - 1].conjunction, child) then FlatRange(e, child) else [CanonAt(e, child)]
    ensures Piece(doc, u, k) != [] && CanonAt(e, Out(doc, u)[k]) != 0
  {
    hide FlatRange, CanonAt, KeyAt, Rank;
    var child := Out(doc, u)[k];
    assert NodeDone(doc, c, e, child) && NodeClean(doc, child);
    if Merges(doc, doc.nodes[u - 1].conjunction, child) {
      FlattenedBelow(doc, child, |Out(doc, child)|);
    } else {
      assert CanonAll(e, [child]) == [CanonAt(e, child)];
    }
  }

  /** The operands child k adds to its group. The range of a child of the same
      kind is read back from the slab. */
  method ChildOperands(doc: Document, ghost c: Canonical, e: Columns, u: NodeId, k: nat, slab: seq<InstructionId>)
    returns (ok: bool, piece: seq<InstructionId>)
    requires Clean(doc) && 1 <= u <= |doc.nodes| && doc.nodes[u - 1].Group? && ChildrenDone(doc, c, e, u)
    requires |e.canon| == |e.flatStart| == |e.flatCount| == |doc.nodes|
    requires k < |Out(doc, u)| && e.program.operands <= slab
    ensures ok && piece == CanonAll(e, Piece(doc, u, k)) && |piece| == |Piece(doc, u, k)|
  {
    hide Clean, Flattened, Piece, ChildrenDone;
    PieceOperands(doc, c, e, u, k);
    var child := doc.nodes[u - 1].children[k];
    if Merges(doc, doc.nodes[u - 1].conjunction, child) {
      var start, width := e.flatStart[child - 1], e.flatCount[child - 1];
      ok := width > 0 && start + width <= |slab|;
      piece := if ok then slab[start..start + width] else [];
    } else {
      ok := e.canon[child - 1] != 0;
      piece := [e.canon[child - 1]];
    }
  }

  /** Append the flattened operands of a group. */
  method AppendGroupOperands(doc: Document, ghost c: Canonical, e: Columns, u: NodeId)
    returns (status: Status, operands: seq<InstructionId>)
    requires Clean(doc) && 1 <= u <= |doc.nodes| && doc.nodes[u - 1].Group? && ChildrenDone(doc, c, e, u)
    requires |e.canon| == |e.flatStart| == |e.flatCount| == |doc.nodes| && |e.program.operands| <= MAX_UINT32
    ensures status == Done || status == TooLarge
    ensures status == Done <==> |Flat(doc, u)| <= MAX_UINT16 && |e.program.operands| + |Flat(doc, u)| <= MAX_UINT32
    ensures status == Done ==> operands == e.program.operands + CanonAll(e, Flat(doc, u))
  {
    FlattenedNone(doc, u);
    hide Clean, Flattened, Piece, ChildrenDone, CanonAll;
    CanonNone(e);
    operands := e.program.operands;
    for k := 0 to |Out(doc, u)|
      invariant operands == e.program.operands + CanonAll(e, Flattened(doc, u, k))
      invariant |Flattened(doc, u, k)| <= MAX_UINT16 && |operands| <= MAX_UINT32
    {
      FlattenedStep(doc, u, k);
      FlattenedMonotone(doc, u, k + 1, |Out(doc, u)|);
      CanonConcat(e, Flattened(doc, u, k), Piece(doc, u, k));
      Associate(e.program.operands, CanonAll(e, Flattened(doc, u, k)), CanonAll(e, Piece(doc, u, k)));
      var ok, piece := ChildOperands(doc, c, e, u, k, operands);
      if !ok {
        return InvalidDocument, operands;
      }
      if |operands| - |e.program.operands| + |piece| > MAX_UINT16 || |operands| + |piece| > MAX_UINT32 {
        return TooLarge, operands;
      }
      operands := operands + piece;
    }
    status := Done;
  }

  lemma FlattenedNone(doc: Document, u: NodeId)
    requires Clean(doc) && 1 <= u <= |doc.nodes| && doc.nodes[u - 1].Group?
    ensures Flattened(doc, u, 0) == []
  {
  }

  lemma FlattenedStep(doc: Document, u: NodeId, k: nat)
    requires Clean(doc) && 1 <= u <= |doc.nodes| && doc.nodes[u - 1].Group? && k < |Out(doc, u)|
    ensures Flattened(doc, u, k + 1) == Flattened(doc, u, k) + Piece(doc, u, k)
  {
  }

  /** The candidate of a node: its payload, and the slab with its operands appended. */
  method Prepare(doc: Document, c: Canonical, e: Columns, u: NodeId)
    returns (status: Status, payload: Payload, operands: seq<InstructionId>)
    requires Clean(doc) && 1 <= u <= |doc.nodes| && ChildrenDone(doc, c, e, u)
    requires |e.canon| == |e.flatStart| == |e.flatCount| == |doc.nodes| && |e.program.operands| <= MAX_UINT32
    ensures status == Done || status == TooLarge
    ensures status == Done <==> NodeFits(doc, u) && |e.program.operands| + SlabNeed(doc, u) <= MAX_UINT32
    ensures status == Done ==>
              payload == KeyOf(doc, c, e, u).payload && operands == e.program.operands + KeyOf(doc, c, e, u).operands
  {
    assert NodeClean(doc, u);
    hide Flat, LeafPayload, CanonAll, NodeDone;
    payload, operands := EMPTY_PAYLOAD, e.program.operands;
    var node := doc.nodes[u - 1];
    if node.Group? {
      payload := Bare(if node.conjunction then ALL else ANY);
      status, operands := AppendGroupOperands(doc, c, e, u);
    } else if node.Negation? {
      assert node.child == Out(doc, u)[0];
      if |operands| + 1 > MAX_UINT32 {
        return TooLarge, payload, operands;
      }
      payload, operands := Bare(NOT), operands + [e.canon[node.child - 1]];
      status := Done;
    } else {
      if node.Compare? && node.op == COMPARE_IN && |node.list| > MAX_UINT16 {
        return TooLarge, payload, operands;
      }
      payload := LeafPayload(c, node);
      status := Done;
    }
  }

  lemma KeyWidth(doc: Document, c: Canonical, e: Columns, u: NodeId)
    requires Clean(doc) && 1 <= u <= |doc.nodes|
    ensures |KeyOf(doc, c, e, u).operands| == SlabNeed(doc, u)
  {
  }

  /** A longer slab leaves every row as it was. */
  lemma SlabGrows(p: Program, operands: seq<InstructionId>)
    requires Topological(p) && p.operands <= operands
    ensures var q := Program(p.rows, operands); Topological(q) && Keys(q) == Keys(p)
  {
    var q := Program(p.rows, operands);
    forall i | 0 <= i < |p.rows|
      ensures RowOk(q, i) && KeyAt(q, i) == KeyAt(p, i)
    {
      assert RowOk(p, i);
      assert Ops(q, i) == Ops(p, i);
    }
  }

  lemma RowGrows(p: Program, row: Row)
    requires Topological(p)
    requires RowOk(Program(p.rows + [row], p.operands), |p.rows|)
    ensures var q := Program(p.rows + [row], p.operands);
            Topological(q) && Keys(q) == Keys(p) + [Key(row.payload, Range(p.operands, row.start, row.count))]
  {
    var q := Program(p.rows + [row], p.operands);
    forall i | 0 <= i < |p.rows|
      ensures RowOk(q, i) && KeyAt(q, i) == KeyAt(p, i)
    {
      assert RowOk(p, i);
      assert Ops(q, i) == Ops(p, i);
    }
  }

  /** The operands and payload of a candidate suit its opcode. */
  ghost predicate KeyShaped(key: Key, rows: nat) {
    && ValidOpcode(key.payload.opcode)
    && (forall k :: 0 <= k < |key.operands| ==> 1 <= key.operands[k] <= rows)
    && (key.payload.opcode == NOT ==> |key.operands| == 1)
    && (IsGroup(key.payload.opcode) ==> |key.operands| >= 1)
    && (!IsConnective(key.payload.opcode) ==> |key.operands| == 0)
  }

  /** Intern a candidate. A candidate equal to an earlier one shares its row and
      adds its root flags to it; otherwise a row is appended. */
  method AppendCandidate(p: Program, flags: seq<set<Role>>, slots: seq<nat>, hash: Key -> nat, row: Row,
                         roles: set<Role>)
    returns (status: Status, id: InstructionId, q: Program, flags': seq<set<Role>>, slots': seq<nat>)
    requires Topological(p) && |flags| == |p.rows| && PoolOk(slots, Keys(p), hash) && |p.rows| < |slots|
    requires row.start + row.count <= |p.operands|
    requires KeyShaped(Key(row.payload, Range(p.operands, row.start, row.count)), |p.rows|)
    ensures status == Done <==> |p.rows| < MAX_UINT32
    ensures status == Done ==>
              && Topological(q) && PoolOk(slots', Keys(q), hash) && |slots'| == |slots| && |flags'| == |q.rows|
              && q.operands == p.operands && p.rows <= q.rows && |q.rows| <= |p.rows| + 1
              && 1 <= id <= |q.rows| && KeyAt(q, id - 1) == Key(row.payload, Range(p.operands, row.start, row.count))
              && (|q.rows| > |p.rows| ==> id == |q.rows|)
    ensures status == Done ==>
              forall i :: 0 <= i < |q.rows| ==>
                flags'[i] == (if i < |p.rows| then flags[i] else {}) + (if i == id - 1 then roles else {})
  {
    hide TableOk, Topological, Ops;
    if |p.rows| >= MAX_UINT32 {
      return TooLarge, 0, p, flags, slots;
    }
    var key := Key(row.payload, Range(p.operands, row.start, row.count));
    var probe := Lookup(slots, Keys(p), key, hash(key) % |slots|, Homes(Keys(p), hash, |slots|));
    q, flags', slots' := p, flags, slots;
    match probe
    case Full =>
      status := TooLarge;
    case Found(found) =>
      status, id := Done, found;
      flags' := flags[id - 1 := flags[id - 1] + roles];
    case Vacant(slot) =>
      status, id := Done, |p.rows| + 1;
      q := Program(p.rows + [row], p.operands);
      NewRow(p, row);
      RowGrows(p, row);
      AddKeeps(slots, Keys(p), hash, key, slot);
      flags' := flags + [roles];
      slots' := slots[slot := id];
  }

  lemma NewRow(p: Program, row: Row)
    requires row.start + row.count <= |p.operands|
    requires KeyShaped(Key(row.payload, Range(p.operands, row.start, row.count)), |p.rows|)
    ensures RowOk(Program(p.rows + [row], p.operands), |p.rows|)
    ensures KeyAt(Program(p.rows + [row], p.operands), |p.rows|) ==
            Key(row.payload, Range(p.operands, row.start, row.count))
  {
  }
}
