/** Instruction lowering: an iterative traversal from the semantic roots that emits
    each node after its children, then leaves every node with one instruction. */
module Lowering {
  import opened Bitsets
  import opened Documents
  import opened Meanings
  import opened Programs
  import opened Constants
  import opened OpenAddress
  import opened Candidates
  import opened Emission
  import opened GraphValidator

  /** Operands of a key are instructions already emitted. */
  ghost predicate Emitted(e: Columns, ids: seq<InstructionId>) {
    forall k :: 0 <= k < |ids| ==> 1 <= ids[k] <= |e.program.rows|
  }

  lemma DoneOperands(doc: Document, c: Canonical, e: Columns, u: NodeId)
    requires Clean(doc) && 1 <= u <= |doc.nodes| && Topological(e.program) && NodeDone(doc, c, e, u)
    ensures Emitted(e, KeyOf(doc, c, e, u).operands)
  {
    hide KeyOf, Ops;
    assert RowOk(e.program, CanonAt(e, u) - 1);
  }

  lemma {:induction false} FlattenedEmitted(doc: Document, c: Canonical, e: Columns, u: NodeId, n: nat)
    requires Clean(doc) && 1 <= u <= |doc.nodes| && doc.nodes[u - 1].Group? && n <= |Out(doc, u)|
    requires Topological(e.program) && ChildrenDone(doc, c, e, u)
    ensures Emitted(e, CanonAll(e, Flattened(doc, u, n)))
    decreases n
  {
    hide Topological, Piece, CanonAll, NodeDone, KeyOf, FlatRange;
    if n == 0 {
      FlattenedNone(doc, u);
      CanonNone(e);
    } else {
      var child := Out(doc, u)[n - 1];
      FlattenedEmitted(doc, c, e, u, n - 1);
      PieceOperands(doc, c, e, u, n - 1);
      FlattenedStep(doc, u, n - 1);
      CanonConcat(e, Flattened(doc, u, n - 1), Piece(doc, u, n - 1));
      assert NodeDone(doc, c, e, child);
      DoneFacts(doc, c, e, child);
      DoneOperands(doc, c, e, child);
    }
  }

  lemma DoneFacts(doc: Document, c: Canonical, e: Columns, u: NodeId)
    requires Clean(doc) && 1 <= u <= |doc.nodes| && NodeDone(doc, c, e, u)
    ensures 1 <= CanonAt(e, u) <= |e.program.rows|
    ensures doc.nodes[u - 1].Group? ==> FlatRange(e, u) == KeyOf(doc, c, e, u).operands
  {
  }

  /** The key of a node whose children are lowered is ready to be emitted. */
  lemma KeyReady(doc: Document, c: Canonical, e: Columns, u: NodeId)
    requires Clean(doc) && 1 <= u <= |doc.nodes| && Topological(e.program) && ChildrenDone(doc, c, e, u)
    ensures KeyShaped(KeyOf(doc, c, e, u), |e.program.rows|) && Emitted(e, KeyOf(doc, c, e, u).operands)
  {
    hide Topological, CanonAll, LeafPayload, Flattened, KeyAt;
    assert NodeClean(doc, u);
    var node := doc.nodes[u - 1];
    if node.Group? {
      FlattenedEmitted(doc, c, e, u, |Out(doc, u)|);
      FlattenedBelow(doc, u, |Out(doc, u)|);
      CanonConcat(e, Flat(doc, u), []);
    } else if node.Negation? {
      assert node.child == Out(doc, u)[0];
    } else {
      LeafOpcode(c, doc, node);
    }
  }

  /** Giving a node its instruction does not change the keys of lowered nodes. */
  lemma KeyStable(doc: Document, c: Canonical, e: Columns, e': Columns, u: NodeId, v: NodeId)
    requires Clean(doc) && 1 <= v <= |doc.nodes| && 1 <= u <= |e.canon|
    requires CanonAt(e, u) == 0 && |e'.canon| == |e.canon| && forall w :: w != u ==> CanonAt(e', w) == CanonAt(e, w)
    requires Emitted(e, KeyOf(doc, c, e, v).operands)
    ensures KeyOf(doc, c, e', v) == KeyOf(doc, c, e, v)
  {
    hide Flat, LeafPayload, CanonAt, Clean;
    var node := doc.nodes[v - 1];
    if node.Group? {
      var flat := Flat(doc, v);
      forall k | 0 <= k < |flat|
        ensures CanonAt(e', flat[k]) == CanonAt(e, flat[k])
      {
        assert CanonAll(e, flat)[k] != 0;
      }
    } else if node.Negation? {
      assert KeyOf(doc, c, e, v).operands[0] != 0;
    }
  }

  /** How emitting node u as instruction `id` changes the columns. */
  ghost predicate Emits(doc: Document, e: Columns, e': Columns, u: NodeId, id: InstructionId) {
    && 1 <= u <= |e.canon| && |e.canon| == |e'.canon| == |e'.flatStart| == |e'.flatCount|
    && CanonAt(e, u) == 0 && CanonAt(e', u) == id
    && (forall w :: w != u ==> CanonAt(e', w) == CanonAt(e, w))
    && (forall w :: w != u ==> FlatRange(e, w) != [] ==> FlatRange(e', w) == FlatRange(e, w))
    && |e.program.rows| <= |e'.program.rows|
    && (forall i :: 0 <= i < |e.program.rows| ==> KeyAt(e'.program, i) == KeyAt(e.program, i))
  }

  lemma NodeStaysDone(doc: Document, c: Canonical, e: Columns, e': Columns, u: NodeId, id: InstructionId, v: NodeId)
    requires Clean(doc) && 1 <= v <= |doc.nodes| && v != u && Topological(e.program) && Emits(doc, e, e', u, id)
    requires NodeDone(doc, c, e, v)
    ensures NodeDone(doc, c, e', v)
  {
    hide FlatRange, KeyOf, KeyAt, CanonAt;
    DoneOperands(doc, c, e, v);
    KeyStable(doc, c, e, e', u, v);
    if doc.nodes[v - 1].Group? {
      GroupKeyNonempty(doc, c, e, v);
    }
  }

  lemma GroupKeyNonempty(doc: Document, c: Canonical, e: Columns, u: NodeId)
    requires Clean(doc) && 1 <= u <= |doc.nodes| && doc.nodes[u - 1].Group?
    ensures KeyOf(doc, c, e, u).operands != []
  {
    assert NodeClean(doc, u);
    FlattenedBelow(doc, u, |Out(doc, u)|);
  }

  lemma EmitLowers(doc: Document, c: Canonical, e: Columns, e': Columns, u: NodeId, id: InstructionId)
    requires Clean(doc) && Topological(e.program) && LoweredNodes(doc, c, e) && Emits(doc, e, e', u, id)
    requires |doc.nodes| == |e.canon| && ChildrenDone(doc, c, e, u)
    requires 1 <= id <= |e'.program.rows| && KeyAt(e'.program, id - 1) == KeyOf(doc, c, e, u)
    requires doc.nodes[u - 1].Group? ==> FlatRange(e', u) == KeyOf(doc, c, e, u).operands
    ensures LoweredNodes(doc, c, e')
  {
    hide FlatRange, KeyOf, KeyAt;
    forall v | 1 <= v <= |doc.nodes| && CanonAt(e', v) != 0
      ensures NodeDone(doc, c, e', v)
    {
      if v == u {
        KeyReady(doc, c, e, u);
        KeyStable(doc, c, e, e', u, u);
      } else {
        NodeStaysDone(doc, c, e, e', u, id, v);
      }
    }
  }

  /** Some node with role r was lowered to instruction i + 1. */
  ghost predicate Carries(roots: seq<set<Role>>, e: Columns, i: nat, r: Role, u: NodeId) {
    1 <= u <= |roots| && CanonAt(e, u) == i + 1 && r in roots[u - 1]
  }

  /** A row has exactly the roles of the nodes lowered to it. */
  ghost predicate FlagsOk(roots: seq<set<Role>>, e: Columns) {
    && |e.flags| == |e.program.rows|
    && forall i, r :: 0 <= i < |e.flags| ==> (r in e.flags[i] <==> exists u :: Carries(roots, e, i, r, u))
  }

  lemma EmitKeepsFlags(doc: Document, roots: seq<set<Role>>, e: Columns, e': Columns, u: NodeId, id: InstructionId)
    requires FlagsOk(roots, e) && Emits(doc, e, e', u, id) && |roots| == |e.canon| && 1 <= id <= |e'.program.rows|
    requires |e'.flags| == |e'.program.rows| && forall v :: CanonAt(e, v) <= |e.program.rows|
    requires forall i :: 0 <= i < |e'.flags| ==>
               e'.flags[i] == (if i < |e.flags| then e.flags[i] else {}) + (if i == id - 1 then roots[u - 1] else {})
    ensures FlagsOk(roots, e')
  {
    hide FlatRange, KeyAt;
    forall i, r | 0 <= i < |e'.flags|
      ensures r in e'.flags[i] <==> exists w :: Carries(roots, e', i, r, w)
    {
      if r in e'.flags[i] {
        if i < |e.flags| && r in e.flags[i] {
          var w :| Carries(roots, e, i, r, w);
          assert Carries(roots, e', i, r, w);
        } else {
          assert Carries(roots, e', i, r, u);
        }
      }
      if w :| Carries(roots, e', i, r, w) {
        if w != u {
          assert Carries(roots, e, i, r, w);
        }
      }
    }
  }

  /** Every row was emitted for some node. */
  ghost predicate Owned(e: Columns) {
    forall i :: 0 <= i < |e.program.rows| ==> Owns(e, i)
  }

  ghost predicate Owns(e: Columns, i: nat) {
    exists u :: CanonAt(e, u) == i + 1
  }

  lemma EmitKeepsOwners(doc: Document, e: Columns, e': Columns, u: NodeId, id: InstructionId)
    requires Owned(e) && Emits(doc, e, e', u, id)
    requires |e'.program.rows| <= |e.program.rows| + 1
    requires (|e'.program.rows| > |e.program.rows| ==> id == |e'.program.rows|)
    ensures Owned(e')
  {
    hide KeyAt, FlatRange;
    forall i | 0 <= i < |e'.program.rows|
      ensures Owns(e', i)
    {
      if i < |e.program.rows| {
        assert Owns(e, i);
        var w :| CanonAt(e, w) == i + 1;
        assert CanonAt(e', w) == i + 1;
      } else {
        assert CanonAt(e', u) == i + 1;
      }
    }
  }

  ghost function Blacks(marks: seq<Mark>): set<NodeId> {
    set u | 1 <= u <= |marks| && ColorOf(marks, u) == Black
  }

  /** The slab space of the finished nodes among the first n. */
  ghost function SlabUsed(doc: Document, marks: seq<Mark>, n: nat): nat
    requires Clean(doc) && n <= |doc.nodes|
  {
    if n == 0 then 0 else SlabUsed(doc, marks, n - 1) + (if ColorOf(marks, n) == Black then SlabNeed(doc, n) else 0)
  }

  /** The slab space of the first n nodes. */
  ghost function SlabTotal(doc: Document, n: nat): nat
    requires Clean(doc) && n <= |doc.nodes|
  {
    if n == 0 then 0 else SlabTotal(doc, n - 1) + SlabNeed(doc, n)
  }

  lemma {:induction false} SlabUsedStep(doc: Document, marks: seq<Mark>, u: NodeId, mark: Mark, n: nat)
    requires Clean(doc) && |marks| == |doc.nodes| && n <= |doc.nodes| && 1 <= u <= |doc.nodes|
    requires ColorOf(marks, u) != Black && mark.color == Black
    ensures SlabUsed(doc, marks[u - 1 := mark], n) == SlabUsed(doc, marks, n) + (if u <= n then SlabNeed(doc, u) else 0)
  {
    hide SlabNeed;
    if n > 0 {
      SlabUsedStep(doc, marks, u, mark, n - 1);
    }
  }

  lemma {:induction false} SlabUsedBound(doc: Document, marks: seq<Mark>, n: nat)
    requires Clean(doc) && |marks| == |doc.nodes| && n <= |doc.nodes|
    ensures SlabUsed(doc, marks, n) <= SlabTotal(doc, n)
    ensures (forall u :: 1 <= u <= n ==> ColorOf(marks, u) == Black) ==> SlabUsed(doc, marks, n) == SlabTotal(doc, n)
  {
    hide SlabNeed;
    if n > 0 {
      SlabUsedBound(doc, marks, n - 1);
    }
  }

  function EdgeTotal(doc: Document, n: nat): nat
    requires n <= |doc.nodes|
  {
    if n == 0 then 0 else EdgeTotal(doc, n - 1) + |Out(doc, n)|
  }

  function ListTotal(doc: Document, n: nat): nat
    requires n <= |doc.nodes|
  {
    if n == 0 then 0
    else ListTotal(doc, n - 1) + (match doc.nodes[n - 1] case Compare(_, _, _, list) => |list| case _ => 0)
  }

  /** The document-wide counts fit the fixed-width columns. */
  predicate CountsFit(doc: Document) {
    && |doc.nodes| < MAX_UINT32
    && ListTotal(doc, |doc.nodes|) < MAX_UINT32
    && EdgeTotal(doc, |doc.nodes|) < MAX_UINT32
  }

  /** The sizes at which lowering gives up: wide lists, wide flattened groups, or
      too many flattened operands in all. */
  ghost predicate Fits(doc: Document)
    requires Clean(doc)
  {
    && CountsFit(doc)
    && (forall u :: 1 <= u <= |doc.nodes| ==> NodeFits(doc, u))
    && SlabTotal(doc, |doc.nodes|) <= MAX_UINT32
  }

  /** Finished nodes and only they have instructions, within the size limits. */
  ghost predicate Budget(doc: Document, marks: seq<Mark>, e: Columns)
    requires Clean(doc)
  {
    && |marks| == |doc.nodes|
    && (forall u :: CanonAt(e, u) != 0 <==> ColorOf(marks, u) == Black)
    && (forall u :: 1 <= u <= |doc.nodes| && ColorOf(marks, u) == Black ==> NodeFits(doc, u))
    && |e.program.rows| <= |Blacks(marks)|
    && |e.program.operands| == SlabUsed(doc, marks, |doc.nodes|) <= MAX_UINT32
  }

  lemma BudgetStep(doc: Document, marks: seq<Mark>, e: Columns, e': Columns, u: NodeId, id: InstructionId, mark: Mark)
    requires Clean(doc) && Budget(doc, marks, e) && 1 <= u <= |doc.nodes| && Emits(doc, e, e', u, id) && id != 0
    requires ColorOf(marks, u) != Black && mark.color == Black
    requires NodeFits(doc, u) && |e'.program.rows| <= |e.program.rows| + 1
    requires |e'.program.operands| == |e.program.operands| + SlabNeed(doc, u) <= MAX_UINT32
    ensures Budget(doc, marks[u - 1 := mark], e')
  {
    hide SlabNeed, NodeFits, KeyAt, FlatRange;
    var marks' := marks[u - 1 := mark];
    SlabUsedStep(doc, marks, u, mark, |doc.nodes|);
    assert Blacks(marks') == Blacks(marks) + {u};
  }

  /** Before the last node is emitted there is room in the candidate table. */
  lemma RoomLeft(doc: Document, marks: seq<Mark>, e: Columns, u: NodeId)
    requires Clean(doc) && Budget(doc, marks, e) && 1 <= u <= |doc.nodes| && ColorOf(marks, u) != Black
    ensures |e.program.rows| < |doc.nodes|
  {
    var others := UpTo(|doc.nodes|) - {u};
    SubsetBound(Blacks(marks), others);
  }

  /** The columns after the nodes marked black have been emitted. */
  ghost predicate EmitOk(doc: Document, c: Canonical, hash: Key -> nat, roots: seq<set<Role>>, marks: seq<Mark>,
                         e: Columns)
    requires Clean(doc)
  {
    && Shaped(doc, e) && |roots| == |doc.nodes| && |e.slots| >= 2 * |doc.nodes|
    && LoweredNodes(doc, c, e)
    && PoolOk(e.slots, Keys(e.program), hash)
    && FlagsOk(roots, e) && Owned(e)
    && Budget(doc, marks, e)
  }

  lemma ChildrenAreDone(doc: Document, c: Canonical, hash: Key -> nat, roots: seq<set<Role>>, marks: seq<Mark>,
                        e: Columns, u: NodeId)
    requires Clean(doc) && EmitOk(doc, c, hash, roots, marks, e) && 1 <= u <= |doc.nodes|
    requires forall k :: 0 <= k < |Out(doc, u)| ==> ColorOf(marks, Out(doc, u)[k]) == Black
    ensures ChildrenDone(doc, c, e, u)
  {
    hide NodeDone, FlagsOk, Owned, PoolOk, Topological;
    assert NodeClean(doc, u);
    forall k | 0 <= k < |Out(doc, u)|
      ensures Readable(doc, Out(doc, u)[k]) && NodeDone(doc, c, e, Out(doc, u)[k])
    {
      assert CanonAt(e, Out(doc, u)[k]) != 0;
    }
  }

  /** A node that cannot be emitted proves the document too large. */
  lemma OverflowBreaksFit(doc: Document, marks: seq<Mark>, e: Columns, u: NodeId)
    requires Clean(doc) && Budget(doc, marks, e) && 1 <= u <= |doc.nodes| && ColorOf(marks, u) != Black
    requires !NodeFits(doc, u) || |e.program.operands| + SlabNeed(doc, u) > MAX_UINT32
    ensures !Fits(doc)
  {
    hide SlabNeed, NodeFits;
    SlabUsedStep(doc, marks, u, Mark(Black, false), |doc.nodes|);
    SlabUsedBound(doc, marks[u - 1 := Mark(Black, false)], |doc.nodes|);
  }

  lemma CanonBounded(doc: Document, c: Canonical, e: Columns)
    requires Clean(doc) && Shaped(doc, e) && LoweredNodes(doc, c, e)
    ensures forall v :: CanonAt(e, v) <= |e.program.rows|
  {
    hide KeyOf, KeyAt, Topological;
    forall v
      ensures CanonAt(e, v) <= |e.program.rows|
    {
      if CanonAt(e, v) != 0 {
        assert NodeDone(doc, c, e, v);
      }
    }
  }

  /** The columns with node u given instruction `id`. */
  function Recorded(e: Columns, u: NodeId, group: bool, start: nat, count: nat, id: InstructionId, q: Program,
                    flags: seq<set<Role>>, slots: seq<nat>): Columns
    requires 1 <= u <= |e.canon| == |e.flatStart| == |e.flatCount|
  {
    Columns(e.canon[u - 1 := id],
            if group then e.flatStart[u - 1 := start] else e.flatStart,
            if group then e.flatCount[u - 1 := count] else e.flatCount,
            q, flags, slots)
  }

  lemma RecordedEmits(doc: Document, e: Columns, u: NodeId, group: bool, added: seq<InstructionId>, id: InstructionId,
                      q: Program, flags: seq<set<Role>>, slots: seq<nat>)
    requires 1 <= u <= |e.canon| == |e.flatStart| == |e.flatCount| && CanonAt(e, u) == 0
    requires Topological(e.program) && q.operands == e.program.operands + added && e.program.rows <= q.rows
    ensures var e' := Recorded(e, u, group, |e.program.operands|, |added|, id, q, flags, slots);
            Emits(doc, e, e', u, id) && (group ==> FlatRange(e', u) == added)
  {
    hide KeyAt, FlatRange, Topological;
    var e' := Recorded(e, u, group, |e.program.operands|, |added|, id, q, flags, slots);
    forall i | 0 <= i < |e.program.rows|
      ensures KeyAt(q, i) == KeyAt(e.program, i)
    {
      KeyKept(e.program, q, added, i);
    }
    forall w: NodeId | w != u
      ensures FlatRange(e, w) != [] ==> FlatRange(e', w) == FlatRange(e, w)
    {
      FlatRecorded(e, u, group, added, id, q, flags, slots, w);
    }
    FlatRecorded(e, u, group, added, id, q, flags, slots, u);
  }

  lemma KeyKept(p: Program, q: Program, added: seq<InstructionId>, i: nat)
    requires Topological(p) && q.operands == p.operands + added && p.rows <= q.rows && i < |p.rows|
    ensures KeyAt(q, i) == KeyAt(p, i)
  {
    assert RowOk(p, i);
    assert Ops(q, i) == Ops(p, i);
  }

  /** Recording a node leaves the flattened ranges of the others, and gives a group its own. */
  lemma FlatRecorded(e: Columns, u: NodeId, group: bool, added: seq<InstructionId>, id: InstructionId, q: Program,
                     flags: seq<set<Role>>, slots: seq<nat>, w: NodeId)
    requires 1 <= u <= |e.canon| == |e.flatStart| == |e.flatCount| && q.operands == e.program.operands + added
    ensures var e' := Recorded(e, u, group, |e.program.operands|, |added|, id, q, flags, slots);
            && (w != u && FlatRange(e, w) != [] ==> FlatRange(e', w) == FlatRange(e, w))
            && (w == u && group ==> FlatRange(e', w) == added)
  {
  }

  /** Emitting a node keeps the columns. */
  lemma EmitKeeps(doc: Document, c: Canonical, hash: Key -> nat, roots: seq<set<Role>>, marks: seq<Mark>,
                  e: Columns, e': Columns, u: NodeId, id: InstructionId, mark: Mark)
    requires Clean(doc) && EmitOk(doc, c, hash, roots, marks, e) && 1 <= u <= |doc.nodes|
    requires ColorOf(marks, u) != Black && mark.color == Black && ChildrenDone(doc, c, e, u)
    requires Emits(doc, e, e', u, id) && 1 <= id <= |e'.program.rows| <= |e.program.rows| + 1
    requires |e'.program.rows| > |e.program.rows| ==> id == |e'.program.rows|
    requires KeyAt(e'.program, id - 1) == KeyOf(doc, c, e, u)
    requires doc.nodes[u - 1].Group? ==> FlatRange(e', u) == KeyOf(doc, c, e, u).operands
    requires Topological(e'.program) && PoolOk(e'.slots, Keys(e'.program), hash) && |e'.slots| == |e.slots|
    requires |e'.flags| == |e'.program.rows|
    requires forall i :: 0 <= i < |e'.flags| ==>
               e'.flags[i] == (if i < |e.flags| then e.flags[i] else {}) + (if i == id - 1 then roots[u - 1] else {})
    requires NodeFits(doc, u) && |e'.program.operands| == |e.program.operands| + SlabNeed(doc, u) <= MAX_UINT32
    ensures EmitOk(doc, c, hash, roots, marks[u - 1 := mark], e')
  {
    CanonBounded(doc, c, e);
    EmitLowers(doc, c, e, e', u, id);
    EmitKeepsFlags(doc, roots, e, e', u, id);
    BudgetStep(doc, marks, e, e', u, id, mark);
    EmitKeepsOwners(doc, e, e', u, id);
    hide LoweredNodes, Owned, Topological, FlagsOk, PoolOk, Clean, NodeFits, SlabNeed, KeyOf, ChildrenDone, SlabUsed,
         Budget, Keys;
  }

  /** Write the prepared candidate of node u. */
  method Commit(doc: Document, ghost key: Key, hash: Key -> nat, roots: seq<set<Role>>, e: Columns, u: NodeId,
                payload: Payload, operands: seq<InstructionId>)
    returns (status: Status, e': Columns, ghost id: InstructionId)
    requires Shaped(doc, e) && |roots| == |doc.nodes| && 1 <= u <= |doc.nodes| && CanonAt(e, u) == 0
    requires PoolOk(e.slots, Keys(e.program), hash) && |e.program.rows| < |e.slots|
    requires payload == key.payload && operands == e.program.operands + key.operands && KeyShaped(key, |e.program.rows|)
    ensures status == Done <==> |e.program.rows| < MAX_UINT32
    ensures status == Done ==>
              && Emits(doc, e, e', u, id) && 1 <= id <= |e'.program.rows| <= |e.program.rows| + 1
              && (|e'.program.rows| > |e.program.rows| ==> id == |e'.program.rows|)
              && KeyAt(e'.program, id - 1) == key && e'.program.operands == operands
              && (doc.nodes[u - 1].Group? ==> FlatRange(e', u) == key.operands)
              && Topological(e'.program) && PoolOk(e'.slots, Keys(e'.program), hash) && |e'.slots| == |e.slots|
              && |e'.flags| == |e'.program.rows|
    ensures status == Done ==>
              forall i :: 0 <= i < |e'.flags| ==>
                e'.flags[i] == (if i < |e.flags| then e.flags[i] else {}) + (if i == id - 1 then roots[u - 1] else {})
  {
    hide Topological, PoolOk, Keys, KeyShaped, KeyAt;
    e' := e;
    var start, count := |e.program.operands|, |operands| - |e.program.operands|;
    var row := Row(payload, if count == 0 then 0 else start, count);
    SlabGrows(e.program, operands);
    assert Range(operands, row.start, count) == key.operands;
    var instruction, q, flags, slots;
    status, instruction, q, flags, slots :=
      AppendCandidate(Program(e.program.rows, operands), e.flags, e.slots, hash, row, roots[u - 1]);
    id := instruction;
    if status != Done {
      return;
    }
    e' := Recorded(e, u, doc.nodes[u - 1].Group?, start, count, instruction, q, flags, slots);
    RecordedEmits(doc, e, u, doc.nodes[u - 1].Group?, key.operands, instruction, q, flags, slots);
  }

  /** Lower one node whose children are lowered. The status is exact. */
  method InternInstructionCandidate(doc: Document, c: Canonical, hash: Key -> nat, roots: seq<set<Role>>,
                                    ghost marks: seq<Mark>,
                                    e: Columns, u: NodeId, ghost mark: Mark)
    returns (status: Status, e': Columns)
    requires Clean(doc) && CountsFit(doc) && EmitOk(doc, c, hash, roots, marks, e)
    requires 1 <= u <= |doc.nodes| && ColorOf(marks, u) != Black && mark.color == Black
    requires forall k :: 0 <= k < |Out(doc, u)| ==> ColorOf(marks, Out(doc, u)[k]) == Black
    ensures status == Done || status == TooLarge
    ensures status == Done ==> EmitOk(doc, c, hash, roots, marks[u - 1 := mark], e')
    ensures status == TooLarge ==> !Fits(doc)
  {
    ChildrenAreDone(doc, c, hash, roots, marks, e, u);
    RoomLeft(doc, marks, e, u);
    KeyReady(doc, c, e, u);
    KeyWidth(doc, c, e, u);
    hide LoweredNodes, Owned, Topological, FlagsOk, PoolOk, Clean, NodeFits, SlabNeed, KeyOf, ChildrenDone, SlabUsed,
         Fits, Keys;
    e' := e;
    var payload, operands;
    status, payload, operands := Prepare(doc, c, e, u);
    if status != Done {
      OverflowBreaksFit(doc, marks, e, u);
      return;
    }
    ghost var id;
    status, e', id := Commit(doc, KeyOf(doc, c, e, u), hash, roots, e, u, payload, operands);
    if status == Done {
      EmitKeeps(doc, c, hash, roots, marks, e, e', u, id, mark);
    }
  }
}
