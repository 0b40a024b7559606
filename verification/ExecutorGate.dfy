/** What the executor demands of a program before it runs it, and which compiled
    policies meet it. */
module ExecutorGate {
  import opened Documents
  import opened Meanings
  import opened Programs
  import opened Constants
  import opened Candidates
  import opened Emission
  import opened Lowering
  import opened Lowerers
  import opened Roots
  import opened Compaction
  import opened NodeMaps
  import opened Schedule
  import opened Schedulers
  import opened Machine
  import opened Compiler

  /** The executor insists on two operands for a group, where the document model
      allows one child. */
  predicate RowAccepted(p: Program, i: nat)
    requires i < |p.rows|
  {
    && ValidOpcode(OpcodeAt(p, i))
    && OperandsPrecede(p, i)
    && (IsGroup(OpcodeAt(p, i)) ==> |Ops(p, i)| >= 2)
    && (OpcodeAt(p, i) == NOT ==> |Ops(p, i)| == 1)
    && (!IsConnective(OpcodeAt(p, i)) ==> |Ops(p, i)| == 0)
  }

  /** The executor's check of the instruction and slot columns. */
  method ValidExecutionSchedule(out: Compiled) returns (ok: bool)
    ensures ok <==>
              && 0 < |out.program.rows| <= MAX_UINT32
              && |out.flags| == |out.truthSlots| == |out.reasonSlots| == |out.program.rows|
              && out.truthSlotCount > 0 && out.reasonSlotCount > 0
              && forall i :: 0 <= i < |out.program.rows| ==>
                   && 1 <= out.truthSlots[i] <= out.truthSlotCount && 1 <= out.reasonSlots[i] <= out.reasonSlotCount
                   && RowAccepted(out.program, i)
  {
    var p := out.program;
    if |p.rows| == 0 || |p.rows| > MAX_UINT32 || |out.flags| != |p.rows| ||
       |out.truthSlots| != |p.rows| || |out.reasonSlots| != |p.rows| {
      return false;
    }
    if out.truthSlotCount == 0 || out.reasonSlotCount == 0 {
      return false;
    }
    for row := 0 to |p.rows|
      invariant forall i :: 0 <= i < row ==>
                  && 1 <= out.truthSlots[i] <= out.truthSlotCount && 1 <= out.reasonSlots[i] <= out.reasonSlotCount
                  && RowAccepted(p, i)
    {
      var opcode := p.rows[row].payload.opcode;
      if !ValidOpcode(opcode) || out.truthSlots[row] == 0 || out.truthSlots[row] > out.truthSlotCount ||
         out.reasonSlots[row] == 0 || out.reasonSlots[row] > out.reasonSlotCount {
        return false;
      }
      var start, count := p.rows[row].start, p.rows[row].count;
      if start + count > |p.operands| {
        return false;
      }
      assert |Ops(p, row)| == count;
      if opcode == ALL || opcode == ANY {
        if count < 2 {
          return false;
        }
      } else if opcode == NOT {
        if count != 1 {
          return false;
        }
      } else if count != 0 {
        return false;
      }
      var precede := OperandsBefore(Ops(p, row), row);
      if !precede {
        return false;
      }
    }
    return true;
  }

  method OperandsBefore(ids: seq<InstructionId>, row: nat) returns (ok: bool)
    ensures ok <==> forall k :: 0 <= k < |ids| ==> 1 <= ids[k] <= row
  {
    for k := 0 to |ids|
      invariant forall l :: 0 <= l < k ==> 1 <= ids[l] <= row
    {
      if ids[k] == 0 || ids[k] >= row + 1 {
        return false;
      }
    }
    return true;
  }

  /** Node u is a child of w that does not merge into it. */
  predicate StandsUnder(doc: Document, w: NodeId, u: NodeId) {
    && Edge(doc, w, u)
    && !(doc.nodes[w - 1].Group? && Merges(doc, doc.nodes[w - 1].conjunction, u))
  }

  /** A group that flattens to a single operand and keeps an instruction of its
      own: it is a root, or some parent does not absorb it. */
  ghost predicate NarrowGroup(doc: Document, u: NodeId)
    requires Clean(doc)
  {
    && 1 <= u <= |doc.nodes| && doc.nodes[u - 1].Group? && |Flat(doc, u)| == 1
    && (u in AllRoots(doc) || exists w :: StandsUnder(doc, w, u))
  }

  /** A flattened operand stands under some group that was merged on the way. */
  lemma {:induction false} FlatParent(doc: Document, u: NodeId, n: nat, x: NodeId) returns (w: NodeId)
    requires Clean(doc) && 1 <= u <= |doc.nodes| && doc.nodes[u - 1].Group? && n <= |Out(doc, u)|
    requires x in Flattened(doc, u, n)
    ensures StandsUnder(doc, w, x)
    decreases Rank(doc, u), n
  {
    hide Rank;
    if x in Flattened(doc, u, n - 1) {
      w := FlatParent(doc, u, n - 1, x);
    } else {
      TargetsDescend(doc, u, n - 1);
      var child := Out(doc, u)[n - 1];
      if Merges(doc, doc.nodes[u - 1].conjunction, child) {
        w := FlatParent(doc, child, |Out(doc, child)|, x);
      } else {
        assert x == child;
        w := u;
      }
    }
  }

  /** A node with a group row is a group, and its operand count is its flat width. */
  lemma GroupRowNode(doc: Document, c: Canonical, roots: seq<set<Role>>, e: Columns, u: NodeId)
    requires Clean(doc) && Lowered(doc, c, roots, e) && 1 <= u <= |doc.nodes|
    ensures 1 <= CanonAt(e, u) <= |e.program.rows|
    ensures IsGroup(OpcodeAt(e.program, CanonAt(e, u) - 1)) <==> doc.nodes[u - 1].Group?
    ensures doc.nodes[u - 1].Group? ==> |Ops(e.program, CanonAt(e, u) - 1)| == |Flat(doc, u)|
  {
    NodeRow(doc, c, roots, e, u);
    assert NodeClean(doc, u);
    hide Lowered, Ops, Flat, LeafPayload;
    if IsLeaf(doc.nodes[u - 1]) {
      LeafOpcode(c, doc, doc.nodes[u - 1]);
    }
  }

  /** A narrow group keeps a one-operand row. */
  lemma NarrowGroupIsNeeded(doc: Document, c: Canonical, roots: seq<set<Role>>, e: Columns, u: NodeId)
    requires Accepted(doc) && Lowered(doc, c, roots, e) && NarrowGroup(doc, u)
    ensures NodeNeeded(doc, c, roots, e, u)
  {
    hide Lowered, Flattened, NodeNeeded, AllRoots;
    if u in AllRoots(doc) {
      RootNeeded(doc, c, roots, e, u);
    } else {
      var w :| StandsUnder(doc, w, u);
      EveryNodeAccounted(doc, c, roots, e, w);
      if doc.nodes[w - 1].Group? {
        if NodeNeeded(doc, c, roots, e, w) {
          NeededGroupOperands(doc, c, roots, e, w);
        }
        var k :| 0 <= k < |Out(doc, w)| && Out(doc, w)[k] == u;
        assert u in Piece(doc, w, k);
        PieceInFlat(doc, w, k, |Out(doc, w)|, u);
      } else {
        NegatedNeeded(doc, c, roots, e, w);
      }
    }
  }

  ghost predicate NarrowRow(e: Columns, i: nat) {
    && |e.flags| == |e.program.rows| && i < |e.program.rows| && IsGroup(OpcodeAt(e.program, i))
    && |Ops(e.program, i)| == 1 && Needed(e.program, RootRows(e.flags), i)
  }

  /** A row that carries a root role is the instruction of a root. */
  lemma RootRowNode(doc: Document, c: Canonical, roots: seq<set<Role>>, e: Columns, i: nat) returns (u: NodeId)
    requires Clean(doc) && Lowered(doc, c, roots, e) && i < |e.flags| && e.flags[i] != {}
    ensures 1 <= u <= |doc.nodes| && CanonAt(e, u) == i + 1 && u in AllRoots(doc)
  {
    hide AllRoots, LoweredNodes, Owned, Shaped, HasRole;
    var r :| r in e.flags[i];
    u :| Carries(roots, e, i, r, u);
    RoleIsRoot(doc, u, r);
  }

  /** A kept row is the instruction of a root, or of a node that stands under another. */
  lemma KeptRowNode(doc: Document, c: Canonical, roots: seq<set<Role>>, e: Columns, i: nat) returns (u: NodeId)
    requires Clean(doc) && Lowered(doc, c, roots, e) && i < |e.flags| == |e.program.rows|
    requires Needed(e.program, RootRows(e.flags), i)
    ensures 1 <= u <= |doc.nodes| && CanonAt(e, u) == i + 1
    ensures u in AllRoots(doc) || exists w :: StandsUnder(doc, w, u)
  {
    hide AllRoots, LoweredNodes, Shaped, FlagsOk, RolesOk, Ops, StandsUnder, Clean, CanonAt;
    if RootRows(e.flags)[i] {
      u := RootRowNode(doc, c, roots, e, i);
    } else {
      var j :| i < j < |e.program.rows| && Needed(e.program, RootRows(e.flags), j) && i + 1 in Ops(e.program, j);
      assert Owns(e, j);
      var w :| CanonAt(e, w) == j + 1;
      var v;
      u, v := OperandNode(doc, c, roots, e, w, i);
    }
  }

  /** A kept one-operand group row comes from a narrow group. */
  lemma NarrowRowNode(doc: Document, c: Canonical, roots: seq<set<Role>>, e: Columns, i: nat) returns (u: NodeId)
    requires Clean(doc) && Lowered(doc, c, roots, e) && |e.flags| == |e.program.rows| && NarrowRow(e, i)
    ensures NarrowGroup(doc, u)
  {
    hide AllRoots, Lowered, Needed, Ops, Clean, CanonAt, StandsUnder, Flat;
    u := KeptRowNode(doc, c, roots, e, i);
    GroupRowNode(doc, c, roots, e, u);
  }

  lemma RoleIsRoot(doc: Document, u: NodeId, r: Role)
    requires HasRole(doc, u, r)
    ensures u in AllRoots(doc)
  {
    hide ApplicabilityRoots, AssertionRoots, EvidenceEdges;
  }

  /** An operand of w's row is the instruction of a node that stands under some v. */
  lemma OperandNode(doc: Document, c: Canonical, roots: seq<set<Role>>, e: Columns, w: NodeId,
                    i: nat) returns (u: NodeId, v: NodeId)
    requires Clean(doc) && Lowered(doc, c, roots, e) && 1 <= CanonAt(e, w) <= |e.program.rows|
    requires i + 1 in Ops(e.program, CanonAt(e, w) - 1)
    ensures 1 <= u <= |doc.nodes| && CanonAt(e, u) == i + 1 && StandsUnder(doc, v, u)
  {
    NodeRow(doc, c, roots, e, w);
    assert NodeClean(doc, w);
    hide Lowered, Ops, Flattened;
    if doc.nodes[w - 1].Group? {
      var flat := Flat(doc, w);
      FlattenedInRange(doc, w, |Out(doc, w)|);
      var k :| 0 <= k < |flat| && CanonAll(e, flat)[k] == i + 1;
      u := flat[k];
      v := FlatParent(doc, w, |Out(doc, w)|, u);
    } else {
      assert doc.nodes[w - 1].Negation?;
      u, v := doc.nodes[w - 1].child, w;
      assert u == Out(doc, w)[0];
    }
  }

  /** The scheduled program has a one-operand group exactly when the candidates have
      a kept one. */
  lemma NarrowSurvives(e: Columns, compacted: Compacted, scheduled: Scheduled)
    requires Rewritten(e, compacted, scheduled)
    ensures (exists i: nat :: NarrowRow(e, i)) <==>
            exists f :: 0 <= f < |scheduled.program.rows| && !RowAccepted(scheduled.program, f)
  {
    var q, s := compacted.program, scheduled.program;
    if i: nat :| NarrowRow(e, i) {
      hide Needed, Ops, Tiled, Topological;
      var j := compacted.toFinal[i] - 1;
      var f := scheduled.oldToNew[j] - 1;
      assert compacted.source[j] == i && scheduled.order[f] == j;
      assert Matches(q, e.program, compacted.source, j);
      assert Matches(s, q, scheduled.order, f);
      assert !RowAccepted(s, f);
    }
    if f :| 0 <= f < |s.rows| && !RowAccepted(s, f) {
      assert RowOk(s, f);
      hide Needed, Ops, Tiled, Topological;
      var j := scheduled.order[f];
      assert Matches(s, q, scheduled.order, f);
      assert Matches(q, e.program, compacted.source, j);
      var i := compacted.source[j];
      assert compacted.toFinal[i] == j + 1;
      assert NarrowRow(e, i);
    }
  }

  /** The instruction columns of a compiled policy pass the executor's check exactly
      when the document has no narrow group. */
  lemma AcceptedExactly(doc: Document, c: Canonical, roots: seq<set<Role>>, e: Columns, compacted: Compacted,
                        scheduled: Scheduled)
    requires Accepted(doc) && Clean(doc) && Lowered(doc, c, roots, e) && Rewritten(e, compacted, scheduled)
    ensures (forall f :: 0 <= f < |scheduled.program.rows| ==> RowAccepted(scheduled.program, f)) <==>
            !exists u :: NarrowGroup(doc, u)
  {
    NarrowSurvives(e, compacted, scheduled);
    hide Clean, Accepted, Lowered, RowAccepted, NarrowGroup, Rewritten;
    RewrittenShape(e, compacted, scheduled);
    hide CompactionOk, NarrowRow;
    if i: nat :| NarrowRow(e, i) {
      var u := NarrowRowNode(doc, c, roots, e, i);
    }
    if u :| NarrowGroup(doc, u) {
      NarrowGroupRow(doc, c, roots, e, u);
    }
  }

  lemma NarrowGroupRow(doc: Document, c: Canonical, roots: seq<set<Role>>, e: Columns, u: NodeId)
    requires Accepted(doc) && Lowered(doc, c, roots, e) && NarrowGroup(doc, u) && |e.flags| == |e.program.rows|
    ensures NarrowRow(e, CanonAt(e, u) - 1)
  {
    hide AllRoots, Lowered, Needed, Ops, Flat, StandsUnder;
    NarrowGroupIsNeeded(doc, c, roots, e, u);
    GroupRowNode(doc, c, roots, e, u);
  }

  /** Compiling an accepted document and handing it to the executor. Beyond the size
      limits, the only obstacle is a narrow group. */
  method CompileAndAdmit(doc: Document, names: seq<Bytes>, hashBytes: Bytes -> nat, hashLiteral: Literal -> nat,
                         hashKey: Key -> nat)
    returns (r: Outcome, admitted: bool, ghost last: seq<nat>, ghost trace: Trace)
    requires Accepted(doc)
    ensures Clean(doc) && (Compilable(doc, names) ==> r.Success?)
    ensures r.Success? ==> (admitted <==> !exists u :: NarrowGroup(doc, u))
    ensures r.Success? ==> CompiledOk(doc, r.program, last) && Traced(doc, r.program, trace)
    ensures r.Success? ==> CanonicalOk(r.program.constants, names, doc.literals)
    ensures !r.Success? ==> !admitted
  {
    hide Accepted, Clean, Compilable, Lowered, Rewritten, RowAccepted, NarrowGroup, CanonicalOk;
    r, last, trace := Compile(doc, names, hashBytes, hashLiteral, hashKey);
    admitted := false;
    if r.Success? {
      admitted := ValidExecutionSchedule(r.program);
      SlotsPass(doc, r.program, last, trace);
      AcceptedExactly(doc, r.program.constants, trace.roots, trace.columns, trace.compacted, trace.scheduled);
    }
  }

  /** Sizes and slots of a compiled policy always pass. */
  lemma SlotsPass(doc: Document, out: Compiled, last: seq<nat>, trace: Trace)
    requires Accepted(doc) && Clean(doc) && CompiledOk(doc, out, last) && Traced(doc, out, trace)
    requires |doc.requirements| > 0
    ensures 0 < |out.program.rows| <= MAX_UINT32
    ensures |out.flags| == |out.truthSlots| == |out.reasonSlots| == |out.program.rows|
    ensures out.truthSlotCount > 0 && out.reasonSlotCount > 0
    ensures forall i :: 0 <= i < |out.program.rows| ==>
              1 <= out.truthSlots[i] <= out.truthSlotCount && 1 <= out.reasonSlots[i] <= out.reasonSlotCount
  {
    var root := doc.requirements[0].applicability;
    assert ApplicabilityRoots(doc)[0] == root;
    assert root in AllRoots(doc);
    hide Clean, Accepted, AllRoots, Runnable, Lowered, Rewritten, NodeComputes;
    assert RootKeptAt(doc, out, root);
    RunnableShape(Bound(out.program, out.truthSlots, out.truthSlotCount), RootRows(out.flags), last);
    RunnableShape(Bound(out.program, out.reasonSlots, out.reasonSlotCount), RootRows(out.flags), last);
    assert 1 <= out.truthSlots[0] && 1 <= out.reasonSlots[0];
  }

  /** The smallest document the validator accepts and the executor refuses: one
      requirement whose root is a conjunction of a single constant. */
  function Lonely(): Document {
    Document([Boolean(1), Group(true, [1])], [Requirement(2, [1])], [Clause(2, [], false)], [Bool(true)])
  }

  lemma LonelyClean()
    ensures Clean(Lonely())
  {
    var doc := Lonely();
    forall u, v | Edge(doc, u, v)
      ensures u == 2 && v == 1
    {
    }
    assert Ranked(doc, [0, 1]);
    assert NodeClean(doc, 1) && NodeClean(doc, 2);
  }

  lemma LonelyReachable(u: NodeId)
    requires 1 <= u <= 2
    ensures Reachable(Lonely(), SemanticRoots(Lonely()), u)
  {
    var doc := Lonely();
    assert SemanticRoot(doc, 2) by {
      assert doc.requirements[0].applicability == 2;
    }
    ReachableRoot(doc, SemanticRoots(doc), 2);
    if u == 1 {
      hide Reachable, SemanticRoots;
      assert Edge(doc, 2, 1);
      ReachableStep(doc, SemanticRoots(doc), 2, 1);
    }
  }

  lemma LonelyFlat()
    ensures Clean(Lonely()) && Flat(Lonely(), 2) == [1]
  {
    LonelyClean();
    var doc := Lonely();
    hide Clean;
    assert Piece(doc, 2, 0) == [1];
    FlattenedNone(doc, 2);
    FlattenedStep(doc, 2, 0);
  }

  lemma LonelyFits()
    ensures Clean(Lonely()) && Compilable(Lonely(), [])
  {
    LonelyFlat();
    var doc := Lonely();
    hide Clean, Flat;
    assert EdgeTotal(doc, 1) == 0 && EdgeTotal(doc, 2) == 1;
    assert ListTotal(doc, 1) == 0 && ListTotal(doc, 2) == 0;
    assert SlabTotal(doc, 1) == 0 && SlabTotal(doc, 2) == 1;
    assert TotalBytes([]) == 0 && SymbolBytes([]) == 0 && SymbolBytes(doc.literals) == 0;
  }

  lemma LonelyRoots()
    ensures AllRoots(Lonely()) == [2, 2]
  {
    var doc := Lonely();
    assert ApplicabilityRoots(doc) == [2] && AssertionRoots(doc) == [2];
    assert EvidenceEdges(doc.clauses[..0]) == [];
    assert EvidenceEdges(doc.clauses) == [];
  }

  lemma LonelyIsNarrow()
    ensures Accepted(Lonely()) && Clean(Lonely()) && Compilable(Lonely(), []) && NarrowGroup(Lonely(), 2)
  {
    LonelyFlat();
    LonelyFits();
    LonelyRoots();
    hide Clean, Compilable, SemanticRoots, Reachable, AllRoots, Flat, StandsUnder;
    forall u | 1 <= u <= 2
      ensures Reachable(Lonely(), SemanticRoots(Lonely()), u)
    {
      LonelyReachable(u);
    }
  }

  /** The validator accepts this document and it compiles, whatever the hashes, and the
      executor refuses the result. */
  method LonelyIsRefused(hashBytes: Bytes -> nat, hashLiteral: Literal -> nat,
                         hashKey: Key -> nat) returns (r: Outcome, admitted: bool)
    ensures Accepted(Lonely()) && r.Success? && !admitted
  {
    LonelyIsNarrow();
    hide Accepted, Clean, Compilable, NarrowGroup, Lonely;
    ghost var last, trace;
    r, admitted, last, trace := CompileAndAdmit(Lonely(), [], hashBytes, hashLiteral, hashKey);
  }
}
