/** Where source nodes end up: every node keeps its own live instruction, or it was
    merged into its parents and its flattened operands are all live. */
module NodeMaps {
  import opened Documents
  import opened Meanings
  import opened Programs
  import opened Constants
  import opened Candidates
  import opened Lowering
  import opened Lowerers
  import opened Roots
  import opened Compaction
  import opened Relayouts

  /** The rows that carry a root role. */
  function RootRows(flags: seq<set<Role>>): seq<bool> {
    seq(|flags|, i requires 0 <= i < |flags| => flags[i] != {})
  }

  ghost predicate NodeNeeded(doc: Document, c: Canonical, roots: seq<set<Role>>, e: Columns, u: NodeId)
    requires Clean(doc) && Lowered(doc, c, roots, e) && 1 <= u <= |doc.nodes|
  {
    NodeRow(doc, c, roots, e, u);
    Needed(e.program, RootRows(e.flags), CanonAt(e, u) - 1)
  }

  lemma NodeRow(doc: Document, c: Canonical, roots: seq<set<Role>>, e: Columns, u: NodeId)
    requires Clean(doc) && Lowered(doc, c, roots, e) && 1 <= u <= |doc.nodes|
    ensures 1 <= CanonAt(e, u) <= |e.program.rows| == |e.flags|
    ensures Ops(e.program, CanonAt(e, u) - 1) == KeyOf(doc, c, e, u).operands
    ensures e.program.rows[CanonAt(e, u) - 1].payload == KeyOf(doc, c, e, u).payload
  {
    hide KeyOf;
    assert NodeDone(doc, c, e, u);
  }

  /** The node is live itself, or it is a merged group with live operands. */
  ghost predicate Accounted(doc: Document, c: Canonical, roots: seq<set<Role>>, e: Columns, u: NodeId)
    requires Clean(doc) && Lowered(doc, c, roots, e) && 1 <= u <= |doc.nodes|
  {
    NodeNeeded(doc, c, roots, e, u) || (doc.nodes[u - 1].Group? && FlatNeeded(doc, c, roots, e, u))
  }

  ghost predicate FlatNeeded(doc: Document, c: Canonical, roots: seq<set<Role>>, e: Columns, u: NodeId)
    requires Clean(doc) && Lowered(doc, c, roots, e) && 1 <= u <= |doc.nodes| && doc.nodes[u - 1].Group?
  {
    FlattenedInRange(doc, u, |Out(doc, u)|);
    forall x :: x in Flat(doc, u) ==> NodeNeeded(doc, c, roots, e, x)
  }

  /** A semantic root has a live instruction. */
  lemma RootNeeded(doc: Document, c: Canonical, roots: seq<set<Role>>, e: Columns, u: NodeId)
    requires Clean(doc) && Lowered(doc, c, roots, e) && 1 <= u <= |doc.nodes| && u in AllRoots(doc)
    ensures NodeNeeded(doc, c, roots, e, u)
  {
    hide KeyOf, LoweredNodes, ApplicabilityRoots, AssertionRoots, EvidenceEdges;
    NodeRow(doc, c, roots, e, u);
    var r: Role := if u in ApplicabilityRoots(doc) then Applicability
                   else if u in AssertionRoots(doc) then Assertion else EvidenceRole;
    assert HasRole(doc, u, r);
    assert r in roots[u - 1];
    assert Carries(roots, e, CanonAt(e, u) - 1, r, u);
    assert r in e.flags[CanonAt(e, u) - 1];
  }

  /** An operand of a needed row is needed. */
  lemma OperandNeeded(p: Program, roots: seq<bool>, j: nat, id: InstructionId)
    requires Topological(p) && |roots| == |p.rows| && j < |p.rows| && Needed(p, roots, j) && id in Ops(p, j)
    ensures 1 <= id <= j && Needed(p, roots, id - 1)
  {
    hide Ops;
    assert RowOk(p, j);
  }

  lemma NeededGroupOperands(doc: Document, c: Canonical, roots: seq<set<Role>>, e: Columns, u: NodeId)
    requires Clean(doc) && Lowered(doc, c, roots, e) && 1 <= u <= |doc.nodes| && doc.nodes[u - 1].Group?
    requires NodeNeeded(doc, c, roots, e, u)
    ensures FlatNeeded(doc, c, roots, e, u)
  {
    hide Needed, LoweredNodes, FlagsOk, Owned, Ops, Clean, Lowered, Topological;
    NodeRow(doc, c, roots, e, u);
    FlattenedInRange(doc, u, |Out(doc, u)|);
    LoweredRows(doc, c, roots, e);
    var flat := Flat(doc, u);
    hide Flat;
    forall x | x in flat
      ensures NodeNeeded(doc, c, roots, e, x)
    {
      var k :| 0 <= k < |flat| && flat[k] == x;
      assert CanonAll(e, flat)[k] == CanonAt(e, x);
      OperandNeeded(e.program, RootRows(e.flags), CanonAt(e, u) - 1, CanonAt(e, x));
    }
  }

  lemma LoweredRows(doc: Document, c: Canonical, roots: seq<set<Role>>, e: Columns)
    requires Clean(doc) && Lowered(doc, c, roots, e)
    ensures |e.flags| == |e.program.rows| && Topological(e.program)
  {
    hide Clean, LoweredNodes, FlagsOk, Owned, Topological, RolesOk;
  }

  /** Child k's share of a flattened group is among the flattened operands. */
  lemma {:induction false} PieceInFlat(doc: Document, u: NodeId, k: nat, n: nat, x: NodeId)
    requires Clean(doc) && 1 <= u <= |doc.nodes| && doc.nodes[u - 1].Group? && k < n <= |Out(doc, u)|
    requires x in Piece(doc, u, k)
    ensures x in Flattened(doc, u, n)
    decreases n
  {
    hide Piece, Clean, Flattened, Out;
    FlattenedAppends(doc, u, n);
    if k < n - 1 {
      PieceInFlat(doc, u, k, n - 1, x);
    }
  }

  lemma FlattenedAppends(doc: Document, u: NodeId, n: nat)
    requires Clean(doc) && 1 <= u <= |doc.nodes| && doc.nodes[u - 1].Group? && 0 < n <= |Out(doc, u)|
    ensures Flattened(doc, u, n) == Flattened(doc, u, n - 1) + Piece(doc, u, n - 1)
  {
    hide Clean, Piece;
  }

  /** Being accounted for passes from a node to its children. */
  lemma AccountedStep(doc: Document, c: Canonical, roots: seq<set<Role>>, e: Columns, u: NodeId, v: NodeId)
    requires Clean(doc) && Lowered(doc, c, roots, e) && 1 <= u <= |doc.nodes| && Edge(doc, u, v)
    requires Accounted(doc, c, roots, e, u)
    ensures Accounted(doc, c, roots, e, v)
  {
    hide Needed, LoweredNodes, FlagsOk, Owned, Shaped, Flattened, Ops;
    var k :| 0 <= k < |Out(doc, u)| && Out(doc, u)[k] == v;
    if doc.nodes[u - 1].Group? {
      if NodeNeeded(doc, c, roots, e, u) {
        NeededGroupOperands(doc, c, roots, e, u);
      }
      if Merges(doc, doc.nodes[u - 1].conjunction, v) {
        MergedAccounted(doc, c, roots, e, u, k);
      } else {
        assert v in Piece(doc, u, k);
        PieceInFlat(doc, u, k, |Out(doc, u)|, v);
      }
    } else {
      NegatedNeeded(doc, c, roots, e, u);
    }
  }

  lemma MergedAccounted(doc: Document, c: Canonical, roots: seq<set<Role>>, e: Columns, u: NodeId, k: nat)
    requires Clean(doc) && Lowered(doc, c, roots, e) && 1 <= u <= |doc.nodes| && doc.nodes[u - 1].Group?
    requires FlatNeeded(doc, c, roots, e, u) && k < |Out(doc, u)|
    requires Merges(doc, doc.nodes[u - 1].conjunction, Out(doc, u)[k])
    ensures FlatNeeded(doc, c, roots, e, Out(doc, u)[k])
  {
    hide NodeNeeded, Lowered, Flattened;
    var v := Out(doc, u)[k];
    forall x | x in Flat(doc, v)
      ensures x in Flat(doc, u)
    {
      PieceInFlat(doc, u, k, |Out(doc, u)|, x);
    }
  }

  lemma NegatedNeeded(doc: Document, c: Canonical, roots: seq<set<Role>>, e: Columns, u: NodeId)
    requires Clean(doc) && Lowered(doc, c, roots, e) && 1 <= u <= |doc.nodes| && doc.nodes[u - 1].Negation?
    requires NodeNeeded(doc, c, roots, e, u)
    ensures Readable(doc, doc.nodes[u - 1].child) && NodeNeeded(doc, c, roots, e, doc.nodes[u - 1].child)
  {
    TargetsDescend(doc, u, 0);
    NodeRow(doc, c, roots, e, u);
    hide Needed, LoweredNodes, FlagsOk, Owned, Ops;
    OperandNeeded(e.program, RootRows(e.flags), CanonAt(e, u) - 1, CanonAt(e, doc.nodes[u - 1].child));
  }

  /** On an accepted document every node is accounted for. */
  lemma EveryNodeAccounted(doc: Document, c: Canonical, roots: seq<set<Role>>, e: Columns, u: NodeId)
    requires Accepted(doc) && Lowered(doc, c, roots, e) && 1 <= u <= |doc.nodes|
    ensures Accounted(doc, c, roots, e, u)
  {
    assert Reachable(doc, SemanticRoots(doc), u);
    var p :| Path(doc, p) && p[0] in SemanticRoots(doc) && p[|p| - 1] == u;
    var closed := set v | 1 <= v <= |doc.nodes| && Accounted(doc, c, roots, e, v);
    RootsAreSemantic(doc, p[0]);
    SemanticRootIsRoot(doc, p[0]);
    hide AllRoots, SemanticRoots, SemanticRoot, Lowered, Clean, Accounted, Path;
    PathStart(doc, p);
    RootAccounted(doc, c, roots, e, p[0]);
    forall a, b | a in closed && Edge(doc, a, b)
      ensures b in closed
    {
      AccountedStep(doc, c, roots, e, a, b);
    }
    ClosedHoldsPath(doc, closed, p);
  }

  lemma PathStart(doc: Document, p: seq<NodeId>)
    requires Path(doc, p)
    ensures |p| > 0 && 1 <= p[0] <= |doc.nodes|
  {
    assert Readable(doc, p[0]);
  }

  lemma RootAccounted(doc: Document, c: Canonical, roots: seq<set<Role>>, e: Columns, u: NodeId)
    requires Clean(doc) && Lowered(doc, c, roots, e) && 1 <= u <= |doc.nodes| && u in AllRoots(doc)
    ensures Accounted(doc, c, roots, e, u)
  {
    hide AllRoots, Lowered, NodeNeeded;
    RootNeeded(doc, c, roots, e, u);
  }

  /** The instructions of a node after compaction. */
  function Mapped(e: Columns, toFinal: seq<InstructionId>, u: NodeId): seq<InstructionId>
    requires MapOk(e, toFinal, u)
  {
    if toFinal[CanonAt(e, u) - 1] != 0 then [toFinal[CanonAt(e, u) - 1]] else Rename(FlatRange(e, u), toFinal)
  }

  /** A dead node has a kept operand range, and all of it is live. */
  ghost predicate MapOk(e: Columns, toFinal: seq<InstructionId>, u: NodeId) {
    && 1 <= CanonAt(e, u) <= |toFinal|
    && (toFinal[CanonAt(e, u) - 1] == 0 ==>
          && FlatRange(e, u) != []
          && forall k :: 0 <= k < |FlatRange(e, u)| ==>
               1 <= FlatRange(e, u)[k] <= |toFinal| && toFinal[FlatRange(e, u)[k] - 1] != 0)
  }

  /** Every node of an accepted document can be mapped. */
  lemma EveryNodeMaps(doc: Document, c: Canonical, roots: seq<set<Role>>, e: Columns, compacted: Compacted, u: NodeId)
    requires Accepted(doc) && Lowered(doc, c, roots, e) && CompactionOk(e.program, RootRows(e.flags), compacted)
    requires 1 <= u <= |doc.nodes|
    ensures MapOk(e, compacted.toFinal, u)
    ensures compacted.toFinal[CanonAt(e, u) - 1] == 0 ==> doc.nodes[u - 1].Group?
  {
    hide Needed, LoweredNodes, FlagsOk, Owned, Ops, Simulates, Topological;
    EveryNodeAccounted(doc, c, roots, e, u);
    NodeRow(doc, c, roots, e, u);
    var toFinal := compacted.toFinal;
    if toFinal[CanonAt(e, u) - 1] == 0 {
      FlatKept(doc, c, roots, e, u);
      FlattenedInRange(doc, u, |Out(doc, u)|);
      var flat := Flat(doc, u);
      forall k | 0 <= k < |flat|
        ensures 1 <= CanonAt(e, flat[k]) <= |toFinal| && toFinal[CanonAt(e, flat[k]) - 1] != 0
      {
        assert flat[k] in Flat(doc, u);
        NodeRow(doc, c, roots, e, flat[k]);
        assert NodeNeeded(doc, c, roots, e, flat[k]);
      }
    }
  }

  lemma FlatKept(doc: Document, c: Canonical, roots: seq<set<Role>>, e: Columns, u: NodeId)
    requires Clean(doc) && Lowered(doc, c, roots, e) && 1 <= u <= |doc.nodes| && doc.nodes[u - 1].Group?
    ensures FlatRange(e, u) == CanonAll(e, Flat(doc, u)) && FlatRange(e, u) != []
  {
    hide FlatRange;
    assert NodeDone(doc, c, e, u);
    GroupKeyNonempty(doc, c, e, u);
  }

  ghost predicate AllMapOk(e: Columns, toFinal: seq<InstructionId>) {
    forall u :: 1 <= u <= |e.canon| ==> MapOk(e, toFinal, u)
  }

  /** The number of instructions the first n nodes map to. */
  ghost function MapTotal(e: Columns, toFinal: seq<InstructionId>, n: nat): nat
    requires AllMapOk(e, toFinal) && n <= |e.canon|
  {
    if n == 0 then 0 else MapTotal(e, toFinal, n - 1) + |Mapped(e, toFinal, n)|
  }

  lemma {:induction false} MapTotalMonotone(e: Columns, toFinal: seq<InstructionId>, m: nat, n: nat)
    requires AllMapOk(e, toFinal) && m <= n <= |e.canon|
    ensures MapTotal(e, toFinal, m) <= MapTotal(e, toFinal, n)
    decreases n
  {
    hide Mapped;
    if m < n {
      MapTotalMonotone(e, toFinal, m, n - 1);
    }
  }

  lemma MapTotalNone(e: Columns, toFinal: seq<InstructionId>)
    requires AllMapOk(e, toFinal)
    ensures MapTotal(e, toFinal, 0) == 0
  {
  }

  lemma MappedWidth(e: Columns, toFinal: seq<InstructionId>, u: NodeId)
    requires AllMapOk(e, toFinal) && 1 <= u <= |e.canon| && |e.flatCount| == |e.flatStart| == |e.canon|
    ensures MapOk(e, toFinal, u) && 1 <= e.canon[u - 1] <= |toFinal|
    ensures |Mapped(e, toFinal, u)| == if toFinal[e.canon[u - 1] - 1] != 0 then 1 else e.flatCount[u - 1]
    ensures Mapped(e, toFinal, u) != []
    ensures MapTotal(e, toFinal, u) == MapTotal(e, toFinal, u - 1) + |Mapped(e, toFinal, u)|
  {
    assert MapOk(e, toFinal, u);
  }

  lemma MappedBounded(e: Columns, toFinal: seq<InstructionId>, u: NodeId, live: nat)
    requires MapOk(e, toFinal, u) && forall i :: 0 <= i < |toFinal| ==> toFinal[i] <= live
    ensures forall k :: 0 <= k < |Mapped(e, toFinal, u)| ==> 1 <= Mapped(e, toFinal, u)[k] <= live
  {
    hide FlatRange;
  }

  datatype NodeMap = NodeMap(starts: seq<nat>, counts: seq<nat>, ids: seq<InstructionId>)

  function NodeIds(m: NodeMap, u: NodeId): seq<InstructionId> {
    if 1 <= u <= |m.starts| && u <= |m.counts| then Range(m.ids, m.starts[u - 1], m.counts[u - 1]) else []
  }

  /** Measure every node's share, refusing totals beyond the index width. */
  method CountNodeMap(e: Columns,
                      toFinal: seq<InstructionId>) returns (status: Status, starts: seq<nat>, counts: seq<nat>)
    requires AllMapOk(e, toFinal) && |e.flatCount| == |e.flatStart| == |e.canon|
    ensures status == Done || status == TooLarge
    ensures status == Done <==> MapTotal(e, toFinal, |e.canon|) <= MAX_UINT32
    ensures status == Done ==> |starts| == |counts| == |e.canon|
    ensures status == Done ==> forall i :: 0 <= i < |e.canon| ==> starts[i] == MapTotal(e, toFinal, i)
    ensures status == Done ==> forall u :: 1 <= u <= |e.canon| ==> counts[u - 1] == |Mapped(e, toFinal, u)|
  {
    hide MapTotal, Mapped, MapOk;
    MapTotalNone(e, toFinal);
    starts, counts := [], [];
    var total := 0;
    for i := 0 to |e.canon|
      invariant |starts| == |counts| == i && total == MapTotal(e, toFinal, i) <= MAX_UINT32
      invariant forall k :: 0 <= k < i ==> starts[k] == MapTotal(e, toFinal, k)
      invariant forall u :: 1 <= u <= i ==> counts[u - 1] == |Mapped(e, toFinal, u)|
    {
      var u := i + 1;
      MappedWidth(e, toFinal, u);
      MapTotalMonotone(e, toFinal, u, |e.canon|);
      var canonical := e.canon[i];
      if canonical == 0 || canonical > |toFinal| {
        return InvalidDocument, starts, counts;
      }
      var count := 1;
      if toFinal[canonical - 1] == 0 {
        count := e.flatCount[i];
        if count == 0 {
          return InvalidDocument, starts, counts;
        }
      }
      starts, counts := starts + [total], counts + [count];
      total := total + count;
      if total > MAX_UINT32 {
        return TooLarge, starts, counts;
      }
    }
    status := Done;
  }

  /** Node u's instructions are listed where its share begins. */
  ghost predicate Listed(e: Columns, toFinal: seq<InstructionId>, ids: seq<InstructionId>, u: NodeId)
    requires AllMapOk(e, toFinal) && 1 <= u <= |e.canon|
  {
    && MapTotal(e, toFinal, u) <= |ids|
    && Range(ids, MapTotal(e, toFinal, u - 1), |Mapped(e, toFinal, u)|) == Mapped(e, toFinal, u)
  }

  lemma ListedSurvives(e: Columns, toFinal: seq<InstructionId>, ids: seq<InstructionId>, ids': seq<InstructionId>,
                       u: NodeId)
    requires AllMapOk(e, toFinal) && 1 <= u <= |e.canon| && Listed(e, toFinal, ids, u) && ids <= ids'
    ensures Listed(e, toFinal, ids', u)
  {
    hide Mapped;
  }

  lemma ListNext(e: Columns, toFinal: seq<InstructionId>, ids: seq<InstructionId>, u: NodeId)
    requires AllMapOk(e, toFinal) && 1 <= u <= |e.canon| && |ids| == MapTotal(e, toFinal, u - 1)
    ensures Listed(e, toFinal, ids + Mapped(e, toFinal, u), u)
    ensures |ids + Mapped(e, toFinal, u)| == MapTotal(e, toFinal, u)
  {
    hide Mapped;
  }

  /** Append the instructions of node u. */
  method AppendMapped(e: Columns, toFinal: seq<InstructionId>, live: nat, u: NodeId, ids: seq<InstructionId>)
    returns (ok: bool, ids': seq<InstructionId>)
    requires MapOk(e, toFinal, u) && forall i :: 0 <= i < |toFinal| ==> toFinal[i] <= live
    ensures ok && ids' == ids + Mapped(e, toFinal, u)
  {
    hide Rename, FlatRange;
    var final := toFinal[CanonAt(e, u) - 1];
    if final != 0 {
      ok, ids' := true, ids + [final];
    } else {
      ok, ids' := AppendOperands(FlatRange(e, u), toFinal, live, ids);
    }
  }

  /** List the instructions of every node, in node order. */
  method FillNodeMap(e: Columns, toFinal: seq<InstructionId>, live: nat) returns (ok: bool, ids: seq<InstructionId>)
    requires AllMapOk(e, toFinal) && |e.flatCount| == |e.flatStart| == |e.canon|
    requires forall i :: 0 <= i < |toFinal| ==> toFinal[i] <= live
    ensures ok && forall u :: 1 <= u <= |e.canon| ==> Listed(e, toFinal, ids, u)
    ensures forall k :: 0 <= k < |ids| ==> 1 <= ids[k] <= live
  {
    hide Mapped, MapTotal, MapOk, ListedTo;
    MapTotalNone(e, toFinal);
    ids := [];
    ListedNone(e, toFinal, live);
    for i := 0 to |e.canon|
      invariant ListedTo(e, toFinal, ids, live, i)
    {
      ListedNext(e, toFinal, ids, live, i);
      ok, ids := AppendMapped(e, toFinal, live, i + 1, ids);
      if !ok {
        return;
      }
    }
    ListedAll(e, toFinal, ids, live, |e.canon|);
    ok := true;
  }

  /** The nodes up to n are listed. */
  ghost predicate ListedTo(e: Columns, toFinal: seq<InstructionId>, ids: seq<InstructionId>, live: nat, n: nat)
    requires AllMapOk(e, toFinal) && n <= |e.canon|
  {
    && |ids| == MapTotal(e, toFinal, n)
    && (forall u :: 1 <= u <= n ==> Listed(e, toFinal, ids, u))
    && forall k :: 0 <= k < |ids| ==> 1 <= ids[k] <= live
  }

  lemma ListedNone(e: Columns, toFinal: seq<InstructionId>, live: nat)
    requires AllMapOk(e, toFinal)
    ensures ListedTo(e, toFinal, [], live, 0)
  {
    MapTotalNone(e, toFinal);
  }

  lemma ListedNext(e: Columns, toFinal: seq<InstructionId>, ids: seq<InstructionId>, live: nat, n: nat)
    requires AllMapOk(e, toFinal) && n < |e.canon| && ListedTo(e, toFinal, ids, live, n)
    requires |e.flatCount| == |e.flatStart| == |e.canon| && forall i :: 0 <= i < |toFinal| ==> toFinal[i] <= live
    ensures MapOk(e, toFinal, n + 1) && ListedTo(e, toFinal, ids + Mapped(e, toFinal, n + 1), live, n + 1)
  {
    hide Mapped, MapTotal, MapOk, Listed;
    MappedBounded(e, toFinal, n + 1, live);
    ListNext(e, toFinal, ids, n + 1);
    var next := ids + Mapped(e, toFinal, n + 1);
    forall u | 1 <= u <= n
      ensures Listed(e, toFinal, next, u)
    {
      ListedSurvives(e, toFinal, ids, next, u);
    }
  }

  lemma ListedAll(e: Columns, toFinal: seq<InstructionId>, ids: seq<InstructionId>, live: nat, n: nat)
    requires AllMapOk(e, toFinal) && n <= |e.canon| && ListedTo(e, toFinal, ids, live, n)
    ensures forall u :: 1 <= u <= n ==> Listed(e, toFinal, ids, u)
    ensures forall k :: 0 <= k < |ids| ==> 1 <= ids[k] <= live
  {
    hide Listed, MapTotal;
  }

  /** Build the node map. It fails only when the total overflows. */
  method BuildNodeInstructionMap(e: Columns, toFinal: seq<InstructionId>,
                                 live: nat) returns (status: Status, m: NodeMap)
    requires AllMapOk(e, toFinal) && |e.flatCount| == |e.flatStart| == |e.canon|
    requires forall i :: 0 <= i < |toFinal| ==> toFinal[i] <= live
    ensures status == if MapTotal(e, toFinal, |e.canon|) <= MAX_UINT32 then Done else TooLarge
    ensures status == Done ==> forall u :: 1 <= u <= |e.canon| ==> NodeIds(m, u) == Mapped(e, toFinal, u)
    ensures status == Done ==> |m.starts| == |m.counts| == |e.canon| && forall k :: 0 <= k < |m.ids| ==>
              1 <= m.ids[k] <= live
  {
    hide Mapped, MapTotal, MapOk;
    m := NodeMap([], [], []);
    var starts, counts;
    status, starts, counts := CountNodeMap(e, toFinal);
    if status != Done {
      return;
    }
    var ok, ids := FillNodeMap(e, toFinal, live);
    if !ok {
      return InvalidDocument, m;
    }
    m := NodeMap(starts, counts, ids);
    forall u | 1 <= u <= |e.canon|
      ensures NodeIds(m, u) == Mapped(e, toFinal, u)
    {
      assert Listed(e, toFinal, ids, u);
      assert starts[u - 1] == MapTotal(e, toFinal, u - 1);
    }
  }
}
