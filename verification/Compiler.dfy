/** The compiler back end as a whole: constants, lowering, dead-row removal, the
    node map, scheduling and slot assignment, and what executing the result gives. */
module Compiler {
  import opened Truth
  import opened Documents
  import opened Meanings
  import opened Programs
  import opened Constants
  import opened Candidates
  import opened Emission
  import opened Lowering
  import opened Lowerers
  import opened Roots
  import opened Relayouts
  import opened Compaction
  import opened NodeMaps
  import opened Schedule
  import opened Schedulers
  import opened Slots
  import opened Machine

  /** A compiled policy. `flags` are the root roles of the rows and `nodes` maps
      source nodes to instructions. */
  datatype Compiled = Compiled(
    constants: Canonical,
    program: Program,
    flags: seq<set<Role>>,
    runs: seq<Run>,
    nodes: NodeMap,
    truthSlots: seq<nat>,
    truthSlotCount: nat,
    reasonSlots: seq<nat>,
    reasonSlotCount: nat)

  /** Compaction followed by scheduling, as one rewriting of the candidate rows. */
  ghost predicate Rewritten(e: Columns, compacted: Compacted, scheduled: Scheduled) {
    && Topological(e.program) && |e.flags| == |e.program.rows|
    && CompactionOk(e.program, RootRows(e.flags), compacted)
    && ScheduledOk(compacted.program, scheduled)
  }

  /** Where candidate row i ends up; 0 when it is dropped. */
  function FinalRow(compacted: Compacted, scheduled: Scheduled, i: nat): InstructionId {
    if i < |compacted.toFinal| && 1 <= compacted.toFinal[i] <= |scheduled.oldToNew| then
      scheduled.oldToNew[compacted.toFinal[i] - 1]
    else 0
  }

  /** A kept candidate row computes the same value where it ends up. */
  lemma RewritingPreservesValue(e: Columns, compacted: Compacted, scheduled: Scheduled, leaf: Payload -> Cell, i: nat)
    requires Rewritten(e, compacted, scheduled) && i < |e.program.rows| && compacted.toFinal[i] != 0
    ensures 1 <= FinalRow(compacted, scheduled, i) <= |scheduled.program.rows|
    ensures Value(scheduled.program, leaf, FinalRow(compacted, scheduled, i) - 1) == Value(e.program, leaf, i)
  {
    hide Value, Needed, Tiled, Simulates, Topological;
    var j := compacted.toFinal[i] - 1;
    var f := scheduled.oldToNew[j] - 1;
    assert compacted.source[j] == i;
    assert scheduled.order[f] == j;
    SimulationValue(scheduled.program, compacted.program, scheduled.order, leaf, f);
    SimulationValue(compacted.program, e.program, compacted.source, leaf, j);
  }

  /** The instructions of a node in the scheduled program. */
  ghost predicate MapsTo(e: Columns, compacted: Compacted, scheduled: Scheduled, m: NodeMap, u: NodeId) {
    && MapOk(e, compacted.toFinal, u)
    && |compacted.toFinal| == |e.program.rows|
    && NodeIds(m, u) ==
       if compacted.toFinal[CanonAt(e, u) - 1] != 0 then [FinalRow(compacted, scheduled, CanonAt(e, u) - 1)]
       else seq(|FlatRange(e, u)|, k requires 0 <= k < |FlatRange(e, u)| =>
              FinalRow(compacted, scheduled, FlatRange(e, u)[k] - 1))
  }

  /** What a source node's instructions compute: its own instruction gives its
      meaning, and a merged group is the group of its instructions. */
  ghost predicate NodeComputes(doc: Document, out: Compiled, truth: Atom -> Cell, u: NodeId)
    requires Clean(doc) && 1 <= u <= |doc.nodes| && Topological(out.program)
  {
    var ids := NodeIds(out.nodes, u);
    && (forall k :: 0 <= k < |ids| ==> 1 <= ids[k] <= |out.program.rows|)
    && (|| (|ids| == 1 && Value(out.program, LeafTruth(out.constants, truth), ids[0] - 1) == Meaning(doc, truth, u))
        || (doc.nodes[u - 1].Group? && u !in AllRoots(doc) &&
            GroupOf(doc.nodes[u - 1].conjunction, Values(out.program, LeafTruth(out.constants, truth), ids)) ==
            Meaning(doc, truth, u)))
  }

  /** A node with a kept instruction: that instruction computes its meaning. */
  lemma KeptComputes(doc: Document, names: seq<Bytes>, c: Canonical, roots: seq<set<Role>>, e: Columns,
                     compacted: Compacted, scheduled: Scheduled, truth: Atom -> Cell, u: NodeId)
    requires Clean(doc) && CanonicalOk(c, names, doc.literals) && Lowered(doc, c, roots, e)
    requires Rewritten(e, compacted, scheduled)
    requires 1 <= u <= |doc.nodes| && 1 <= CanonAt(e, u) <= |compacted.toFinal|
    requires compacted.toFinal[CanonAt(e, u) - 1] != 0
    ensures Topological(scheduled.program)
    ensures 1 <= FinalRow(compacted, scheduled, CanonAt(e, u) - 1) <= |scheduled.program.rows|
    ensures Value(scheduled.program, LeafTruth(c, truth), FinalRow(compacted, scheduled, CanonAt(e, u) - 1) - 1) ==
            Meaning(doc, truth, u)
  {
    hide Value, Meaning, CanonicalOk, Clean, LeafTruth, FinalRow, CompactionOk, ScheduledOk;
    RewrittenShape(e, compacted, scheduled);
    RewritingPreservesValue(e, compacted, scheduled, LeafTruth(c, truth), CanonAt(e, u) - 1);
    LoweringPreservesMeaning(doc, names, c, e, truth, u);
  }

  lemma MergedComputes(doc: Document, names: seq<Bytes>, c: Canonical, roots: seq<set<Role>>, e: Columns,
                       compacted: Compacted, scheduled: Scheduled, ids: seq<InstructionId>,
                       truth: Atom -> Cell, u: NodeId)
    requires Accepted(doc) && CanonicalOk(c, names, doc.literals) && Lowered(doc, c, roots, e)
    requires Rewritten(e, compacted, scheduled)
    requires 1 <= u <= |doc.nodes| && doc.nodes[u - 1].Group? && MapOk(e, compacted.toFinal, u)
    requires compacted.toFinal[CanonAt(e, u) - 1] == 0
    requires |ids| == |FlatRange(e, u)|
    requires forall k :: 0 <= k < |ids| ==>
               FlatRange(e, u)[k] > 0 && ids[k] == FinalRow(compacted, scheduled, FlatRange(e, u)[k] - 1)
    ensures forall k :: 0 <= k < |ids| ==> 1 <= ids[k] <= |scheduled.program.rows|
    ensures GroupOf(doc.nodes[u - 1].conjunction, Values(scheduled.program, LeafTruth(c, truth), ids)) ==
            Meaning(doc, truth, u)
  {
    hide Value, GroupOf, Meaning, CanonicalOk, Clean, LeafTruth, Flat, Lowered, Rewritten, FinalRow, FlatRange,
         AllRoots, SemanticRoots, Topological;
    FlatKept(doc, c, roots, e, u);
    FlatMeaning(doc, truth, u);
    var flat, leaf := Flat(doc, u), LeafTruth(c, truth);
    RewrittenShape(e, compacted, scheduled);
    forall k | 0 <= k < |ids|
      ensures 1 <= ids[k] <= |scheduled.program.rows|
      ensures Value(scheduled.program, leaf, ids[k] - 1) == Meaning(doc, truth, flat[k])
    {
      assert CanonAll(e, flat)[k] == CanonAt(e, flat[k]);
      KeptComputes(doc, names, c, roots, e, compacted, scheduled, truth, flat[k]);
    }
    assert Values(scheduled.program, leaf, ids) == MeaningOf(doc, truth, flat);
  }

  lemma RewrittenShape(e: Columns, compacted: Compacted, scheduled: Scheduled)
    requires Rewritten(e, compacted, scheduled)
    ensures |compacted.toFinal| == |e.program.rows| && Topological(scheduled.program)
    ensures CompactionOk(e.program, RootRows(e.flags), compacted)
  {
  }

  lemma FlatMeaning(doc: Document, truth: Atom -> Cell, u: NodeId)
    requires Clean(doc) && 1 <= u <= |doc.nodes| && doc.nodes[u - 1].Group?
    ensures InRange(doc, Flat(doc, u))
    ensures GroupOf(doc.nodes[u - 1].conjunction, MeaningOf(doc, truth, Flat(doc, u))) == Meaning(doc, truth, u)
  {
    FlatteningPreservesMeaning(doc, truth, u, |Out(doc, u)|);
    MeaningUnfold(doc, truth, u);
    assert Out(doc, u)[..|Out(doc, u)|] == Out(doc, u);
  }

  /** One instruction with the meaning of the node is enough. */
  lemma OneComputes(doc: Document, out: Compiled, truth: Atom -> Cell, u: NodeId, id: InstructionId)
    requires Clean(doc) && 1 <= u <= |doc.nodes| && Topological(out.program) && NodeIds(out.nodes, u) == [id]
    requires 1 <= id <= |out.program.rows|
    requires Value(out.program, LeafTruth(out.constants, truth), id - 1) == Meaning(doc, truth, u)
    ensures NodeComputes(doc, out, truth, u)
  {
    hide Value, Meaning, Clean, Topological, LeafTruth, NodeIds;
  }

  lemma GroupComputes(doc: Document, out: Compiled, truth: Atom -> Cell, u: NodeId)
    requires Clean(doc) && 1 <= u <= |doc.nodes| && Topological(out.program) && doc.nodes[u - 1].Group?
    requires u !in AllRoots(doc)
    requires forall k :: 0 <= k < |NodeIds(out.nodes, u)| ==> 1 <= NodeIds(out.nodes, u)[k] <= |out.program.rows|
    requires GroupOf(doc.nodes[u - 1].conjunction,
                     Values(out.program, LeafTruth(out.constants, truth), NodeIds(out.nodes, u))) ==
             Meaning(doc, truth, u)
    ensures NodeComputes(doc, out, truth, u)
  {
    hide Value, Meaning, Clean, Topological, LeafTruth, NodeIds, GroupOf, AllRoots;
  }

  /** Every stage together preserves the meaning of every source node. */
  lemma CompilationPreservesMeaning(doc: Document, names: seq<Bytes>, roots: seq<set<Role>>, e: Columns,
                                    compacted: Compacted, scheduled: Scheduled, out: Compiled,
                                    truth: Atom -> Cell, u: NodeId)
    requires Accepted(doc) && CanonicalOk(out.constants, names, doc.literals) && Lowered(doc, out.constants, roots, e)
    requires Rewritten(e, compacted, scheduled) && out.program == scheduled.program && 1 <= u <= |doc.nodes|
    requires MapsTo(e, compacted, scheduled, out.nodes, u)
    ensures Topological(out.program) && NodeComputes(doc, out, truth, u)
  {
    hide Value, GroupOf, Meaning, CanonicalOk, Clean, LeafTruth, AllRoots, Lowered, CompactionOk, FinalRow, FlatRange,
         Topological,
         MapsTo, MapOk, NodeIds, Accepted, Values, Rewritten, NodeComputes, CanonAt;
    var c := out.constants;
    AcceptedIsClean(doc);
    RewrittenShape(e, compacted, scheduled);
    EveryNodeMaps(doc, c, roots, e, compacted, u);
    MappedIds(e, compacted, scheduled, out.nodes, u);
    if compacted.toFinal[CanonAt(e, u) - 1] != 0 {
      KeptComputes(doc, names, c, roots, e, compacted, scheduled, truth, u);
      OneComputes(doc, out, truth, u, FinalRow(compacted, scheduled, CanonAt(e, u) - 1));
    } else {
      if u in AllRoots(doc) {
        RootKept(doc, c, roots, e, compacted, u);
      }
      MergedComputes(doc, names, c, roots, e, compacted, scheduled, NodeIds(out.nodes, u), truth, u);
      GroupComputes(doc, out, truth, u);
    }
  }

  lemma AcceptedIsClean(doc: Document)
    requires Accepted(doc)
    ensures Clean(doc) && InTable(doc, AllRoots(doc))
  {
  }

  lemma MappedIds(e: Columns, compacted: Compacted, scheduled: Scheduled, m: NodeMap, u: NodeId)
    requires MapsTo(e, compacted, scheduled, m, u)
    ensures MapOk(e, compacted.toFinal, u) && 1 <= CanonAt(e, u) <= |compacted.toFinal| == |e.program.rows|
    ensures compacted.toFinal[CanonAt(e, u) - 1] != 0 ==>
              NodeIds(m, u) == [FinalRow(compacted, scheduled, CanonAt(e, u) - 1)]
    ensures compacted.toFinal[CanonAt(e, u) - 1] == 0 ==>
              && |NodeIds(m, u)| == |FlatRange(e, u)|
              && forall k :: 0 <= k < |NodeIds(m, u)| ==>
                   FlatRange(e, u)[k] > 0 && NodeIds(m, u)[k] == FinalRow(compacted, scheduled, FlatRange(e, u)[k] - 1)
  {
  }

  /** A semantic root keeps its instruction. */
  lemma RootKept(doc: Document, c: Canonical, roots: seq<set<Role>>, e: Columns, compacted: Compacted, u: NodeId)
    requires Clean(doc) && Lowered(doc, c, roots, e) && CompactionOk(e.program, RootRows(e.flags), compacted)
    requires 1 <= u <= |doc.nodes| && u in AllRoots(doc)
    ensures 1 <= CanonAt(e, u) <= |compacted.toFinal| && compacted.toFinal[CanonAt(e, u) - 1] != 0
  {
    hide Needed, AllRoots, LoweredNodes, FlagsOk, Owned, KeyOf, Simulates, Topological, Ops;
    NodeRow(doc, c, roots, e, u);
    RootNeeded(doc, c, roots, e, u);
  }

  /** The roles of the rows in schedule order. */
  function FinalFlags(flags: seq<set<Role>>, source: seq<nat>, order: seq<nat>): seq<set<Role>>
    requires forall j :: 0 <= j < |order| ==> order[j] < |source| && source[order[j]] < |flags|
  {
    seq(|order|, j requires 0 <= j < |order| => flags[source[order[j]]])
  }

  lemma FinalFlagsDefined(e: Columns, compacted: Compacted, scheduled: Scheduled)
    requires Rewritten(e, compacted, scheduled)
    ensures forall j :: 0 <= j < |scheduled.order| ==>
              scheduled.order[j] < |compacted.source| && compacted.source[scheduled.order[j]] < |e.flags|
  {
    hide Needed, Tiled, Ops, Topological;
    forall j | 0 <= j < |scheduled.order|
      ensures scheduled.order[j] < |compacted.source| && compacted.source[scheduled.order[j]] < |e.flags|
    {
      assert Matches(compacted.program, e.program, compacted.source, scheduled.order[j]);
    }
  }

  /** Renumber the node map into schedule order. */
  method RenameNodeMap(m: NodeMap, oldToNew: seq<InstructionId>) returns (ok: bool, r: NodeMap)
    requires forall k :: 0 <= k < |m.ids| ==> 1 <= m.ids[k] <= |oldToNew| && oldToNew[m.ids[k] - 1] != 0
    requires forall i :: 0 <= i < |oldToNew| ==> oldToNew[i] <= |oldToNew|
    ensures ok && r.starts == m.starts && r.counts == m.counts && |r.ids| == |m.ids|
    ensures forall k :: 0 <= k < |m.ids| ==> r.ids[k] == oldToNew[m.ids[k] - 1]
  {
    var ids;
    ok, ids := AppendOperands(m.ids, oldToNew, |oldToNew|, []);
    r := NodeMap(m.starts, m.counts, ids);
  }

  lemma RenamedMapsTo(e: Columns, compacted: Compacted, scheduled: Scheduled, m: NodeMap, r: NodeMap, u: NodeId)
    requires Rewritten(e, compacted, scheduled) && MapOk(e, compacted.toFinal, u)
    requires NodeIds(m, u) == Mapped(e, compacted.toFinal, u)
    requires r.starts == m.starts && r.counts == m.counts && |r.ids| == |m.ids|
    requires forall k :: 0 <= k < |m.ids| ==>
               1 <= m.ids[k] <= |scheduled.oldToNew| && r.ids[k] == scheduled.oldToNew[m.ids[k] - 1]
    ensures MapsTo(e, compacted, scheduled, r, u)
  {
    RewrittenShape(e, compacted, scheduled);
    RenamedIds(m, r, scheduled.oldToNew, u);
    hide Rewritten, FlatRange, CanonAt, NodeIds;
    if compacted.toFinal[CanonAt(e, u) - 1] == 0 {
      var range := FlatRange(e, u);
      forall k | 0 <= k < |range|
        ensures NodeIds(r, u)[k] == FinalRow(compacted, scheduled, range[k] - 1)
      {
        assert Mapped(e, compacted.toFinal, u)[k] == compacted.toFinal[range[k] - 1];
      }
    }
  }

  lemma RenamedIds(m: NodeMap, r: NodeMap, oldToNew: seq<InstructionId>, u: NodeId)
    requires r.starts == m.starts && r.counts == m.counts && |r.ids| == |m.ids|
    requires forall k :: 0 <= k < |m.ids| ==> 1 <= m.ids[k] <= |oldToNew| && r.ids[k] == oldToNew[m.ids[k] - 1]
    ensures |NodeIds(r, u)| == |NodeIds(m, u)|
    ensures forall k :: 0 <= k < |NodeIds(m, u)| ==>
              1 <= NodeIds(m, u)[k] <= |oldToNew| && NodeIds(r, u)[k] == oldToNew[NodeIds(m, u)[k] - 1]
  {
  }

  /** Roots have one instruction, and it carries a root role. */
  ghost predicate RootsKept(doc: Document, out: Compiled) {
    && |out.flags| == |out.program.rows|
    && |out.nodes.starts| == |out.nodes.counts| == |doc.nodes|
    && forall u :: u in AllRoots(doc) ==> RootKeptAt(doc, out, u)
  }

  ghost predicate RootKeptAt(doc: Document, out: Compiled, u: NodeId) {
    && |NodeIds(out.nodes, u)| == 1
    && 1 <= NodeIds(out.nodes, u)[0] <= |out.flags|
    && forall r :: HasRole(doc, u, r) ==> r in out.flags[NodeIds(out.nodes, u)[0] - 1]
  }

  /** A compiled policy is right for a document: it can be executed with its slots,
      every node computes its meaning, and roots can be read back. */
  ghost predicate CompiledOk(doc: Document, out: Compiled, last: seq<nat>)
    requires Clean(doc)
  {
    && Runnable(Bound(out.program, out.truthSlots, out.truthSlotCount), RootRows(out.flags), last)
    && Runnable(Bound(out.program, out.reasonSlots, out.reasonSlotCount), RootRows(out.flags), last)
    && RootsKept(doc, out)
    && forall truth: Atom -> Cell, u :: 1 <= u <= |doc.nodes| ==> NodeComputes(doc, out, truth, u)
  }

  lemma RootStaysKept(doc: Document, c: Canonical, roots: seq<set<Role>>, e: Columns, compacted: Compacted,
                      scheduled: Scheduled,
                      out: Compiled, u: NodeId)
    requires Clean(doc) && Lowered(doc, c, roots, e) && Rewritten(e, compacted, scheduled)
    requires InTable(doc, AllRoots(doc))
    requires forall j :: 0 <= j < |scheduled.order| ==>
               scheduled.order[j] < |compacted.source| && compacted.source[scheduled.order[j]] < |e.flags|
    requires out.flags == FinalFlags(e.flags, compacted.source, scheduled.order)
    requires u in AllRoots(doc) && MapsTo(e, compacted, scheduled, out.nodes, u)
    ensures RootKeptAt(doc, out, u)
  {
    hide AllRoots, Needed, Simulates, Topological, Tiled, HasRole, LoweredNodes, Owned, Shaped, FlatRange;
    assert 1 <= u <= |doc.nodes|;
    RootKept(doc, c, roots, e, compacted, u);
    var i := CanonAt(e, u) - 1;
    var j := compacted.toFinal[i] - 1;
    var f := scheduled.oldToNew[j] - 1;
    assert compacted.source[j] == i && scheduled.order[f] == j;
    assert out.flags[f] == e.flags[i];
    forall r | HasRole(doc, u, r)
      ensures r in e.flags[i]
    {
      assert Carries(roots, e, i, r, u);
    }
  }

  /** Every row of the scheduled program is needed by some root. */
  lemma ScheduledRowsNeeded(e: Columns, compacted: Compacted, scheduled: Scheduled, flags: seq<set<Role>>, f: nat)
    requires Rewritten(e, compacted, scheduled) && f < |scheduled.program.rows|
    requires forall j :: 0 <= j < |scheduled.order| ==>
               scheduled.order[j] < |compacted.source| && compacted.source[scheduled.order[j]] < |e.flags|
    requires flags == FinalFlags(e.flags, compacted.source, scheduled.order)
    ensures Needed(scheduled.program, RootRows(flags), f)
  {
    hide Needed, Tiled, Topological, Ops;
    var q, p := compacted.program, e.program;
    var kept := seq(|compacted.source|, j requires 0 <= j < |compacted.source| => KeptFlags(e, compacted, j));
    var j := scheduled.order[f];
    forall j | 0 <= j < |q.rows|
      ensures compacted.source[j] < |p.rows| && RootRows(kept)[j] == RootRows(e.flags)[compacted.source[j]]
    {
      assert Matches(q, p, compacted.source, j);
    }
    forall j | 0 <= j < |q.rows|
      ensures Needed(q, RootRows(kept), j)
    {
      assert compacted.toFinal[compacted.source[j]] == j + 1;
      NeedTransfers(q, p, compacted.source, compacted.toFinal, RootRows(kept), RootRows(e.flags), compacted.source[j]);
    }
    assert scheduled.oldToNew[j] == f + 1;
    NeedTransfers(scheduled.program, q, scheduled.order, scheduled.oldToNew, RootRows(flags), RootRows(kept), j);
  }

  function KeptFlags(e: Columns, compacted: Compacted, j: nat): set<Role> {
    if j < |compacted.source| && compacted.source[j] < |e.flags| then e.flags[compacted.source[j]] else {}
  }

  lemma UsesAreInRange(p: Program, roots: seq<bool>, last: seq<nat>, live: seq<bool>)
    requires LastUsesOk(p, roots, last) && |live| == |last|
    ensures UsesInRange(last, live, |last|)
  {
    forall i | 0 <= i < |last|
      ensures i <= last[i] <= |last|
    {
      assert LastUseOk(p, roots, last, i);
    }
  }

  /** Both slot plans. Reasons are kept for the rows some root needs; when that is
      every row, both plans serve the whole program. */
  method AssignSlots(p: Program, roots: seq<bool>)
    returns (truth: Allocation, reason: Allocation, ghost last: seq<nat>)
    requires Topological(p) && |roots| == |p.rows| <= MAX_UINT32
    requires forall i :: 0 <= i < |p.rows| ==> Needed(p, roots, i)
    ensures truth.Planned? && Runnable(Bound(p, truth.slots, truth.peak), roots, last)
    ensures reason.Planned? && Runnable(Bound(p, reason.slots, reason.peak), roots, last)
    ensures truth.peak == reason.peak == MaxWidth(last, seq(|last|, _ => true), |last|)
  {
    hide Topological, Ops, Needed, MaxWidth, LastUseOk;
    TopologicalIsOrdered(p);
    var uses := ComputeLastUses(p, roots);
    last := uses;
    var all := seq(|uses|, _ => true);
    UsesAreInRange(p, roots, uses, all);
    truth := AllocateSlots(uses, all, true);
    var marked, live := MarkLive(p, roots);
    assert live == all;
    reason := AllocateSlots(uses, live, true);
  }

  /** A node maps to one instruction, or to as many as it has flattened operands. */
  lemma NodeShare(doc: Document, c: Canonical, roots: seq<set<Role>>, e: Columns, compacted: Compacted, u: NodeId)
    requires Accepted(doc) && Lowered(doc, c, roots, e) && CompactionOk(e.program, RootRows(e.flags), compacted)
    requires 1 <= u <= |doc.nodes| && MapOk(e, compacted.toFinal, u)
    ensures |Mapped(e, compacted.toFinal, u)| <= 1 + SlabNeed(doc, u)
  {
    hide CompactionOk, Lowered, Clean, AllRoots, SemanticRoots, CanonAt, FlatRange, Flat, RootRows;
    EveryNodeMaps(doc, c, roots, e, compacted, u);
    if compacted.toFinal[CanonAt(e, u) - 1] == 0 {
      FlatKept(doc, c, roots, e, u);
    }
  }

  lemma {:induction false} SharesAddUp(doc: Document, e: Columns, toFinal: seq<InstructionId>, n: nat)
    requires Clean(doc) && AllMapOk(e, toFinal) && n <= |doc.nodes| == |e.canon|
    requires forall u :: 1 <= u <= n ==> |Mapped(e, toFinal, u)| <= 1 + SlabNeed(doc, u)
    ensures MapTotal(e, toFinal, n) <= n + SlabTotal(doc, n)
  {
    hide Clean, Mapped, MapOk, SlabNeed;
    if n > 0 {
      SharesAddUp(doc, e, toFinal, n - 1);
    }
  }

  /** The node map of an accepted document has at most one entry per node plus the
      flattened operands. */
  lemma MapTotalBound(doc: Document, c: Canonical, roots: seq<set<Role>>, e: Columns, compacted: Compacted)
    requires Accepted(doc) && Lowered(doc, c, roots, e) && CompactionOk(e.program, RootRows(e.flags), compacted)
    requires AllMapOk(e, compacted.toFinal) && |doc.nodes| == |e.canon|
    ensures MapTotal(e, compacted.toFinal, |doc.nodes|) <= |doc.nodes| + SlabTotal(doc, |doc.nodes|)
  {
    AcceptedIsClean(doc);
    hide Accepted, CompactionOk, Lowered, Clean, Mapped, MapOk, SlabNeed, RootRows, MapTotal, SlabTotal;
    forall u | 1 <= u <= |doc.nodes|
      ensures |Mapped(e, compacted.toFinal, u)| <= 1 + SlabNeed(doc, u)
    {
      NodeShare(doc, c, roots, e, compacted, u);
    }
    SharesAddUp(doc, e, compacted.toFinal, |doc.nodes|);
  }

  /** The sizes within which compilation succeeds. */
  ghost predicate Compilable(doc: Document, names: seq<Bytes>)
    requires Clean(doc)
  {
    && |doc.requirements| > 0 && |doc.clauses| > 0
    && ConstantsFit(names, doc.literals)
    && Fits(doc)
    && |doc.nodes| + SlabTotal(doc, |doc.nodes|) <= MAX_UINT32
  }

  datatype Outcome = Success(program: Compiled) | EmptyPolicy | Failure(status: Status)

  lemma EveryNodeMapsAll(doc: Document, c: Canonical, roots: seq<set<Role>>, e: Columns, compacted: Compacted)
    requires Accepted(doc) && Lowered(doc, c, roots, e) && CompactionOk(e.program, RootRows(e.flags), compacted)
    ensures AllMapOk(e, compacted.toFinal) && |e.canon| == |e.flatStart| == |e.flatCount| == |doc.nodes|
    ensures forall i :: 0 <= i < |compacted.toFinal| ==> compacted.toFinal[i] <= |compacted.source|
  {
    hide Needed, LoweredNodes, Owned, FlagsOk, Clean, AllRoots, MapOk, Topological, Simulates;
    forall u | 1 <= u <= |e.canon|
      ensures MapOk(e, compacted.toFinal, u)
    {
      EveryNodeMaps(doc, c, roots, e, compacted, u);
    }
  }

  lemma LoweredShape(doc: Document, c: Canonical, roots: seq<set<Role>>, e: Columns)
    requires Accepted(doc) && Lowered(doc, c, roots, e) && Fits(doc)
    ensures Clean(doc) && Topological(e.program) && |e.flags| == |e.program.rows| <= MAX_UINT32
    ensures |e.canon| == |doc.nodes|
  {
  }

  lemma CompactedShape(e: Columns, compacted: Compacted)
    requires CompactionOk(e.program, RootRows(e.flags), compacted)
    ensures Topological(compacted.program) && |compacted.source| == |compacted.program.rows| <= |e.program.rows|
  {
  }

  lemma ScheduledShape(e: Columns, compacted: Compacted, scheduled: Scheduled)
    requires Topological(e.program) && |e.flags| == |e.program.rows|
    requires CompactionOk(e.program, RootRows(e.flags), compacted) && ScheduledOk(compacted.program, scheduled)
    ensures Rewritten(e, compacted, scheduled) && Topological(scheduled.program)
    ensures Tiled(compacted.program, scheduled.order, scheduled.runs)
    ensures |scheduled.oldToNew| == |scheduled.order| == |scheduled.program.rows| == |compacted.source|
    ensures forall i :: 0 <= i < |scheduled.oldToNew| ==> 1 <= scheduled.oldToNew[i] <= |scheduled.oldToNew|
  {
  }

  lemma AllNeeded(e: Columns, compacted: Compacted, scheduled: Scheduled, flags: seq<set<Role>>)
    requires Rewritten(e, compacted, scheduled)
    requires forall j :: 0 <= j < |scheduled.order| ==>
               scheduled.order[j] < |compacted.source| && compacted.source[scheduled.order[j]] < |e.flags|
    requires flags == FinalFlags(e.flags, compacted.source, scheduled.order)
    ensures |RootRows(flags)| == |flags| == |scheduled.program.rows|
    ensures forall f :: 0 <= f < |scheduled.program.rows| ==> Needed(scheduled.program, RootRows(flags), f)
  {
    hide Needed, CompactionOk, Tiled, Simulates, Topological;
    forall f | 0 <= f < |scheduled.program.rows|
      ensures Needed(scheduled.program, RootRows(flags), f)
    {
      ScheduledRowsNeeded(e, compacted, scheduled, flags, f);
    }
  }

  lemma MapOkAt(e: Columns, toFinal: seq<InstructionId>, u: NodeId)
    requires AllMapOk(e, toFinal) && 1 <= u <= |e.canon|
    ensures MapOk(e, toFinal, u)
  {
  }

  /** The finished program is right for the document. */
  lemma Conclude(doc: Document, names: seq<Bytes>, roots: seq<set<Role>>, e: Columns,
                 compacted: Compacted, scheduled: Scheduled, out: Compiled, last: seq<nat>)
    requires Accepted(doc) && CanonicalOk(out.constants, names, doc.literals) && Lowered(doc, out.constants, roots, e)
    requires Rewritten(e, compacted, scheduled) && out.program == scheduled.program && |out.flags| == |out.program.rows|
    requires |out.nodes.starts| == |out.nodes.counts| == |doc.nodes|
    requires forall j :: 0 <= j < |scheduled.order| ==>
               scheduled.order[j] < |compacted.source| && compacted.source[scheduled.order[j]] < |e.flags|
    requires out.flags == FinalFlags(e.flags, compacted.source, scheduled.order)
    requires forall u :: 1 <= u <= |doc.nodes| ==> MapsTo(e, compacted, scheduled, out.nodes, u)
    requires Runnable(Bound(out.program, out.truthSlots, out.truthSlotCount), RootRows(out.flags), last)
    requires Runnable(Bound(out.program, out.reasonSlots, out.reasonSlotCount), RootRows(out.flags), last)
    ensures Clean(doc) && CompiledOk(doc, out, last)
  {
    AcceptedIsClean(doc);
    hide Clean, Accepted, CanonicalOk, Lowered, Rewritten, MapsTo, Runnable, NodeComputes, FinalFlags, AllRoots,
         RootKeptAt, Topological;
    forall truth: Atom -> Cell, u | 1 <= u <= |doc.nodes|
      ensures Topological(out.program) && NodeComputes(doc, out, truth, u)
    {
      CompilationPreservesMeaning(doc, names, roots, e, compacted, scheduled, out, truth, u);
    }
    forall u | u in AllRoots(doc)
      ensures RootKeptAt(doc, out, u)
    {
      RootStaysKept(doc, out.constants, roots, e, compacted, scheduled, out, u);
    }
    RunnableShape(Bound(out.program, out.truthSlots, out.truthSlotCount), RootRows(out.flags), last);
  }

  lemma RunnableShape(b: Bound, roots: seq<bool>, last: seq<nat>)
    requires Runnable(b, roots, last)
    ensures Topological(b.program) && |b.slots| == |b.program.rows| == |roots|
    ensures forall i :: 0 <= i < |b.slots| ==> 1 <= b.slots[i] <= b.slotCount
  {
  }

  /** The intermediate forms of a compilation. */
  datatype Trace = Trace(roots: seq<set<Role>>, columns: Columns, compacted: Compacted, scheduled: Scheduled)

  ghost predicate Traced(doc: Document, out: Compiled, trace: Trace)
    requires Clean(doc)
  {
    && Lowered(doc, out.constants, trace.roots, trace.columns)
    && Rewritten(trace.columns, trace.compacted, trace.scheduled)
    && out.program == trace.scheduled.program && |out.program.rows| <= MAX_UINT32
    && Tiled(trace.compacted.program, trace.scheduled.order, out.runs)
  }

  /** The stages after lowering. */
  method Finish(doc: Document, ghost names: seq<Bytes>, c: Canonical, ghost roots: seq<set<Role>>, e: Columns)
    returns (r: Outcome, ghost last: seq<nat>, ghost trace: Trace)
    requires Accepted(doc) && CanonicalOk(c, names, doc.literals) && Lowered(doc, c, roots, e) && Fits(doc)
    ensures r.Success? || r == Failure(Status.TooLarge)
    ensures |doc.nodes| + SlabTotal(doc, |doc.nodes|) <= MAX_UINT32 ==> r.Success?
    ensures Clean(doc)
    ensures (r.Success? ==>
               CompiledOk(doc, r.program, last) && Traced(doc, r.program, trace) && r.program.constants == c)
    ensures r.Success? ==> r.program.truthSlotCount == MaxWidth(last, seq(|last|, _ => true), |last|)
  {
    last, trace := [], Trace(roots, e, Compacted(e.program, [], []), Scheduled(e.program, [], [], []));
    LoweredShape(doc, c, roots, e);
    hide Accepted, CanonicalOk, Lowered, Fits, CompactionOk, ScheduledOk, Topological, Needed, AllMapOk, MapTotal,
         Mapped, MaxWidth, CompiledOk,
         SlabTotal, Runnable, MapsTo, FinalFlags;
    var ok, compacted := Compact(e.program, RootRows(e.flags));
    EveryNodeMapsAll(doc, c, roots, e, compacted);
    MapTotalBound(doc, c, roots, e, compacted);
    var status, m := BuildNodeInstructionMap(e, compacted.toFinal, |compacted.source|);
    if status != Done {
      return Failure(status), last, trace;
    }
    CompactedShape(e, compacted);
    var scheduled;
    ok, scheduled := ScheduleInstructions(compacted.program);
    ScheduledShape(e, compacted, scheduled);
    var nodes;
    ok, nodes := RenameNodeMap(m, scheduled.oldToNew);
    FinalFlagsDefined(e, compacted, scheduled);
    var flags := FinalFlags(e.flags, compacted.source, scheduled.order);
    AllNeeded(e, compacted, scheduled, flags);
    var truth, reason;
    truth, reason, last := AssignSlots(scheduled.program, RootRows(flags));
    var out := Compiled(c, scheduled.program, flags, scheduled.runs, nodes, truth.slots, truth.peak, reason.slots,
                        reason.peak);
    forall u | 1 <= u <= |doc.nodes|
      ensures MapsTo(e, compacted, scheduled, nodes, u)
    {
      MapOkAt(e, compacted.toFinal, u);
      RenamedMapsTo(e, compacted, scheduled, m, nodes, u);
    }
    Conclude(doc, names, roots, e, compacted, scheduled, out, last);
    trace := Trace(roots, e, compacted, scheduled);
    r := Success(out);
  }

  /** Compile an accepted document. Within the size limits it succeeds, and then
      every source node computes its meaning under every truth of its atoms. */
  method Compile(doc: Document, names: seq<Bytes>, hashBytes: Bytes -> nat, hashLiteral: Literal -> nat,
                 hashKey: Key -> nat)
    returns (r: Outcome, ghost last: seq<nat>, ghost trace: Trace)
    requires Accepted(doc)
    ensures Clean(doc) && (Compilable(doc, names) ==> r.Success?)
    ensures r.Success? ==> |doc.requirements| > 0 && Traced(doc, r.program, trace)
    ensures r.Success? ==> CompiledOk(doc, r.program, last) && CanonicalOk(r.program.constants, names, doc.literals)
    ensures r.Success? ==> r.program.truthSlotCount == MaxWidth(last, seq(|last|, _ => true), |last|)
  {
    AcceptedIsClean(doc);
    var none := EmptyColumns(0, 0);
    last, trace := [], Trace([], none, Compacted(none.program, [], []), Scheduled(none.program, [], [], []));
    if |doc.requirements| == 0 || |doc.clauses| == 0 {
      return EmptyPolicy, last, trace;
    }
    hide Clean, Accepted, CanonicalOk, ConstantsFit, Fits, CompiledOk, Lowered, MaxWidth, SlabTotal, Traced;
    var status, c := LowerConstants(names, doc.literals, hashBytes, hashLiteral);
    if status != Done {
      return Failure(status), last, trace;
    }
    var roots, e;
    status, roots, e := LowerCandidates(doc, c, hashKey);
    if status != Done {
      return Failure(status), last, trace;
    }
    r, last, trace := Finish(doc, names, c, roots, e);
  }

  /** The instruction a root resolves to; anything but one instruction is an error. */
  method RootInstruction(m: NodeMap, node: NodeId, sourceNodes: nat,
                         instructions: nat) returns (status: Status, id: InstructionId)
    ensures status == Done <==>
              && 1 <= node <= sourceNodes && node <= |m.starts| && node <= |m.counts|
              && |NodeIds(m, node)| == 1 && 1 <= NodeIds(m, node)[0] <= instructions
    ensures status == InvalidDocument <==> node == 0 || node > sourceNodes
    ensures status == Done ==> id == NodeIds(m, node)[0]
  {
    id := 0;
    if node == 0 || node > sourceNodes {
      return InvalidDocument, 0;
    }
    if node > |m.starts| || node > |m.counts| {
      return InvalidProgram, 0;
    }
    var start, count := m.starts[node - 1], m.counts[node - 1];
    if count != 1 || start >= |m.ids| {
      return InvalidProgram, 0;
    }
    id := m.ids[start];
    if id == 0 || id > instructions {
      return InvalidProgram, id;
    }
    status := Done;
  }

  /** Executing a compiled policy with reused slots leaves, for every applicability
      root, assertion root and evidence edge, the meaning of its source node. The leaf
      rows may be evaluated in any way that gives the truth of their atoms. */
  method EvaluateWith(doc: Document, out: Compiled, ghost last: seq<nat>, leaf: Payload -> Cell,
                      ghost truth: Atom -> Cell, root: NodeId)
    returns (status: Status, cell: Cell)
    requires Accepted(doc) && Clean(doc) && CompiledOk(doc, out, last) && root in AllRoots(doc)
    requires AgreeOnLeaves(out.program, leaf, LeafTruth(out.constants, truth))
    ensures status == Done && 1 <= root <= |doc.nodes| && cell == Meaning(doc, truth, root)
  {
    hide Clean, Runnable, Value, Meaning, Topological, AllRoots, Accepted, LeafTruth, AgreeOnLeaves, CompiledOk;
    AcceptedIsClean(doc);
    RootFacts(doc, out, last, truth, root);
    var id;
    status, id := RootInstruction(out.nodes, root, |doc.nodes|, |out.program.rows|);
    cell := Cell(false, false, {});
    if status != Done {
      return;
    }
    AgreeingLeaves(out.program, leaf, LeafTruth(out.constants, truth), id - 1);
    cell := ReadRoot(doc, out, last, leaf, id);
  }

  /** A root resolves to one flagged instruction, which computes its meaning. */
  lemma RootFacts(doc: Document, out: Compiled, last: seq<nat>, truth: Atom -> Cell, root: NodeId)
    requires Accepted(doc) && Clean(doc) && CompiledOk(doc, out, last) && root in AllRoots(doc)
    requires 1 <= root <= |doc.nodes|
    ensures Topological(out.program) && |NodeIds(out.nodes, root)| == 1 && root <= |out.nodes.starts|
    ensures root <= |out.nodes.counts|
    ensures var id := NodeIds(out.nodes, root)[0];
            && 1 <= id <= |out.program.rows| == |out.flags| && out.flags[id - 1] != {}
            && Value(out.program, LeafTruth(out.constants, truth), id - 1) == Meaning(doc, truth, root)
  {
    hide Clean, Runnable, Value, Meaning, Topological, AllRoots, Accepted, LeafTruth;
    RunnableShape(Bound(out.program, out.truthSlots, out.truthSlotCount), RootRows(out.flags), last);
    assert RootKeptAt(doc, out, root) && NodeComputes(doc, out, truth, root);
    RootHasRole(doc, root);
  }

  /** Run both slot plans and read the planes of one flagged instruction. */
  method ReadRoot(ghost doc: Document, out: Compiled, ghost last: seq<nat>, leaf: Payload -> Cell,
                  id: InstructionId) returns (cell: Cell)
    requires Clean(doc) && CompiledOk(doc, out, last)
    requires 1 <= id <= |out.program.rows| == |out.flags| && out.flags[id - 1] != {}
    ensures Topological(out.program) && cell == Value(out.program, leaf, id - 1)
  {
    hide Clean, Runnable, Value, Topological;
    var blank := Cell(false, false, {});
    ghost var roots := RootRows(out.flags);
    RunnableShape(Bound(out.program, out.truthSlots, out.truthSlotCount), roots, last);
    RunnableShape(Bound(out.program, out.reasonSlots, out.reasonSlotCount), roots, last);
    var truths := Execute(Bound(out.program, out.truthSlots, out.truthSlotCount), roots, last, leaf,
                          seq(out.truthSlotCount, _ => blank));
    var reasons := Execute(Bound(out.program, out.reasonSlots, out.reasonSlotCount), roots, last, leaf,
                           seq(out.reasonSlotCount, _ => blank));
    var t, s := truths[out.truthSlots[id - 1] - 1], reasons[out.reasonSlots[id - 1] - 1];
    cell := Cell(t.positive, t.negative, s.reasons);
  }

  method Evaluate(doc: Document, out: Compiled, ghost last: seq<nat>, truth: Atom -> Cell, root: NodeId)
    returns (status: Status, cell: Cell)
    requires Accepted(doc) && Clean(doc) && CompiledOk(doc, out, last) && root in AllRoots(doc)
    ensures status == Done && 1 <= root <= |doc.nodes| && cell == Meaning(doc, truth, root)
  {
    hide Clean, CompiledOk, Accepted, AllRoots, Meaning, LeafTruth;
    status, cell := EvaluateWith(doc, out, last, LeafTruth(out.constants, truth), truth, root);
  }

  lemma RootHasRole(doc: Document, u: NodeId)
    requires u in AllRoots(doc)
    ensures exists r :: HasRole(doc, u, r)
  {
    hide ApplicabilityRoots, AssertionRoots, EvidenceRoots;
    var r: Role := if u in ApplicabilityRoots(doc) then Applicability
                   else if u in AssertionRoots(doc) then Assertion else EvidenceRole;
    assert HasRole(doc, u, r);
  }
}
