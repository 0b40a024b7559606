/** The lowering traversal: the tri-colour walk of the validator, emitting each
    node as its frame completes. */
module Lowerers {
  import opened Bitsets
  import opened Documents
  import opened Meanings
  import opened Programs
  import opened Constants
  import opened OpenAddress
  import opened Candidates
  import opened Emission
  import opened GraphValidator
  import opened Lowering
  import opened Roots

  lemma {:induction false} SlabUsedSame(doc: Document, marks: seq<Mark>, marks': seq<Mark>, n: nat)
    requires Clean(doc) && n <= |doc.nodes|
    requires forall u :: ColorOf(marks, u) == Black <==> ColorOf(marks', u) == Black
    ensures SlabUsed(doc, marks, n) == SlabUsed(doc, marks', n)
  {
    hide SlabNeed;
    if n > 0 {
      SlabUsedSame(doc, marks, marks', n - 1);
    }
  }

  /** Only which nodes are black matters to the emitted columns. */
  lemma RecolorKeeps(doc: Document, c: Canonical, hash: Key -> nat, roots: seq<set<Role>>, marks: seq<Mark>,
                     marks': seq<Mark>, e: Columns)
    requires Clean(doc) && EmitOk(doc, c, hash, roots, marks, e) && |marks'| == |marks|
    requires forall u :: ColorOf(marks, u) == Black <==> ColorOf(marks', u) == Black
    ensures EmitOk(doc, c, hash, roots, marks', e)
  {
    hide LoweredNodes, Owned, FlagsOk, PoolOk, Shaped, SlabUsed, NodeFits;
    SlabUsedSame(doc, marks, marks', |doc.nodes|);
    assert Blacks(marks') == Blacks(marks);
  }

  /** On a clean document no edge leads to a grey node. */
  lemma NoGrayTarget(doc: Document, marks: seq<Mark>, stack: Stack, rank: map<NodeId, nat>, clock: nat)
    requires Clean(doc) && Walking(doc, marks, stack, false, rank, clock)
    requires stack.Push? && stack.next < |Out(doc, stack.node)|
    ensures Readable(doc, Out(doc, stack.node)[stack.next])
    ensures ColorOf(marks, Out(doc, stack.node)[stack.next]) != Gray
  {
    hide RankedSoFar, BitsSound;
    assert NodeClean(doc, stack.node);
    var target := Out(doc, stack.node)[stack.next];
    if ColorOf(marks, target) == Gray {
      GrayTargetIsCycle(doc, marks, stack, target);
      var p :| Cycle(doc, p);
      RankedHasNoCycle(doc, RankOf(doc), p);
    }
  }

  /** When a frame has passed all its edges, all children are black. */
  lemma ChildrenBlack(doc: Document, marks: seq<Mark>, stack: Stack, rank: map<NodeId, nat>, clock: nat)
    requires Clean(doc) && Walking(doc, marks, stack, false, rank, clock)
    requires stack.Push? && stack.next == |Out(doc, stack.node)|
    ensures 1 <= stack.node <= |doc.nodes| == |marks| && ColorOf(marks, stack.node) == Gray
    ensures forall k :: 0 <= k < |Out(doc, stack.node)| ==> ColorOf(marks, Out(doc, stack.node)[k]) == Black
  {
    assert NodeClean(doc, stack.node);
    FirstTargetsAll(doc, stack.node);
    forall k | 0 <= k < |Out(doc, stack.node)|
      ensures ColorOf(marks, Out(doc, stack.node)[k]) == Black
    {
      assert Out(doc, stack.node)[k] in Out(doc, stack.node);
    }
  }

  /** Black nodes have black children, so what a black root reaches is black. */
  lemma ReachedIsBlack(doc: Document, marks: seq<Mark>, rank: map<NodeId, nat>, clock: nat, roots: set<NodeId>,
                       u: NodeId)
    requires Walking(doc, marks, Empty, false, rank, clock)
    requires forall r :: r in roots && Readable(doc, r) ==> ColorOf(marks, r) == Black
    requires Reachable(doc, roots, u)
    ensures ColorOf(marks, u) == Black
  {
    hide RankedSoFar, BitsSound;
    var p :| Path(doc, p) && p[0] in roots && p[|p| - 1] == u;
    assert Readable(doc, p[0]);
    BlackIsClosed(doc, marks, p);
  }

  lemma GrewRefl(marks: seq<Mark>)
    ensures Grew(marks, marks, false)
  {
  }

  function EmptyColumns(n: nat, slots: nat): Columns {
    Columns(seq(n, _ => 0), seq(n, _ => 0), seq(n, _ => 0), Program([], []), [], seq(slots, _ => 0))
  }

  lemma StartOk(doc: Document, c: Canonical, hash: Key -> nat, roots: seq<set<Role>>, marks: seq<Mark>, slots: nat)
    requires Clean(doc) && |roots| == |doc.nodes| == |marks| && slots >= 2 * |doc.nodes| && slots > 0
    requires forall i :: 0 <= i < |marks| ==> marks[i] == Mark(White, false)
    ensures EmitOk(doc, c, hash, roots, marks, EmptyColumns(|doc.nodes|, slots))
  {
    hide SlabNeed, NodeFits, NodeDone;
    var e := EmptyColumns(|doc.nodes|, slots);
    EmptyTable(e.slots);
    assert Keys(e.program) == [] && Homes(Keys(e.program), hash, slots) == [];
    SlabNone(doc, marks, |doc.nodes|);
    assert forall u :: CanonAt(e, u) == 0;
  }

  lemma {:induction false} SlabNone(doc: Document, marks: seq<Mark>, n: nat)
    requires Clean(doc) && n <= |doc.nodes| && forall u :: ColorOf(marks, u) != Black
    ensures SlabUsed(doc, marks, n) == 0
  {
    if n > 0 {
      SlabNone(doc, marks, n - 1);
    }
  }

  class Lowerer {
    const doc: Document
    const constants: Canonical
    const hash: Key -> nat
    const nodeRoots: seq<set<Role>>
    var nodeState: seq<Mark>
    var stack: Stack
    var columns: Columns
    ghost var rank: map<NodeId, nat>
    ghost var clock: nat

    constructor (doc: Document, constants: Canonical, hash: Key -> nat, nodeRoots: seq<set<Role>>)
      requires Clean(doc) && CountsFit(doc) && |nodeRoots| == |doc.nodes|
      ensures Valid() && stack == Empty
      ensures this.doc == doc && this.constants == constants && this.hash == hash && this.nodeRoots == nodeRoots
    {
      var size := SlotSize(|doc.nodes|);
      this.doc, this.constants, this.hash, this.nodeRoots := doc, constants, hash, nodeRoots;
      nodeState := seq(|doc.nodes|, _ => Mark(White, false));
      stack, rank, clock := Empty, map[], 0;
      columns := EmptyColumns(|doc.nodes|, size);
      new;
      hide EmitOk, Walking;
      FreshMarks(doc, nodeState, rank, clock);
      StartOk(doc, constants, hash, nodeRoots, nodeState, size);
    }

    ghost predicate Valid()
      reads this
    {
      && Clean(doc) && CountsFit(doc)
      && Walking(doc, nodeState, stack, false, rank, clock)
      && EmitOk(doc, constants, hash, nodeRoots, nodeState, columns)
    }

    /** Pass the next edge of the top frame; a white child is pushed. */
    method Descend() returns (status: Status)
      requires Valid() && stack.Push? && stack.next < |Out(doc, stack.node)|
      modifies this`nodeState, this`stack
      ensures status == Done && Valid()
      ensures || (Whites(nodeState) < old(Whites(nodeState)))
              || (nodeState == old(nodeState) && stack == old(Advance(stack)))
      ensures StillVisited(old(nodeState), nodeState)
    {
      hide EmitOk, Walking, Clean, CountsFit, Whites;
      NoGrayTarget(doc, nodeState, stack, rank, clock);
      GrewRefl(nodeState);
      TopFacts(doc, nodeState, nodeState, stack, false, false, rank, clock);
      var child := Out(doc, stack.node)[stack.next];
      if nodeState[child - 1].color == Gray {
        return InvalidDocument;
      }
      if nodeState[child - 1].color == Black {
        StepAdvance(doc, nodeState, stack, false, rank, clock);
        stack := Advance(stack);
      } else {
        StepPush(doc, nodeState, stack, false, false, rank, clock);
        PushEffect(doc, nodeState, nodeState, stack, child, false, false, rank, clock);
        RecolorKeeps(doc, constants, hash, nodeRoots, nodeState, nodeState[child - 1 := Mark(Gray, false)], columns);
        nodeState := nodeState[child - 1 := Mark(Gray, false)];
        stack := Push(child, 0, Advance(stack));
      }
      status := Done;
    }

    /** Emit the top node, whose children are all emitted, and pop its frame. */
    method Complete() returns (status: Status)
      requires Valid() && stack.Push? && stack.next == |Out(doc, stack.node)|
      modifies this
      ensures status == Done || status == TooLarge
      ensures status == Done ==> Valid() && stack == old(stack.rest) && Whites(nodeState) == old(Whites(nodeState))
      ensures status == Done ==> StillVisited(old(nodeState), nodeState)
      ensures status == TooLarge ==> !Fits(doc)
    {
      hide EmitOk, Walking, Clean, CountsFit, Whites, StillVisited, Fits;
      ChildrenBlack(doc, nodeState, stack, rank, clock);
      GrewRefl(nodeState);
      PopEffect(doc, nodeState, nodeState, stack, false, false, rank, clock);
      StepPop(doc, nodeState, stack, false, rank, clock);
      var mark := Mark(Black, nodeState[stack.node - 1].reachable);
      var emitted;
      status, emitted := InternInstructionCandidate(doc, constants, hash, nodeRoots, nodeState, columns, stack.node,
                                                    mark);
      if status != Done {
        return;
      }
      columns := emitted;
      rank, clock := rank[stack.node := clock], clock + 1;
      nodeState := nodeState[stack.node - 1 := mark];
      stack := stack.rest;
    }

    /** Lower everything below one root. */
    method LowerRoot(root: NodeId) returns (status: Status)
      requires Valid() && stack == Empty && 1 <= root <= |doc.nodes|
      modifies this
      ensures status == Done || status == TooLarge
      ensures status == Done ==> Valid() && stack == Empty && ColorOf(nodeState, root) == Black
      ensures status == Done ==> StillVisited(old(nodeState), nodeState)
      ensures status == TooLarge ==> !Fits(doc)
    {
      hide EmitOk, Walking, Clean, CountsFit, Whites, Fits, Readable;
      ReadableNode(doc, root);
      IdleFacts(doc, nodeState, root, false, false, rank, clock);
      if nodeState[root - 1].color == Black {
        return Done;
      }
      StartWalk(doc, nodeState, root, false, false, rank, clock);
      RecolorKeeps(doc, constants, hash, nodeRoots, nodeState, nodeState[root - 1 := Mark(Gray, false)], columns);
      nodeState := nodeState[root - 1 := Mark(Gray, false)];
      stack := Push(root, 0, Empty);
      while stack.Push?
        invariant Valid()
        invariant ColorOf(nodeState, root) != White && StillVisited(old(nodeState), nodeState)
        decreases Whites(nodeState), Height(stack), if stack.Push? then |Out(doc, stack.node)| - stack.next else 0
      {
        GrewRefl(nodeState);
        TopFacts(doc, nodeState, nodeState, stack, false, false, rank, clock);
        if stack.next < |Out(doc, stack.node)| {
          status := Descend();
        } else {
          status := Complete();
        }
        if status != Done {
          return;
        }
      }
      IdleFacts(doc, nodeState, root, false, false, rank, clock);
      status := Done;
    }

    /** Lower every root in order. */
    method LowerRoots(roots: seq<NodeId>) returns (status: Status)
      requires Valid() && stack == Empty && InTable(doc, roots)
      modifies this
      ensures status == Done || status == TooLarge
      ensures status == Done ==> Valid() && stack == Empty && forall k :: 0 <= k < |roots| ==>
                ColorOf(nodeState, roots[k]) == Black
      ensures status == TooLarge ==> !Fits(doc)
    {
      hide EmitOk, Walking, Clean, CountsFit, Fits;
      for k := 0 to |roots|
        invariant Valid() && stack == Empty
        invariant forall l :: 0 <= l < k ==> ColorOf(nodeState, roots[l]) == Black
      {
        status := LowerRoot(roots[k]);
        if status != Done {
          return;
        }
        forall l | 0 <= l < k
          ensures ColorOf(nodeState, roots[l]) == Black
        {
          IdleFacts(doc, nodeState, roots[l], false, false, rank, clock);
        }
      }
      status := Done;
    }
  }

  lemma ReadableNode(doc: Document, u: NodeId)
    requires Clean(doc) && 1 <= u <= |doc.nodes|
    ensures Readable(doc, u)
  {
    assert NodeClean(doc, u);
  }

  /** What the validator promises of a document without diagnostics. */
  ghost predicate Accepted(doc: Document) {
    && Clean(doc)
    && InTable(doc, AllRoots(doc))
    && forall u :: 1 <= u <= |doc.nodes| ==> Reachable(doc, SemanticRoots(doc), u)
  }

  /** What the structural phases leave for the graph phase to decide. */
  ghost predicate StructurallyClean(doc: Document) {
    InTable(doc, AllRoots(doc)) && forall u :: 1 <= u <= |doc.nodes| ==> NodeClean(doc, u)
  }

  /** On a structurally clean document, the graph phase reports nothing exactly when
      the compiler's assumptions hold. */
  method GraphPhaseAccepts(doc: Document) returns (clean: bool)
    requires StructurallyClean(doc)
    ensures clean <==> Accepted(doc)
  {
    hide AllRoots, SemanticRoots, Reachable, HasCycle, Acyclic, NodeClean;
    var validator := new Validator();
    validator.ValidateGraph(doc);
    clean := validator.diagnostics == [];
    DiagnosticsDecide(doc, validator.diagnostics);
  }

  lemma DiagnosticsDecide(doc: Document, diagnostics: seq<Diagnostic>)
    requires StructurallyClean(doc)
    requires ReportsCycle(diagnostics) <==> HasCycle(doc)
    requires !ReportsCycle(diagnostics) ==> Acyclic(doc)
    requires forall u :: UnreachableNode(u) in diagnostics <==>
             (Readable(doc, u) && !Reachable(doc, SemanticRoots(doc), u))
    ensures diagnostics == [] <==> Accepted(doc)
  {
    hide AllRoots, SemanticRoots, Reachable;
    if diagnostics != [] && Accepted(doc) {
      var d := diagnostics[0];
      assert d in diagnostics;
      if d.CycleEdge? {
        var p :| Cycle(doc, p);
        RankedHasNoCycle(doc, RankOf(doc), p);
      }
    }
    if diagnostics == [] {
      forall u | 1 <= u <= |doc.nodes|
        ensures Reachable(doc, SemanticRoots(doc), u)
      {
        assert NodeClean(doc, u);
        assert UnreachableNode(u) !in diagnostics;
      }
    }
  }

  lemma {:induction false} EvidenceIsRoot(clauses: seq<Clause>, c: nat, u: NodeId)
    requires c < |clauses| && u in clauses[c].evidence
    ensures u in EvidenceEdges(clauses)
  {
    if c < |clauses| - 1 {
      EvidenceIsRoot(clauses[..|clauses| - 1], c, u);
    }
  }

  lemma SemanticRootIsRoot(doc: Document, u: NodeId)
    requires SemanticRoot(doc, u)
    ensures u in AllRoots(doc)
  {
    hide EvidenceEdges;
    if i :| 0 <= i < |doc.requirements| && doc.requirements[i].applicability == u {
      assert ApplicabilityRoots(doc)[i] == u;
    } else {
      var c :| 0 <= c < |doc.clauses| && (doc.clauses[c].assertion == u || u in doc.clauses[c].evidence);
      if doc.clauses[c].assertion == u {
        assert AssertionRoots(doc)[c] == u;
      } else {
        EvidenceIsRoot(doc.clauses, c, u);
      }
    }
  }

  /** Every node has its instruction, and every row its nodes and their roles. */
  ghost predicate Lowered(doc: Document, c: Canonical, roots: seq<set<Role>>, e: Columns)
    requires Clean(doc)
  {
    && RolesOk(doc, roots)
    && Shaped(doc, e) && LoweredNodes(doc, c, e) && FlagsOk(roots, e) && Owned(e)
    && (forall u :: 1 <= u <= |doc.nodes| ==> CanonAt(e, u) != 0)
    && Distinct(Keys(e.program)) && |e.program.rows| <= |doc.nodes|
  }

  lemma AllLowered(doc: Document, c: Canonical, hash: Key -> nat, roots: seq<set<Role>>, ids: seq<NodeId>,
                   marks: seq<Mark>, e: Columns, rank: map<NodeId, nat>, clock: nat)
    requires Accepted(doc) && RolesOk(doc, roots) && CountsFit(doc)
    requires Walking(doc, marks, Empty, false, rank, clock) && EmitOk(doc, c, hash, roots, marks, e)
    requires forall u :: u in AllRoots(doc) ==> u in ids
    requires forall k :: 0 <= k < |ids| ==> ColorOf(marks, ids[k]) == Black
    ensures Lowered(doc, c, roots, e) && Fits(doc)
  {
    hide Walking, SemanticRoots, SemanticRoot, AllRoots, Clean, LoweredNodes, FlagsOk, Owned, Shaped, RolesOk, SlabUsed,
         SlabTotal, CountsFit, NodeFits;
    forall u | 1 <= u <= |doc.nodes|
      ensures ColorOf(marks, u) == Black
    {
      forall r | r in SemanticRoots(doc)
        ensures ColorOf(marks, r) == Black
      {
        RootsAreSemantic(doc, r);
        SemanticRootIsRoot(doc, r);
        assert r in ids;
      }
      ReachedIsBlack(doc, marks, rank, clock, SemanticRoots(doc), u);
    }
    SlabUsedBound(doc, marks, |doc.nodes|);
    SubsetBound(Blacks(marks), UpTo(|doc.nodes|));
  }

  lemma RootsAreSemantic(doc: Document, r: NodeId)
    requires r in SemanticRoots(doc)
    ensures SemanticRoot(doc, r)
  {
  }

  /** Lower an accepted document. It succeeds exactly when the sizes fit. */
  method LowerCandidates(doc: Document, constants: Canonical, hash: Key -> nat)
    returns (status: Status, roots: seq<set<Role>>, e: Columns)
    requires Accepted(doc)
    ensures status == if Fits(doc) then Done else TooLarge
    ensures status == Done ==> Lowered(doc, constants, roots, e)
  {
    hide Clean, SemanticRoots, AllRoots, Fits, EmitOk, Walking, RolesOk, Lowered;
    roots, e := [], EmptyColumns(0, 0);
    if |doc.nodes| >= MAX_UINT32 || ListTotal(doc, |doc.nodes|) >= MAX_UINT32 ||
       EdgeTotal(doc, |doc.nodes|) >= MAX_UINT32 {
      CountsDecide(doc);
      return TooLarge, roots, e;
    }
    status, roots := MarkRootFlags(doc);
    if status != Done {
      return;
    }
    RolesLength(doc, roots);
    var ids := CollectRoots(doc);
    var lowerer := new Lowerer(doc, constants, hash, roots);
    RootsInTable(doc, ids);
    status := lowerer.LowerRoots(ids);
    if status != Done {
      return;
    }
    AllLowered(doc, constants, hash, roots, ids, lowerer.nodeState, lowerer.columns, lowerer.rank, lowerer.clock);
    e := lowerer.columns;
  }

  lemma CountsDecide(doc: Document)
    requires Clean(doc) && !CountsFit(doc)
    ensures !Fits(doc)
  {
  }

  lemma RolesLength(doc: Document, roots: seq<set<Role>>)
    requires RolesOk(doc, roots)
    ensures |roots| == |doc.nodes|
  {
  }

  lemma RootsInTable(doc: Document, ids: seq<NodeId>)
    requires InTable(doc, AllRoots(doc)) && forall u :: u in ids ==> u in AllRoots(doc)
    ensures InTable(doc, ids)
  {
    hide AllRoots;
    forall k | 0 <= k < |ids|
      ensures 1 <= ids[k] <= |doc.nodes|
    {
      assert ids[k] in AllRoots(doc);
    }
  }
}
