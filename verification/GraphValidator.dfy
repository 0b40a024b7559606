/** The graph phase of the policy validator: an iterative tri-colour traversal
    with an explicit stack, cycle reports on grey targets, and a final scan for
    nodes no semantic root reaches. */
module GraphValidator {
  import opened Documents

  datatype Color = White | Gray | Black

  datatype Mark = Mark(color: Color, reachable: bool)

  /** The traversal stack: a node and the index of its next edge per frame. */
  datatype Stack = Empty | Push(node: NodeId, next: nat, rest: Stack)

  datatype Diagnostic = CycleEdge(source: NodeId, target: NodeId) | UnreachableNode(node: NodeId)

  function ColorOf(marks: seq<Mark>, u: NodeId): Color {
    if 1 <= u <= |marks| then marks[u - 1].color else White
  }

  function Bit(marks: seq<Mark>, u: NodeId): bool {
    1 <= u <= |marks| && marks[u - 1].reachable
  }

  /** The first `count` targets of a node. */
  function FirstTargets(doc: Document, node: NodeId, count: int): set<NodeId> {
    set k | 0 <= k < count && k < |Out(doc, node)| :: Out(doc, node)[k]
  }

  lemma FirstTargetsStep(doc: Document, node: NodeId, count: nat)
    requires count < |Out(doc, node)|
    ensures FirstTargets(doc, node, count + 1) == FirstTargets(doc, node, count) + {Out(doc, node)[count]}
  {
  }

  lemma FirstTargetsAll(doc: Document, node: NodeId)
    ensures forall v :: v in Out(doc, node) ==> v in FirstTargets(doc, node, |Out(doc, node)|)
  {
  }

  /** The nodes on the stack. */
  function Nodes(stack: Stack): set<NodeId> {
    match stack
    case Empty => {}
    case Push(node, _, rest) => Nodes(rest) + {node}
  }

  /** The stack holds distinct readable nodes, and each frame was pushed along
      the edge that the frame below it passed last. */
  ghost predicate Chain(doc: Document, stack: Stack) {
    match stack
    case Empty => true
    case Push(node, next, rest) =>
      && Chain(doc, rest)
      && Readable(doc, node)
      && next <= |Out(doc, node)|
      && node !in Nodes(rest)
      && (rest.Push? ==> 0 < rest.next <= |Out(doc, rest.node)| && Out(doc, rest.node)[rest.next - 1] == node)
  }

  /** The targets the frames have passed. */
  function Seen(doc: Document, stack: Stack): set<NodeId> {
    match stack
    case Empty => {}
    case Push(node, next, rest) => Seen(doc, rest) + FirstTargets(doc, node, next)
  }

  /** The targets that frames under a top have finished with: all but the last
      passed one, whose node is the next frame. */
  function Settled(doc: Document, stack: Stack): set<NodeId> {
    match stack
    case Empty => {}
    case Push(node, next, rest) => Settled(doc, rest) + FirstTargets(doc, node, next - 1)
  }

  /** Grey nodes are the nodes on the stack, and every edge passed leads to a
      visited node. */
  ghost predicate Explored(doc: Document, marks: seq<Mark>, stack: Stack) {
    && |marks| == |doc.nodes|
    && Chain(doc, stack)
    && (forall u :: ColorOf(marks, u) == Gray <==> u in Nodes(stack))
    && (forall u :: ColorOf(marks, u) != White ==> Readable(doc, u))
    && (forall u, v :: ColorOf(marks, u) == Black && Edge(doc, u, v) ==> ColorOf(marks, v) != White)
    && (forall v :: v in Seen(doc, stack) && Readable(doc, v) ==> ColorOf(marks, v) != White)
  }

  /** While no cycle has been seen, the finish times rank the finished nodes. */
  ghost predicate RankedSoFar(doc: Document, marks: seq<Mark>, stack: Stack, rank: map<NodeId, nat>, clock: nat) {
    && (forall u :: ColorOf(marks, u) == Black ==> u in rank && rank[u] < clock)
    && (forall u, v :: ColorOf(marks, u) == Black && Edge(doc, u, v) ==>
         ColorOf(marks, v) == Black && rank[v] < rank[u])
    && (stack.Push? ==>
          && (forall v :: v in Settled(doc, stack.rest) && Readable(doc, v) ==> ColorOf(marks, v) == Black)
          && (forall v :: v in FirstTargets(doc, stack.node, stack.next) && Readable(doc, v) ==>
               ColorOf(marks, v) == Black))
  }

  ghost predicate HasCycle(doc: Document) {
    exists p :: Cycle(doc, p)
  }

  /** From a node on the stack a path runs up to the top. */
  lemma {:induction false} StackPath(doc: Document, stack: Stack, u: NodeId) returns (p: seq<NodeId>)
    requires Chain(doc, stack) && u in Nodes(stack)
    ensures Path(doc, p) && p[0] == u && p[|p| - 1] == stack.node
  {
    if u == stack.node {
      p := [u];
    } else {
      var q := StackPath(doc, stack.rest, u);
      p := q + [stack.node];
    }
  }

  /** A grey target closes a cycle through the part of the stack above it. */
  lemma GrayTargetIsCycle(doc: Document, marks: seq<Mark>, stack: Stack, target: NodeId)
    requires Explored(doc, marks, stack) && stack.Push?
    requires Edge(doc, stack.node, target) && ColorOf(marks, target) == Gray
    ensures HasCycle(doc)
  {
    var p := StackPath(doc, stack, target);
    assert Cycle(doc, p + [target]);
  }

  function Advance(stack: Stack): Stack
    requires stack.Push?
  {
    Push(stack.node, stack.next + 1, stack.rest)
  }

  /** Passing an edge to a node already visited. */
  lemma AdvanceKeeps(doc: Document, marks: seq<Mark>, stack: Stack)
    requires Explored(doc, marks, stack) && stack.Push? && stack.next < |Out(doc, stack.node)|
    requires var target := Out(doc, stack.node)[stack.next]; Readable(doc, target) ==> ColorOf(marks, target) != White
    ensures Explored(doc, marks, Advance(stack))
  {
    FirstTargetsStep(doc, stack.node, stack.next);
  }

  lemma AdvanceKeepsRank(doc: Document, marks: seq<Mark>, stack: Stack, rank: map<NodeId, nat>, clock: nat)
    requires RankedSoFar(doc, marks, stack, rank, clock) && stack.Push? && stack.next < |Out(doc, stack.node)|
    requires var target := Out(doc, stack.node)[stack.next]; Readable(doc, target) ==> ColorOf(marks, target) == Black
    ensures RankedSoFar(doc, marks, Advance(stack), rank, clock)
  {
    FirstTargetsStep(doc, stack.node, stack.next);
  }

  /** The stack after the next edge of its top is followed. */
  lemma AdvanceFacts(doc: Document, stack: Stack, target: NodeId)
    requires Chain(doc, stack) && stack.Push? && Readable(doc, target) && target !in Nodes(stack)
    requires stack.next < |Out(doc, stack.node)| && target == Out(doc, stack.node)[stack.next]
    ensures var pushed := Push(target, 0, Advance(stack));
            && Chain(doc, pushed) && Nodes(pushed) == Nodes(stack) + {target}
            && Seen(doc, pushed) == Seen(doc, stack) + {target}
  {
    FirstTargetsStep(doc, stack.node, stack.next);
    assert FirstTargets(doc, target, 0) == {};
    hide FirstTargets, Readable;
    assert Nodes(Advance(stack)) == Nodes(stack) && Chain(doc, Advance(stack));
  }

  /** Turning a white target grey and pushing a frame for it. */
  lemma PushKeeps(doc: Document, marks: seq<Mark>, stack: Stack, target: NodeId, reachable: bool)
    requires Explored(doc, marks, stack) && stack.Push?
    requires stack.next < |Out(doc, stack.node)| && target == Out(doc, stack.node)[stack.next]
    requires Readable(doc, target) && ColorOf(marks, target) == White
    ensures Explored(doc, marks[target - 1 := Mark(Gray, reachable)], Push(target, 0, Advance(stack)))
  {
    hide Nodes, Chain, Seen, FirstTargets, Edge;
    var next := marks[target - 1 := Mark(Gray, reachable)];
    assert target !in Nodes(stack);
    AdvanceFacts(doc, stack, target);
    forall u | u != target
      ensures ColorOf(next, u) == ColorOf(marks, u)
    {
    }
  }

  lemma PushKeepsRank(doc: Document, marks: seq<Mark>, stack: Stack, target: NodeId, reachable: bool,
                      rank: map<NodeId, nat>, clock: nat)
    requires |marks| == |doc.nodes| && stack.Push? && RankedSoFar(doc, marks, stack, rank, clock)
    requires Readable(doc, target) && ColorOf(marks, target) == White
    ensures RankedSoFar(doc, marks[target - 1 := Mark(Gray, reachable)], Push(target, 0, Advance(stack)), rank, clock)
  {
    assert FirstTargets(doc, target, 0) == {};
  }

  /** Finishing the top node. */
  lemma PopKeeps(doc: Document, marks: seq<Mark>, stack: Stack, finished: Mark)
    requires Explored(doc, marks, stack) && stack.Push? && stack.next == |Out(doc, stack.node)|
    requires finished.color == Black
    ensures Explored(doc, marks[stack.node - 1 := finished], stack.rest)
  {
    FirstTargetsAll(doc, stack.node);
  }

  lemma PopKeepsRank(doc: Document, marks: seq<Mark>, stack: Stack, finished: Mark, rank: map<NodeId, nat>, clock: nat)
    requires Explored(doc, marks, stack) && RankedSoFar(doc, marks, stack, rank, clock)
    requires stack.Push? && stack.next == |Out(doc, stack.node)|
    requires finished.color == Black
    ensures RankedSoFar(doc, marks[stack.node - 1 := finished], stack.rest, rank[stack.node := clock], clock + 1)
  {
    var node, after, rank' := stack.node, marks[stack.node - 1 := finished], rank[stack.node := clock];
    assert node in Nodes(stack) && ColorOf(marks, node) == Gray;
    FirstTargetsAll(doc, node);
    if stack.rest.Push? {
      RestSettled(doc, stack);
    }
    hide FirstTargets, Nodes, Chain, Seen;
    forall u
      ensures ColorOf(after, u) == Black <==> ColorOf(marks, u) == Black || u == node
    {
    }
    forall u, v | ColorOf(after, u) == Black && Edge(doc, u, v)
      ensures ColorOf(after, v) == Black && rank'[v] < rank'[u]
    {
      if u == node {
        assert ColorOf(marks, v) == Black;
      } else {
        assert ColorOf(marks, u) == Black && ColorOf(marks, v) == Black;
      }
    }
  }

  /** What a frame below the top has passed: what it had settled, and the node above it. */
  lemma RestSettled(doc: Document, stack: Stack)
    requires Chain(doc, stack) && stack.Push? && stack.rest.Push?
    ensures FirstTargets(doc, stack.rest.node, stack.rest.next) ==
            FirstTargets(doc, stack.rest.node, stack.rest.next - 1) + {stack.node}
    ensures Settled(doc, stack.rest) ==
            Settled(doc, stack.rest.rest) + FirstTargets(doc, stack.rest.node, stack.rest.next - 1)
  {
    FirstTargetsStep(doc, stack.rest.node, stack.rest.next - 1);
  }

  /** The reachable bit is set on visited nodes only, and only on nodes that a
      semantic root reaches. */
  ghost predicate BitsSound(doc: Document, marks: seq<Mark>) {
    forall u :: Bit(marks, u) ==> ColorOf(marks, u) != White && Reachable(doc, SemanticRoots(doc), u)
  }

  /** The state of a traversal: what has been passed is visited, and a cycle has
      been reported or the finished nodes are ranked. */
  ghost predicate Walking(doc: Document, marks: seq<Mark>, stack: Stack, cyclic: bool, rank: map<NodeId, nat>,
                          clock: nat) {
    && Explored(doc, marks, stack)
    && BitsSound(doc, marks)
    && (cyclic ==> HasCycle(doc))
    && (!cyclic ==> RankedSoFar(doc, marks, stack, rank, clock))
  }

  /** How one walk changes the marks. */
  ghost predicate Grew(before: seq<Mark>, after: seq<Mark>, reachable: bool) {
    && (forall u :: ColorOf(before, u) == Black ==> ColorOf(after, u) == Black)
    && (forall u :: Bit(before, u) ==> Bit(after, u))
    && (forall u :: !reachable && Bit(after, u) ==> Bit(before, u))
    && (forall u :: reachable && ColorOf(after, u) != White ==> ColorOf(before, u) == Black || Bit(after, u))
  }

  lemma MarkKeepsBits(doc: Document, marks: seq<Mark>, target: NodeId, reachable: bool)
    requires |marks| == |doc.nodes| && Readable(doc, target) && BitsSound(doc, marks)
    requires reachable ==> Reachable(doc, SemanticRoots(doc), target)
    ensures BitsSound(doc, marks[target - 1 := Mark(Gray, reachable)])
  {
    hide Reachable, SemanticRoots;
    var next := marks[target - 1 := Mark(Gray, reachable)];
    forall u | Bit(next, u)
      ensures ColorOf(next, u) != White && Reachable(doc, SemanticRoots(doc), u)
    {
      if u != target {
        assert next[u - 1] == marks[u - 1];
        assert Bit(marks, u);
      }
    }
  }

  lemma VisitKeepsBits(doc: Document, marks: seq<Mark>, stack: Stack, target: NodeId, reachable: bool)
    requires Explored(doc, marks, stack) && BitsSound(doc, marks)
    requires stack.Push? && Edge(doc, stack.node, target) && (reachable ==> Bit(marks, stack.node))
    ensures BitsSound(doc, marks[target - 1 := Mark(Gray, reachable)])
  {
    hide SemanticRoots;
    if reachable {
      ReachableStep(doc, SemanticRoots(doc), stack.node, target);
    }
    MarkKeepsBits(doc, marks, target, reachable);
  }

  lemma StartWalk(doc: Document, marks: seq<Mark>, root: NodeId, reachable: bool, cyclic: bool, rank: map<NodeId, nat>,
                  clock: nat)
    requires Walking(doc, marks, Empty, cyclic, rank, clock)
    requires Readable(doc, root) && ColorOf(marks, root) == White
    requires reachable ==> root in SemanticRoots(doc)
    ensures Walking(doc, marks[root - 1 := Mark(Gray, reachable)], Push(root, 0, Empty), cyclic, rank, clock)
    ensures Grew(marks, marks[root - 1 := Mark(Gray, reachable)], reachable)
  {
    hide Explored, BitsSound, RankedSoFar, HasCycle, Grew, SemanticRoots, Reachable;
    if reachable {
      ReachableRoot(doc, SemanticRoots(doc), root);
    }
    MarksCover(doc, marks, Empty);
    MarkKeepsBits(doc, marks, root, reachable);
    StartExplored(doc, marks, root, reachable);
    StartGrew(doc, marks, root, reachable);
    if !cyclic {
      StartRanked(doc, marks, root, reachable, rank, clock);
    }
  }

  lemma MarksCover(doc: Document, marks: seq<Mark>, stack: Stack)
    requires Explored(doc, marks, stack)
    ensures |marks| == |doc.nodes|
  {
  }

  lemma StartExplored(doc: Document, marks: seq<Mark>, root: NodeId, reachable: bool)
    requires Explored(doc, marks, Empty) && Readable(doc, root) && ColorOf(marks, root) == White
    ensures Explored(doc, marks[root - 1 := Mark(Gray, reachable)], Push(root, 0, Empty))
  {
    hide Edge;
    var next := marks[root - 1 := Mark(Gray, reachable)];
    assert FirstTargets(doc, root, 0) == {};
    assert Nodes(Push(root, 0, Empty)) == {root};
    forall u | u != root
      ensures ColorOf(next, u) == ColorOf(marks, u)
    {
    }
  }

  lemma StartRanked(doc: Document, marks: seq<Mark>, root: NodeId, reachable: bool, rank: map<NodeId, nat>, clock: nat)
    requires |marks| == |doc.nodes| && RankedSoFar(doc, marks, Empty, rank, clock)
    requires Readable(doc, root) && ColorOf(marks, root) == White
    ensures RankedSoFar(doc, marks[root - 1 := Mark(Gray, reachable)], Push(root, 0, Empty), rank, clock)
  {
    hide Edge;
    var next := marks[root - 1 := Mark(Gray, reachable)];
    assert FirstTargets(doc, root, 0) == {};
    forall u | u != root
      ensures ColorOf(next, u) == ColorOf(marks, u)
    {
    }
  }

  lemma StartGrew(doc: Document, marks: seq<Mark>, root: NodeId, reachable: bool)
    requires Explored(doc, marks, Empty) && Readable(doc, root) && ColorOf(marks, root) == White
    requires BitsSound(doc, marks)
    ensures Grew(marks, marks[root - 1 := Mark(Gray, reachable)], reachable)
  {
    hide Edge, Reachable, SemanticRoots;
    var next := marks[root - 1 := Mark(Gray, reachable)];
    forall u | u != root
      ensures ColorOf(next, u) == ColorOf(marks, u) && Bit(next, u) == Bit(marks, u)
    {
    }
  }

  lemma StepAdvance(doc: Document, marks: seq<Mark>, stack: Stack, cyclic: bool, rank: map<NodeId, nat>, clock: nat)
    requires Walking(doc, marks, stack, cyclic, rank, clock) && stack.Push? && stack.next < |Out(doc, stack.node)|
    requires var target := Out(doc, stack.node)[stack.next]; !Readable(doc, target) || ColorOf(marks, target) != White
    ensures var target := Out(doc, stack.node)[stack.next];
            Walking(doc, marks, Advance(stack), cyclic || (Readable(doc, target) && ColorOf(marks, target) == Gray),
                    rank, clock)
  {
    var target := Out(doc, stack.node)[stack.next];
    AdvanceKeeps(doc, marks, stack);
    if Readable(doc, target) && ColorOf(marks, target) == Gray {
      GrayTargetIsCycle(doc, marks, stack, target);
    } else if !cyclic {
      AdvanceKeepsRank(doc, marks, stack, rank, clock);
    }
  }

  lemma StepPush(doc: Document, marks: seq<Mark>, stack: Stack, reachable: bool, cyclic: bool, rank: map<NodeId, nat>,
                 clock: nat)
    requires Walking(doc, marks, stack, cyclic, rank, clock) && stack.Push? && stack.next < |Out(doc, stack.node)|
    requires var target := Out(doc, stack.node)[stack.next]; Readable(doc, target) && ColorOf(marks, target) == White
    requires reachable ==> Bit(marks, stack.node)
    ensures var target := Out(doc, stack.node)[stack.next];
            Walking(doc, marks[target - 1 := Mark(Gray, reachable)], Push(target, 0, Advance(stack)), cyclic, rank,
                    clock)
  {
    hide Explored, BitsSound, RankedSoFar, HasCycle, Advance;
    var target := Out(doc, stack.node)[stack.next];
    MarksCover(doc, marks, stack);
    VisitKeepsBits(doc, marks, stack, target, reachable);
    PushKeeps(doc, marks, stack, target, reachable);
    if !cyclic {
      PushKeepsRank(doc, marks, stack, target, reachable, rank, clock);
    }
  }

  lemma StepPop(doc: Document, marks: seq<Mark>, stack: Stack, cyclic: bool, rank: map<NodeId, nat>, clock: nat)
    requires Walking(doc, marks, stack, cyclic, rank, clock) && stack.Push? && stack.next == |Out(doc, stack.node)|
    ensures Walking(doc, marks[stack.node - 1 := Mark(Black, marks[stack.node - 1].reachable)], stack.rest, cyclic,
                    rank[stack.node := clock], clock + 1)
  {
    var finished := Mark(Black, marks[stack.node - 1].reachable);
    PopKeeps(doc, marks, stack, finished);
    if !cyclic {
      PopKeepsRank(doc, marks, stack, finished, rank, clock);
    }
  }

  predicate ReportsCycle(diagnostics: seq<Diagnostic>) {
    exists d :: d in diagnostics && d.CycleEdge?
  }

  function Whites(marks: seq<Mark>): set<NodeId> {
    set u | 1 <= u <= |marks| && ColorOf(marks, u) == White
  }

  function Height(stack: Stack): nat {
    if stack.Empty? then 0 else 1 + Height(stack.rest)
  }

  /** The edge closes a cycle: a path leads back from its target to its source. */
  ghost predicate ClosesCycle(doc: Document, u: NodeId, v: NodeId) {
    Edge(doc, u, v) && exists p :: Path(doc, p) && p[0] == v && p[|p| - 1] == u
  }

  /** New diagnostics of a walk report edges that close a cycle. */
  ghost predicate Extends(doc: Document, before: seq<Diagnostic>, after: seq<Diagnostic>) {
    && before <= after
    && forall i :: |before| <= i < |after| ==> after[i].CycleEdge? && ClosesCycle(doc, after[i].source, after[i].target)
  }

  lemma ExtendsMore(doc: Document, a: seq<Diagnostic>, b: seq<Diagnostic>, c: seq<Diagnostic>)
    requires Extends(doc, a, b) && Extends(doc, b, c)
    ensures Extends(doc, a, c)
  {
    hide ClosesCycle;
  }

  /** What following an edge reports: the edge itself when its target is grey. */
  function Reported(doc: Document, marks: seq<Mark>, u: NodeId, v: NodeId): seq<Diagnostic> {
    if Readable(doc, v) && ColorOf(marks, v) == Gray then [CycleEdge(u, v)] else []
  }

  lemma GrayTargetCloses(doc: Document, marks: seq<Mark>, stack: Stack, target: NodeId)
    requires Explored(doc, marks, stack) && stack.Push?
    requires Edge(doc, stack.node, target) && ColorOf(marks, target) == Gray
    ensures ClosesCycle(doc, stack.node, target)
  {
    var p := StackPath(doc, stack, target);
  }

  ghost predicate StillVisited(before: seq<Mark>, after: seq<Mark>) {
    forall u :: ColorOf(before, u) != White ==> ColorOf(after, u) != White
  }

  lemma PushEffect(doc: Document, before: seq<Mark>, marks: seq<Mark>, stack: Stack, target: NodeId, reachable: bool,
                   cyclic: bool, rank: map<NodeId, nat>, clock: nat)
    requires Walking(doc, marks, stack, cyclic, rank, clock) && Grew(before, marks, reachable)
    requires Readable(doc, target) && ColorOf(marks, target) == White
    ensures var marks' := marks[target - 1 := Mark(Gray, reachable)];
            Grew(before, marks', reachable) && StillVisited(marks, marks') && Whites(marks') < Whites(marks)
  {
    TargetUnmarked(doc, marks, stack, target, cyclic, rank, clock);
    hide Walking, Readable;
    var marks' := marks[target - 1 := Mark(Gray, reachable)];
    forall u | u != target
      ensures ColorOf(marks', u) == ColorOf(marks, u) && Bit(marks', u) == Bit(marks, u)
    {
    }
    assert Whites(marks') <= Whites(marks);
    assert target in Whites(marks) && target !in Whites(marks');
  }

  lemma TargetUnmarked(doc: Document, marks: seq<Mark>, stack: Stack, target: NodeId, cyclic: bool,
                       rank: map<NodeId, nat>, clock: nat)
    requires Walking(doc, marks, stack, cyclic, rank, clock) && Readable(doc, target)
    requires ColorOf(marks, target) == White
    ensures 1 <= target <= |marks| && !Bit(marks, target)
  {
    hide RankedSoFar, HasCycle, Reachable, SemanticRoots;
  }

  lemma PopEffect(doc: Document, before: seq<Mark>, marks: seq<Mark>, stack: Stack, reachable: bool,
                  cyclic: bool, rank: map<NodeId, nat>, clock: nat)
    requires Walking(doc, marks, stack, cyclic, rank, clock) && stack.Push? && Grew(before, marks, reachable)
    ensures 1 <= stack.node <= |marks|
    ensures var marks' := marks[stack.node - 1 := Mark(Black, marks[stack.node - 1].reachable)];
            Grew(before, marks', reachable) && StillVisited(marks, marks') && Whites(marks') == Whites(marks)
  {
    TopIsGray(doc, marks, stack);
    hide Walking;
    var marks' := marks[stack.node - 1 := Mark(Black, marks[stack.node - 1].reachable)];
    forall u
      ensures ColorOf(marks', u) == if u == stack.node then Black else ColorOf(marks, u)
      ensures Bit(marks', u) == Bit(marks, u)
    {
    }
    assert Whites(marks') == Whites(marks);
  }

  lemma TopIsGray(doc: Document, marks: seq<Mark>, stack: Stack)
    requires Explored(doc, marks, stack) && stack.Push?
    ensures 1 <= stack.node <= |marks| && ColorOf(marks, stack.node) == Gray
  {
    assert stack.node in Nodes(stack);
  }

  lemma TopFacts(doc: Document, before: seq<Mark>, marks: seq<Mark>, stack: Stack, reachable: bool,
                 cyclic: bool, rank: map<NodeId, nat>, clock: nat)
    requires Walking(doc, marks, stack, cyclic, rank, clock) && stack.Push? && Grew(before, marks, reachable)
    ensures |marks| == |doc.nodes| && Readable(doc, stack.node) && stack.next <= |Out(doc, stack.node)|
    ensures reachable ==> Bit(marks, stack.node)
  {
    assert ColorOf(marks, stack.node) == Gray;
  }

  lemma IdleFacts(doc: Document, marks: seq<Mark>, root: NodeId, reachable: bool, cyclic: bool, rank: map<NodeId, nat>,
                  clock: nat)
    requires Walking(doc, marks, Empty, cyclic, rank, clock)
    ensures |marks| == |doc.nodes| && ColorOf(marks, root) != Gray && Grew(marks, marks, reachable)
  {
  }

  /** Every visited node carries the reachable bit: the root walks. */
  ghost predicate AllBits(marks: seq<Mark>) {
    forall u :: ColorOf(marks, u) == Black ==> Bit(marks, u)
  }

  lemma FreshMarks(doc: Document, marks: seq<Mark>, rank: map<NodeId, nat>, clock: nat)
    requires |marks| == |doc.nodes| && forall i :: 0 <= i < |marks| ==> marks[i] == Mark(White, false)
    ensures Walking(doc, marks, Empty, false, rank, clock) && AllBits(marks)
  {
  }

  ghost predicate AllDone(doc: Document, marks: seq<Mark>, done: set<NodeId>) {
    forall u :: u in done && Readable(doc, u) ==> ColorOf(marks, u) == Black
  }

  ghost predicate SameBits(before: seq<Mark>, after: seq<Mark>) {
    forall u :: Bit(before, u) <==> Bit(after, u)
  }

  /** A clause whose assertion and evidence edges seed the traversal. */
  ghost predicate Seeds(doc: Document, c: nat)
    requires c < |doc.clauses|
  {
    !doc.clauses[c].corrupt && Referenced(doc, c + 1)
  }

  ghost predicate ClauseDone(doc: Document, c: nat, done: set<NodeId>)
    requires c < |doc.clauses|
  {
    doc.clauses[c].assertion in done && forall k :: 0 <= k < |doc.clauses[c].evidence| ==>
      doc.clauses[c].evidence[k] in done
  }

  predicate ReferencedBefore(doc: Document, clause: nat, bound: nat) {
    exists i :: 0 <= i < bound && i < |doc.requirements| && clause in doc.requirements[i].clauses
  }

  function MarkReferenced(referenced: seq<bool>, clauses: seq<nat>): (marked: seq<bool>)
    ensures |marked| == |referenced|
    ensures forall c :: 0 <= c < |marked| ==> (marked[c] <==> referenced[c] || c + 1 in clauses)
  {
    seq(|referenced|, c requires 0 <= c < |referenced| => referenced[c] || c + 1 in clauses)
  }

  lemma RequirementIsRoot(doc: Document, i: nat)
    requires i < |doc.requirements|
    ensures SemanticRoot(doc, doc.requirements[i].applicability)
  {
  }

  lemma RootsDone(doc: Document, marks: seq<Mark>, done: set<NodeId>)
    requires AllDone(doc, marks, done)
    requires forall i :: 0 <= i < |doc.requirements| ==> doc.requirements[i].applicability in done
    requires forall c :: 0 <= c < |doc.clauses| && Seeds(doc, c) ==> ClauseDone(doc, c, done)
    ensures forall r :: r in SemanticRoots(doc) && Readable(doc, r) ==> ColorOf(marks, r) == Black
  {
    forall r | r in SemanticRoots(doc)
      ensures r in done
    {
      if !exists i :: 0 <= i < |doc.requirements| && doc.requirements[i].applicability == r {
        var c :| 0 <= c < |doc.clauses| && !doc.clauses[c].corrupt && Referenced(doc, c + 1) &&
          (doc.clauses[c].assertion == r || r in doc.clauses[c].evidence);
        assert Seeds(doc, c);
      }
    }
  }

  lemma RootWalkKeeps(doc: Document, before: seq<Mark>, after: seq<Mark>, done: set<NodeId>)
    requires AllBits(before) && AllDone(doc, before, done) && Grew(before, after, true)
    ensures AllBits(after) && AllDone(doc, after, done)
  {
  }

  lemma BlackIsClosed(doc: Document, marks: seq<Mark>, p: seq<NodeId>)
    requires Explored(doc, marks, Empty) && Path(doc, p) && ColorOf(marks, p[0]) == Black
    ensures ColorOf(marks, p[|p| - 1]) == Black
  {
    var closed := set v | 1 <= v <= |marks| && ColorOf(marks, v) == Black;
    ClosedHoldsPath(doc, closed, p);
  }

  /** After the root walks the reachable bits are exact. */
  lemma BitsExact(doc: Document, marks: seq<Mark>, cyclic: bool, rank: map<NodeId, nat>, clock: nat)
    requires Walking(doc, marks, Empty, cyclic, rank, clock) && AllBits(marks)
    requires forall r :: r in SemanticRoots(doc) && Readable(doc, r) ==> ColorOf(marks, r) == Black
    ensures forall u :: Bit(marks, u) <==> Reachable(doc, SemanticRoots(doc), u)
  {
    hide Explored, RankedSoFar, SemanticRoots;
    forall u | Reachable(doc, SemanticRoots(doc), u)
      ensures Bit(marks, u)
    {
      var p :| Path(doc, p) && p[0] in SemanticRoots(doc) && p[|p| - 1] == u;
      assert Readable(doc, p[0]);
      BlackIsClosed(doc, marks, p);
    }
  }

  /** When every readable node is finished, a cycle was reported or the graph is ranked. */
  lemma CyclesExact(doc: Document, marks: seq<Mark>, cyclic: bool, rank: map<NodeId, nat>, clock: nat)
    requires Walking(doc, marks, Empty, cyclic, rank, clock)
    requires forall u :: Readable(doc, u) ==> ColorOf(marks, u) == Black
    ensures cyclic <==> HasCycle(doc)
    ensures !cyclic ==> Acyclic(doc)
  {
    if !cyclic {
      var ranks := seq(|doc.nodes|, i requires 0 <= i < |doc.nodes| => if i + 1 in rank then rank[i + 1] else 0);
      assert Ranked(doc, ranks);
      forall p
        ensures !Cycle(doc, p)
      {
        RankedHasNoCycle(doc, ranks, p);
      }
    }
  }

  /** The unreachable reports for the first `count` nodes, in NodeID order. */
  function Unreached(doc: Document, marks: seq<Mark>, count: nat): seq<Diagnostic> {
    if count == 0 then []
    else if Readable(doc, count) && !Bit(marks, count) then Unreached(doc, marks, count - 1) + [UnreachableNode(count)]
    else Unreached(doc, marks, count - 1)
  }

  lemma {:induction false} UnreachedExact(doc: Document, marks: seq<Mark>, count: nat)
    ensures forall d :: d in Unreached(doc, marks, count) <==>
                        d.UnreachableNode? && 1 <= d.node <= count && Readable(doc, d.node) && !Bit(marks, d.node)
  {
    if count > 0 {
      UnreachedExact(doc, marks, count - 1);
    }
  }

  lemma WalkCloses(doc: Document, marks: seq<Mark>, stack: Stack, cyclic: bool, rank: map<NodeId, nat>, clock: nat,
                   target: NodeId)
    requires Walking(doc, marks, stack, cyclic, rank, clock) && stack.Push?
    requires Edge(doc, stack.node, target) && ColorOf(marks, target) == Gray
    ensures ClosesCycle(doc, stack.node, target)
  {
    hide Explored, RankedSoFar, ClosesCycle;
    GrayTargetCloses(doc, marks, stack, target);
  }

  lemma ReportsSplit(doc: Document, cycles: seq<Diagnostic>, unreached: seq<Diagnostic>)
    requires Extends(doc, [], cycles) && forall d :: d in unreached ==> d.UnreachableNode?
    ensures ReportsCycle(cycles + unreached) == ReportsCycle(cycles)
    ensures forall u :: UnreachableNode(u) in cycles + unreached <==> UnreachableNode(u) in unreached
  {
    forall d | d in cycles
      ensures d.CycleEdge? && d in cycles + unreached
    {
      var i :| 0 <= i < |cycles| && cycles[i] == d;
      assert (cycles + unreached)[i] == d;
    }
  }

  class Validator {
    var nodeState: seq<Mark>
    var stack: Stack
    var diagnostics: seq<Diagnostic>
    ghost var rank: map<NodeId, nat>
    ghost var clock: nat

    constructor ()
      ensures nodeState == [] && stack == Empty && diagnostics == []
    {
      nodeState, stack, diagnostics := [], Empty, [];
      rank, clock := map[], 0;
    }

    ghost predicate Ready(doc: Document)
      reads this
    {
      stack == Empty && Walking(doc, nodeState, Empty, ReportsCycle(diagnostics), rank, clock)
    }

    /** Inside a walk. `before` is the marks when it began. */
    ghost predicate InWalk(doc: Document, before: seq<Mark>, reachable: bool)
      reads this
    {
      && Walking(doc, nodeState, stack, ReportsCycle(diagnostics), rank, clock)
      && Grew(before, nodeState, reachable)
    }

    /** Follow the next edge of the top frame. */
    method FollowEdge(doc: Document, ghost before: seq<Mark>, reachable: bool)
      requires InWalk(doc, before, reachable) && stack.Push? && stack.next < |Out(doc, stack.node)|
      modifies this
      ensures InWalk(doc, before, reachable)
      ensures || (Whites(nodeState) < old(Whites(nodeState)))
              || (nodeState == old(nodeState) && stack == old(Advance(stack)))
      ensures StillVisited(old(nodeState), nodeState)
      ensures Extends(doc, old(diagnostics), diagnostics)
      ensures diagnostics ==
              old(diagnostics + Reported(doc, nodeState, stack.node, Out(doc, stack.node)[stack.next]))
    {
      hide Walking, Grew, Whites, ClosesCycle;
      TopFacts(doc, before, nodeState, stack, reachable, ReportsCycle(diagnostics), rank, clock);
      var target := Out(doc, stack.node)[stack.next];
      if target == 0 || target > |doc.nodes| || doc.nodes[target - 1].Corrupt? || nodeState[target - 1].color == Black {
        StepAdvance(doc, nodeState, stack, ReportsCycle(diagnostics), rank, clock);
        stack := Advance(stack);
      } else if nodeState[target - 1].color == Gray {
        StepAdvance(doc, nodeState, stack, ReportsCycle(diagnostics), rank, clock);
        WalkCloses(doc, nodeState, stack, ReportsCycle(diagnostics), rank, clock, target);
        diagnostics := diagnostics + [CycleEdge(stack.node, target)];
        stack := Advance(stack);
        assert ReportsCycle(diagnostics) by { assert diagnostics[|diagnostics| - 1].CycleEdge?; }
      } else {
        StepPush(doc, nodeState, stack, reachable, ReportsCycle(diagnostics), rank, clock);
        PushEffect(doc, before, nodeState, stack, target, reachable, ReportsCycle(diagnostics), rank, clock);
        nodeState := nodeState[target - 1 := Mark(Gray, reachable)];
        stack := Push(target, 0, Advance(stack));
      }
    }

    /** Finish the top node, whose edges have all been followed. */
    method FinishTop(doc: Document, ghost before: seq<Mark>, reachable: bool)
      requires InWalk(doc, before, reachable) && stack.Push? && stack.next == |Out(doc, stack.node)|
      modifies this
      ensures InWalk(doc, before, reachable)
      ensures Whites(nodeState) == old(Whites(nodeState)) && stack == old(stack.rest)
      ensures StillVisited(old(nodeState), nodeState)
      ensures diagnostics == old(diagnostics)
    {
      hide Walking, Grew, StillVisited, Whites;
      TopFacts(doc, before, nodeState, stack, reachable, ReportsCycle(diagnostics), rank, clock);
      PopEffect(doc, before, nodeState, stack, reachable, ReportsCycle(diagnostics), rank, clock);
      StepPop(doc, nodeState, stack, ReportsCycle(diagnostics), rank, clock);
      rank, clock := rank[stack.node := clock], clock + 1;
      nodeState := nodeState[stack.node - 1 := Mark(Black, nodeState[stack.node - 1].reachable)];
      stack := stack.rest;
    }

    /** One traversal of the safe graph from `root`. Roots that are out of range,
        unreadable or already visited are skipped. */
    method WalkGraph(doc: Document, root: NodeId, reachable: bool)
      requires Ready(doc)
      requires reachable && Readable(doc, root) ==> root in SemanticRoots(doc)
      modifies this
      ensures Ready(doc)
      ensures Readable(doc, root) ==> ColorOf(nodeState, root) == Black
      ensures Grew(old(nodeState), nodeState, reachable)
      ensures Extends(doc, old(diagnostics), diagnostics)
    {
      hide Walking, Grew, Whites;
      IdleFacts(doc, nodeState, root, reachable, ReportsCycle(diagnostics), rank, clock);
      if root == 0 || root > |doc.nodes| || doc.nodes[root - 1].Corrupt? || nodeState[root - 1].color != White {
        return;
      }
      StartWalk(doc, nodeState, root, reachable, ReportsCycle(diagnostics), rank, clock);
      nodeState := nodeState[root - 1 := Mark(Gray, reachable)];
      stack := Push(root, 0, Empty);
      while stack.Push?
        invariant InWalk(doc, old(nodeState), reachable)
        invariant ColorOf(nodeState, root) != White
        invariant Extends(doc, old(diagnostics), diagnostics)
        decreases Whites(nodeState), Height(stack), if stack.Push? then |Out(doc, stack.node)| - stack.next else 0
      {
        TopFacts(doc, old(nodeState), nodeState, stack, reachable, ReportsCycle(diagnostics), rank, clock);
        if stack.next < |Out(doc, stack.node)| {
          FollowEdge(doc, old(nodeState), reachable);
        } else {
          FinishTop(doc, old(nodeState), reachable);
        }
      }
      IdleFacts(doc, nodeState, root, reachable, ReportsCycle(diagnostics), rank, clock);
    }

    /** Walk one root; `done` is the set of roots walked so far. */
    method WalkRoot(doc: Document, root: NodeId, ghost done: set<NodeId>)
      requires Ready(doc) && AllBits(nodeState) && AllDone(doc, nodeState, done)
      requires SemanticRoot(doc, root)
      modifies this
      ensures Ready(doc) && AllBits(nodeState) && AllDone(doc, nodeState, done + {root})
      ensures Extends(doc, old(diagnostics), diagnostics)
    {
      hide Walking, Grew, AllBits, SemanticRoot;
      WalkGraph(doc, root, true);
      RootWalkKeeps(doc, old(nodeState), nodeState, done);
    }

    /** Walk the applicability root of every requirement, and mark the clauses
        that requirements reference. */
    method WalkRequirements(doc: Document) returns (referenced: seq<bool>, ghost done: set<NodeId>)
      requires Ready(doc) && AllBits(nodeState)
      modifies this
      ensures Ready(doc) && AllBits(nodeState) && AllDone(doc, nodeState, done)
      ensures forall i :: 0 <= i < |doc.requirements| ==> doc.requirements[i].applicability in done
      ensures |referenced| == |doc.clauses|
      ensures forall c :: 0 <= c < |referenced| ==> (referenced[c] <==> Referenced(doc, c + 1))
      ensures Extends(doc, old(diagnostics), diagnostics)
    {
      referenced, done := seq(|doc.clauses|, _ => false), {};
      for i := 0 to |doc.requirements|
        invariant Ready(doc) && AllBits(nodeState) && AllDone(doc, nodeState, done)
        invariant forall k :: 0 <= k < i ==> doc.requirements[k].applicability in done
        invariant |referenced| == |doc.clauses|
        invariant forall c :: 0 <= c < |referenced| ==> (referenced[c] <==> ReferencedBefore(doc, c + 1, i))
        invariant Extends(doc, old(diagnostics), diagnostics)
      {
        hide Walking, AllBits, AllDone, SemanticRoot, ClosesCycle;
        RequirementIsRoot(doc, i);
        WalkRoot(doc, doc.requirements[i].applicability, done);
        done := done + {doc.requirements[i].applicability};
        referenced := MarkReferenced(referenced, doc.requirements[i].clauses);
      }
    }

    /** Walk the assertion and then the evidence edges of every referenced clause
        that is structurally safe. */
    method WalkClauses(doc: Document, referenced: seq<bool>,
                       ghost walked: set<NodeId>) returns (ghost done: set<NodeId>)
      requires Ready(doc) && AllBits(nodeState) && AllDone(doc, nodeState, walked)
      requires |referenced| == |doc.clauses|
      requires forall c :: 0 <= c < |referenced| ==> (referenced[c] <==> Referenced(doc, c + 1))
      modifies this
      ensures Ready(doc) && AllBits(nodeState) && AllDone(doc, nodeState, done)
      ensures walked <= done
      ensures forall c :: 0 <= c < |doc.clauses| && Seeds(doc, c) ==> ClauseDone(doc, c, done)
      ensures Extends(doc, old(diagnostics), diagnostics)
    {
      done := walked;
      for c := 0 to |doc.clauses|
        invariant Ready(doc) && AllBits(nodeState) && AllDone(doc, nodeState, done)
        invariant walked <= done
        invariant forall k :: 0 <= k < c && Seeds(doc, k) ==> ClauseDone(doc, k, done)
        invariant Extends(doc, old(diagnostics), diagnostics)
      {
        if !referenced[c] || doc.clauses[c].corrupt {
          continue;
        }
        done := WalkClause(doc, c, done);
      }
    }

    method WalkClause(doc: Document, c: nat, ghost walked: set<NodeId>) returns (ghost done: set<NodeId>)
      requires c < |doc.clauses| && Seeds(doc, c)
      requires Ready(doc) && AllBits(nodeState) && AllDone(doc, nodeState, walked)
      modifies this
      ensures Ready(doc) && AllBits(nodeState) && AllDone(doc, nodeState, done)
      ensures walked <= done && ClauseDone(doc, c, done)
      ensures Extends(doc, old(diagnostics), diagnostics)
    {
      hide Walking, AllBits, AllDone;
      var clause := doc.clauses[c];
      WalkRoot(doc, clause.assertion, walked);
      done := walked + {clause.assertion};
      for j := 0 to |clause.evidence|
        invariant Ready(doc) && AllBits(nodeState) && AllDone(doc, nodeState, done)
        invariant walked <= done && clause.assertion in done
        invariant forall k :: 0 <= k < j ==> clause.evidence[k] in done
        invariant Extends(doc, old(diagnostics), diagnostics)
      {
        WalkRoot(doc, clause.evidence[j], done);
        done := done + {clause.evidence[j]};
      }
    }

    /** Walk every node still unvisited, so that cycles among orphans are reported. */
    method WalkOrphans(doc: Document)
      requires Ready(doc)
      modifies this
      ensures Ready(doc) && SameBits(old(nodeState), nodeState)
      ensures forall u :: Readable(doc, u) ==> ColorOf(nodeState, u) == Black
      ensures Extends(doc, old(diagnostics), diagnostics)
    {
      for i := 0 to |doc.nodes|
        invariant Ready(doc) && SameBits(old(nodeState), nodeState)
        invariant forall u :: 1 <= u <= i && Readable(doc, u) ==> ColorOf(nodeState, u) == Black
        invariant Extends(doc, old(diagnostics), diagnostics)
      {
        hide Walking, ClosesCycle;
        WalkGraph(doc, i + 1, false);
      }
    }

    /** The root walks and then the orphan walks. */
    method WalkAll(doc: Document)
      modifies this
      ensures stack == Empty && |nodeState| == |doc.nodes|
      ensures ReportsCycle(diagnostics) <==> HasCycle(doc)
      ensures !ReportsCycle(diagnostics) ==> Acyclic(doc)
      ensures forall u :: Bit(nodeState, u) <==> Reachable(doc, SemanticRoots(doc), u)
      ensures Extends(doc, [], diagnostics)
    {
      hide Walking, AllBits, AllDone, SemanticRoots, HasCycle, Acyclic, Reachable, Seeds, Referenced, Extends;
      nodeState, stack, diagnostics := seq(|doc.nodes|, _ => Mark(White, false)), Empty, [];
      FreshMarks(doc, nodeState, rank, clock);
      var referenced, required := WalkRequirements(doc);
      ghost var first := diagnostics;
      ghost var done := WalkClauses(doc, referenced, required);
      ExtendsMore(doc, [], first, diagnostics);
      ghost var second := diagnostics;
      RootsDone(doc, nodeState, done);
      BitsExact(doc, nodeState, ReportsCycle(diagnostics), rank, clock);
      WalkOrphans(doc);
      ExtendsMore(doc, [], second, diagnostics);
      CyclesExact(doc, nodeState, ReportsCycle(diagnostics), rank, clock);
      IdleFacts(doc, nodeState, 0, false, ReportsCycle(diagnostics), rank, clock);
    }

    /** The whole graph phase: the walks, then the scan for unreachable nodes. It
        reports a cycle exactly when there is one, and as unreachable exactly the
        readable nodes no semantic root reaches; cycle reports come first and
        unreachable reports follow in NodeID order. */
    method ValidateGraph(doc: Document)
      modifies this
      ensures stack == Empty
      ensures ReportsCycle(diagnostics) <==> HasCycle(doc)
      ensures !ReportsCycle(diagnostics) ==> Acyclic(doc)
      ensures forall u :: UnreachableNode(u) in diagnostics <==>
              (Readable(doc, u) && !Reachable(doc, SemanticRoots(doc), u))
      ensures exists n :: 0 <= n <= |diagnostics| && Extends(doc, [], diagnostics[..n]) &&
                diagnostics[n..] == Unreached(doc, nodeState, |doc.nodes|)
    {
      hide HasCycle, Acyclic, Reachable, SemanticRoots;
      WalkAll(doc);
      label Walked:
      ghost var cycles := diagnostics;
      for i := 0 to |doc.nodes|
        invariant stack == Empty && nodeState == old@Walked(nodeState)
        invariant diagnostics == cycles + Unreached(doc, nodeState, i)
      {
        if !doc.nodes[i].Corrupt? && !nodeState[i].reachable {
          diagnostics := diagnostics + [UnreachableNode(i + 1)];
        }
      }
      UnreachedExact(doc, nodeState, |doc.nodes|);
      ReportsSplit(doc, cycles, Unreached(doc, nodeState, |doc.nodes|));
      assert diagnostics[..|cycles|] == cycles;
      assert diagnostics[|cycles|..] == Unreached(doc, nodeState, |doc.nodes|);
    }
  }
}
