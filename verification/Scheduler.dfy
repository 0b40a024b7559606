/** Putting a compacted program in schedule order. */
module Schedulers {
  import opened Bitsets
  import opened Programs
  import opened Relayouts
  import opened Users
  import opened Schedule
  import opened Compaction

  /** `order` lists every row once and `oldToNew` is its inverse. */
  ghost predicate Permutes(order: seq<nat>, oldToNew: seq<InstructionId>, n: nat) {
    && |order| == |oldToNew| == n
    && (forall j :: 0 <= j < n ==> order[j] < n)
    && (forall i :: 0 <= i < n ==> 1 <= oldToNew[i] <= n)
    && (forall i, j :: 0 <= i < n && 0 <= j < n ==> (order[j] == i <==> oldToNew[i] == j + 1))
  }

  /** A complete order without repeats leaves no row out. */
  lemma NoRowLeftOut(n: nat, order: seq<nat>, x: nat)
    requires |order| == n && x < n
    requires forall q :: 0 <= q < n ==> order[q] < n
    requires forall q, r :: 0 <= q < r < n ==> order[q] != order[r]
    ensures x in order
  {
    hide Below;
    ImageSize(order);
    forall v | v in Image(order)
      ensures v in Below(n)
    {
    }
    SubsetFull(Image(order), Below(n));
    assert x in Below(n);
  }

  function Below(n: nat): (r: set<nat>)
    ensures forall i :: i in r <==> 0 <= i < n
    ensures |r| == n
  {
    if n == 0 then {} else Below(n - 1) + {n - 1}
  }

  function Image(s: seq<nat>): set<nat> {
    set v | v in s
  }

  lemma {:induction false} ImageSize(s: seq<nat>)
    requires forall q, r :: 0 <= q < r < |s| ==> s[q] != s[r]
    ensures |Image(s)| == |s|
  {
    if s != [] {
      var init, last := s[..|s| - 1], s[|s| - 1];
      ImageSize(init);
      assert s == init + [last];
      assert Image(s) == Image(init) + {last};
      assert last !in init;
    }
  }

  lemma CompleteOrderPermutes(p: Program, s: State)
    requires OrderOk(p, s) && |s.order| == |p.rows|
    ensures Permutes(s.order, s.oldToNew, |p.rows|)
  {
    hide Ops;
    forall i | 0 <= i < |p.rows|
      ensures s.oldToNew[i] != 0
    {
      forall q, r | 0 <= q < r < |p.rows|
        ensures s.order[q] != s.order[r]
      {
        assert s.oldToNew[s.order[q]] == q + 1;
      }
      NoRowLeftOut(|p.rows|, s.order, i);
    }
  }

  lemma OpcodesValid(p: Program)
    requires Topological(p)
    ensures forall u :: 0 <= u < |p.rows| ==> ValidOpcode(OpcodeAt(p, u))
  {
    forall u | 0 <= u < |p.rows|
      ensures ValidOpcode(OpcodeAt(p, u))
    {
      assert RowOk(p, u);
    }
  }

  lemma OrderPlaceable(p: Program, s: State)
    requires Topological(p) && OrderOk(p, s) && Permutes(s.order, s.oldToNew, |p.rows|)
    ensures AllPlaceable(p, s.order, s.oldToNew)
  {
    hide Ops, Topological;
    forall j | 0 <= j < |s.order|
      ensures Placeable(p, s.order, s.oldToNew, j)
    {
      var i := s.order[j];
      assert s.oldToNew[i] == j + 1;
      forall k | 0 <= k < |Ops(p, i)|
        ensures 1 <= Ops(p, i)[k] <= |p.rows|
        ensures 1 <= s.oldToNew[Ops(p, i)[k] - 1] <= j
        ensures s.order[s.oldToNew[Ops(p, i)[k] - 1] - 1] == Ops(p, i)[k] - 1
      {
      }
    }
  }

  datatype Scheduled = Scheduled(program: Program, order: seq<nat>, oldToNew: seq<InstructionId>, runs: seq<Run>)

  ghost predicate ScheduledOk(p: Program, r: Scheduled) {
    && Permutes(r.order, r.oldToNew, |p.rows|)
    && |r.program.rows| == |p.rows|
    && Topological(r.program) && Simulates(r.program, p, r.order)
    && Tiled(p, r.order, r.runs)
  }

  /** Schedule an ordered program. It never fails. */
  method ScheduleInstructions(p: Program) returns (ok: bool, r: Scheduled)
    requires Topological(p)
    ensures ok && ScheduledOk(p, r)
  {
    TopologicalIsOrdered(p);
    var indegree, starts, slab := BuildScheduleUsers(p);
    OpcodesValid(p);
    hide Ordered, UsersOk, Lists, OrderOk, CountersOk, Tiled, Ops, Topological, AllPlaceable, Placed;
    var initial := InitialState(p, indegree);
    var scheduled, s, runs := BuildScheduleOrder(p, Lists(starts, slab), initial);
    if !scheduled {
      return false, Scheduled(p, [], [], []);
    }
    CompleteOrderPermutes(p, s);
    OrderPlaceable(p, s);
    var q;
    ok, q := Relayout(p, s.order, s.oldToNew);
    RelayoutSimulates(q, p, s.order, s.oldToNew);
    r := Scheduled(q, s.order, s.oldToNew, runs);
  }

  /** `place` is where each wanted row of p sits in q. */
  ghost predicate Inverts(source: seq<nat>, place: seq<InstructionId>) {
    && (forall i :: 0 <= i < |place| ==> place[i] <= |source|)
    && forall i, j :: 0 <= i < |place| && 0 <= j < |source| ==> (source[j] == i <==> place[i] == j + 1)
  }

  /** Need survives a rewriting: what is needed in p and kept in q is needed in q. */
  lemma {:induction false} NeedTransfers(q: Program, p: Program, source: seq<nat>, place: seq<InstructionId>,
                                         rootsQ: seq<bool>, rootsP: seq<bool>, i: nat)
    requires Topological(q) && Simulates(q, p, source) && |place| == |p.rows| && Inverts(source, place)
    requires |rootsQ| == |q.rows| && |rootsP| == |p.rows| && i < |p.rows|
    requires forall j :: 0 <= j < |q.rows| ==> source[j] < |p.rows| && rootsQ[j] == rootsP[source[j]]
    requires forall j :: 0 <= j < |p.rows| && Needed(p, rootsP, j) ==> place[j] != 0
    requires Needed(p, rootsP, i)
    ensures place[i] != 0 && Needed(q, rootsQ, place[i] - 1)
    decreases |p.rows| - i
  {
    hide Ops;
    var x := place[i] - 1;
    assert source[x] == i;
    if !rootsP[i] {
      var j :| i < j < |p.rows| && Needed(p, rootsP, j) && i + 1 in Ops(p, j);
      NeedTransfers(q, p, source, place, rootsQ, rootsP, j);
      var y := place[j] - 1;
      assert source[y] == j && Matches(q, p, source, y) && RowOk(q, y);
      var k :| 0 <= k < |Ops(p, j)| && Ops(p, j)[k] == i + 1;
      assert source[Ops(q, y)[k] - 1] == i;
      assert Ops(q, y)[k] == x + 1;
    }
  }
}
