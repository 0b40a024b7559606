/** Copying rows of a program into a new row order with a fresh operand slab.
    Compaction and scheduling both rewrite a program this way. */
module Relayouts {
  import opened Programs

  /** The new identifiers of a list of operands. */
  function Rename(ids: seq<InstructionId>, rename: seq<InstructionId>): seq<InstructionId>
    requires forall k :: 0 <= k < |ids| ==> 1 <= ids[k] <= |rename|
  {
    seq(|ids|, k requires 0 <= k < |ids| => rename[ids[k] - 1])
  }

  /** Row j of the new order can be written: its operands have been placed before. */
  ghost predicate Placeable(p: Program, source: seq<nat>, rename: seq<InstructionId>, j: nat)
    requires j < |source|
  {
    && |rename| == |p.rows|
    && source[j] < |p.rows|
    && forall k :: 0 <= k < |Ops(p, source[j])| ==>
         && 1 <= Ops(p, source[j])[k] <= |p.rows|
         && 1 <= rename[Ops(p, source[j])[k] - 1] <= j
         && source[rename[Ops(p, source[j])[k] - 1] - 1] == Ops(p, source[j])[k] - 1
  }

  ghost predicate AllPlaceable(p: Program, source: seq<nat>, rename: seq<InstructionId>) {
    forall j :: 0 <= j < |source| ==> Placeable(p, source, rename, j)
  }

  /** Row j of q is row source[j] of p with its operands renamed. */
  ghost predicate Placed(q: Program, p: Program, source: seq<nat>, rename: seq<InstructionId>, j: nat)
    requires j < |q.rows| && j < |source| && Placeable(p, source, rename, j)
  {
    && q.rows[j].payload == p.rows[source[j]].payload
    && q.rows[j].start + q.rows[j].count <= |q.operands|
    && Ops(q, j) == Rename(Ops(p, source[j]), rename)
  }

  lemma PlacedSurvives(q: Program, q': Program, p: Program, source: seq<nat>, rename: seq<InstructionId>, j: nat)
    requires j < |q.rows| && j < |source| && Placeable(p, source, rename, j) && Placed(q, p, source, rename, j)
    requires q.rows <= q'.rows && q.operands <= q'.operands
    ensures Placed(q', p, source, rename, j)
  {
    hide Rename;
    assert q'.rows[j] == q.rows[j];
    assert Ops(q', j) == Ops(q, j);
  }

  /** Append the renamed operands of one row. A missing or unplaced operand is refused. */
  method AppendOperands(ids: seq<InstructionId>, rename: seq<InstructionId>, limit: nat, slab: seq<InstructionId>)
    returns (ok: bool, result: seq<InstructionId>)
    ensures ok <==> forall k :: 0 <= k < |ids| ==> 1 <= ids[k] <= |rename| && 1 <= rename[ids[k] - 1] <= limit
    ensures ok ==> result == slab + Rename(ids, rename)
  {
    result := slab;
    for k := 0 to |ids|
      invariant forall l :: 0 <= l < k ==> 1 <= ids[l] <= |rename| && 1 <= rename[ids[l] - 1] <= limit
      invariant result == slab + Rename(ids[..k], rename)
    {
      if ids[k] == 0 || ids[k] > |rename| || rename[ids[k] - 1] == 0 || rename[ids[k] - 1] > limit {
        return false, result;
      }
      assert Rename(ids[..k + 1], rename) == Rename(ids[..k], rename) + [rename[ids[k] - 1]];
      result := result + [rename[ids[k] - 1]];
    }
    assert ids[..|ids|] == ids;
    ok := true;
  }

  lemma AppendPlaces(q: Program, q': Program, p: Program, source: seq<nat>, rename: seq<InstructionId>, j: nat)
    requires j == |q.rows| && j < |source| && Placeable(p, source, rename, j)
    requires var ids := Ops(p, source[j]);
             q' == Program(q.rows + [Row(p.rows[source[j]].payload, if |ids| == 0 then 0 else |q.operands|, |ids|)],
                           q.operands + Rename(ids, rename))
    ensures Placed(q', p, source, rename, j)
  {
    hide Ops;
    var renamed := Rename(Ops(p, source[j]), rename);
    var start := if |renamed| == 0 then 0 else |q.operands|;
    assert Range(q.operands + renamed, start, |renamed|) == renamed;
    OpsIsRange(q', j);
  }

  lemma OpsIsRange(p: Program, i: nat)
    requires i < |p.rows|
    ensures Ops(p, i) == Range(p.operands, p.rows[i].start, p.rows[i].count)
  {
  }

  /** Write the rows `source` in order. */
  method Relayout(p: Program, source: seq<nat>, rename: seq<InstructionId>) returns (ok: bool, q: Program)
    requires AllPlaceable(p, source, rename)
    ensures ok && |q.rows| == |source|
    ensures forall j :: 0 <= j < |source| ==> Placed(q, p, source, rename, j)
  {
    q := Program([], []);
    for j := 0 to |source|
      invariant |q.rows| == j
      invariant forall i :: 0 <= i < j ==> Placed(q, p, source, rename, i)
    {
      assert Placeable(p, source, rename, j);
      hide Ops, Placed;
      var ids := Ops(p, source[j]);
      var appended, operands := AppendOperands(ids, rename, j, q.operands);
      if !appended {
        return false, q;
      }
      var next := Program(q.rows + [Row(p.rows[source[j]].payload, if |ids| == 0 then 0 else |q.operands|, |ids|)],
                          operands);
      AppendPlaces(q, next, p, source, rename, j);
      forall i | 0 <= i < j
        ensures Placed(next, p, source, rename, i)
      {
        PlacedSurvives(q, next, p, source, rename, i);
      }
      q := next;
    }
    ok := true;
  }

  /** The rewritten program runs in order and simulates the original. */
  lemma RelayoutSimulates(q: Program, p: Program, source: seq<nat>, rename: seq<InstructionId>)
    requires Topological(p) && AllPlaceable(p, source, rename) && |q.rows| == |source|
    requires forall j :: 0 <= j < |source| ==> Placed(q, p, source, rename, j)
    ensures Topological(q) && Simulates(q, p, source)
  {
    hide Ops;
    forall j | 0 <= j < |source|
      ensures RowOk(q, j) && Matches(q, p, source, j)
    {
      assert Placeable(p, source, rename, j) && Placed(q, p, source, rename, j) && RowOk(p, source[j]);
    }
  }
}
