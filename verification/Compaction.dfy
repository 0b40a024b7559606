/** Dead-row removal: one reverse pass marks the rows that roots need, and the
    live rows are copied without changing their order. */
module Compaction {
  import opened Programs
  import opened Relayouts

  /** Row i is a root, or a needed later row reads it. */
  ghost predicate Needed(p: Program, roots: seq<bool>, i: nat)
    requires |roots| == |p.rows| && i < |p.rows|
    decreases |p.rows| - i
  {
    roots[i] || exists j :: i < j < |p.rows| && Needed(p, roots, j) && i + 1 in Ops(p, j)
  }

  /** The same, counting only the readers from `bound` on. */
  ghost predicate NeededFrom(p: Program, roots: seq<bool>, i: nat, bound: nat)
    requires |roots| == |p.rows| && i < |p.rows|
  {
    roots[i] || exists j :: bound <= j < |p.rows| && i < j && Needed(p, roots, j) && i + 1 in Ops(p, j)
  }

  ghost predicate MarkedFrom(p: Program, roots: seq<bool>, live: seq<bool>, bound: nat) {
    |roots| == |live| == |p.rows| && forall i :: 0 <= i < |p.rows| ==> (live[i] <==> NeededFrom(p, roots, i, bound))
  }

  /** Mark the operands of one row. Operands out of range are refused. */
  method MarkOperands(ids: seq<InstructionId>, live: seq<bool>) returns (ok: bool, marked: seq<bool>)
    ensures ok <==> forall k :: 0 <= k < |ids| ==> 1 <= ids[k] <= |live|
    ensures ok ==> |marked| == |live| && forall i :: 0 <= i < |live| ==> (marked[i] <==> live[i] || i + 1 in ids)
  {
    marked := live;
    for k := 0 to |ids|
      invariant |marked| == |live|
      invariant forall l :: 0 <= l < k ==> 1 <= ids[l] <= |live|
      invariant forall i :: 0 <= i < |live| ==> (marked[i] <==> live[i] || i + 1 in ids[..k])
    {
      if ids[k] == 0 || ids[k] > |live| {
        return false, marked;
      }
      assert ids[..k + 1] == ids[..k] + [ids[k]];
      marked := marked[ids[k] - 1 := true];
    }
    assert ids[..|ids|] == ids;
    ok := true;
  }

  lemma MarkStep(p: Program, roots: seq<bool>, live: seq<bool>, marked: seq<bool>, i: nat)
    requires Ordered(p) && i < |p.rows| && MarkedFrom(p, roots, live, i + 1) && |marked| == |live|
    requires forall k :: 0 <= k < |live| ==> (marked[k] <==> live[k] || (live[i] && k + 1 in Ops(p, i)))
    ensures MarkedFrom(p, roots, marked, i)
  {
    hide Ops;
    assert OperandsPrecede(p, i);
    assert live[i] <==> Needed(p, roots, i);
    forall k | 0 <= k < |live|
      ensures marked[k] <==> NeededFrom(p, roots, k, i)
    {
      if marked[k] && !live[k] {
        assert Needed(p, roots, i) && k + 1 in Ops(p, i);
      }
    }
  }

  /** One pass from the last row down marks exactly the needed rows. */
  method MarkLive(p: Program, roots: seq<bool>) returns (ok: bool, live: seq<bool>)
    requires Ordered(p) && |roots| == |p.rows|
    ensures ok && |live| == |p.rows|
    ensures forall i :: 0 <= i < |p.rows| ==> (live[i] <==> Needed(p, roots, i))
  {
    live := roots;
    for i := |p.rows| downto 0
      invariant MarkedFrom(p, roots, live, i)
    {
      assert OperandsPrecede(p, i);
      hide Ops, Needed;
      var marked := live;
      if live[i] {
        ok, marked := MarkOperands(Ops(p, i), live);
        if !ok {
          return false, live;
        }
      }
      MarkStep(p, roots, live, marked, i);
      live := marked;
    }
    ok := true;
    forall i | 0 <= i < |p.rows|
      ensures live[i] <==> Needed(p, roots, i)
    {
      assert NeededFrom(p, roots, i, 0) <==> Needed(p, roots, i);
    }
  }

  /** The live rows below n, ascending. */
  function LiveRows(live: seq<bool>, n: nat): seq<nat>
    requires n <= |live|
  {
    if n == 0 then [] else if live[n - 1] then LiveRows(live, n - 1) + [n - 1] else LiveRows(live, n - 1)
  }

  /** The new identifier of a row: its one-based place among the live rows, or 0. */
  function FinalId(live: seq<bool>, i: nat): InstructionId
    requires i < |live|
  {
    if live[i] then |LiveRows(live, i)| + 1 else 0
  }

  lemma {:induction false} LiveRowsExact(live: seq<bool>, n: nat)
    requires n <= |live|
    ensures forall j :: 0 <= j < |LiveRows(live, n)| ==>
              LiveRows(live, n)[j] < n && live[LiveRows(live, n)[j]] && FinalId(live, LiveRows(live, n)[j]) == j + 1
    ensures forall i :: 0 <= i < n && live[i] ==>
              FinalId(live, i) <= |LiveRows(live, n)| && LiveRows(live, n)[FinalId(live, i) - 1] == i
  {
    if n > 0 {
      LiveRowsExact(live, n - 1);
    }
  }

  lemma {:induction false} FinalIdMonotone(live: seq<bool>, i: nat, j: nat)
    requires i < j < |live| && live[i] && live[j]
    ensures FinalId(live, i) < FinalId(live, j)
    decreases j
  {
    LiveRowsExact(live, j);
  }

  /** Number the live rows. */
  method NumberLive(live: seq<bool>) returns (toFinal: seq<InstructionId>, source: seq<nat>)
    ensures |toFinal| == |live| && forall i :: 0 <= i < |live| ==> toFinal[i] == FinalId(live, i)
    ensures source == LiveRows(live, |live|)
  {
    toFinal, source := [], [];
    for i := 0 to |live|
      invariant |toFinal| == i && forall k :: 0 <= k < i ==> toFinal[k] == FinalId(live, k)
      invariant source == LiveRows(live, i)
    {
      if live[i] {
        source := source + [i];
        toFinal := toFinal + [|source|];
      } else {
        toFinal := toFinal + [0];
      }
    }
  }

  /** The operands of a live row are live, so they are placed before it. */
  lemma LiveRowsPlaceable(p: Program, roots: seq<bool>, live: seq<bool>, toFinal: seq<InstructionId>, j: nat)
    requires Ordered(p) && |roots| == |live| == |p.rows|
    requires forall i :: 0 <= i < |p.rows| ==> (live[i] <==> Needed(p, roots, i))
    requires |toFinal| == |live| && forall i :: 0 <= i < |live| ==> toFinal[i] == FinalId(live, i)
    requires j < |LiveRows(live, |live|)|
    ensures Placeable(p, LiveRows(live, |live|), toFinal, j)
  {
    hide Ops, LiveRows, FinalId, Needed;
    LiveRowsExact(live, |live|);
    var source := LiveRows(live, |live|);
    var i := source[j];
    assert OperandsPrecede(p, i);
    forall k | 0 <= k < |Ops(p, i)|
      ensures 1 <= toFinal[Ops(p, i)[k] - 1] <= j && source[toFinal[Ops(p, i)[k] - 1] - 1] == Ops(p, i)[k] - 1
    {
      OperandPlaced(p, roots, live, i, k);
    }
  }

  /** An operand of a live row is live and numbered before it. */
  lemma OperandPlaced(p: Program, roots: seq<bool>, live: seq<bool>, i: nat, k: nat)
    requires Ordered(p) && |roots| == |live| == |p.rows| && i < |live| && live[i] && k < |Ops(p, i)|
    requires forall r :: 0 <= r < |p.rows| ==> (live[r] <==> Needed(p, roots, r))
    ensures 1 <= Ops(p, i)[k] <= i
    ensures var o := Ops(p, i)[k] - 1; live[o] && 1 <= FinalId(live, o) < FinalId(live, i)
  {
    hide Ops, FinalId;
    assert OperandsPrecede(p, i);
    var o := Ops(p, i)[k] - 1;
    assert o + 1 in Ops(p, i);
    assert Needed(p, roots, o);
    FinalIdMonotone(live, o, i);
    FinalIdPositive(live, o);
  }

  lemma FinalIdPositive(live: seq<bool>, i: nat)
    requires i < |live| && live[i]
    ensures FinalId(live, i) >= 1
  {
  }

  datatype Compacted = Compacted(program: Program, toFinal: seq<InstructionId>, source: seq<nat>)

  /** The compacted program: the needed rows in their old order, renumbered. */
  ghost predicate CompactionOk(p: Program, roots: seq<bool>, c: Compacted) {
    && |roots| == |p.rows| == |c.toFinal| && |c.source| == |c.program.rows| <= |p.rows|
    && Topological(c.program) && Simulates(c.program, p, c.source)
    && (forall i :: 0 <= i < |p.rows| ==> (c.toFinal[i] != 0 <==> Needed(p, roots, i)) && c.toFinal[i] <= |c.source|)
    && (forall i, j :: 0 <= i < |p.rows| && 0 <= j < |c.source| ==> (c.source[j] == i <==> c.toFinal[i] == j + 1))
  }

  method Compact(p: Program, roots: seq<bool>) returns (ok: bool, c: Compacted)
    requires Topological(p) && |roots| == |p.rows|
    ensures ok && CompactionOk(p, roots, c)
  {
    TopologicalIsOrdered(p);
    hide Needed, LiveRows, FinalId, Ordered, Ops;
    var marked, live := MarkLive(p, roots);
    if !marked {
      return false, Compacted(p, [], []);
    }
    var toFinal, source := NumberLive(live);
    forall j | 0 <= j < |source|
      ensures Placeable(p, source, toFinal, j)
    {
      LiveRowsPlaceable(p, roots, live, toFinal, j);
    }
    var q;
    ok, q := Relayout(p, source, toFinal);
    RelayoutSimulates(q, p, source, toFinal);
    c := Compacted(q, toFinal, source);
    LiveRowsBound(live, |live|);
    NumbersAgree(live, toFinal, source);
  }

  lemma {:induction false} LiveRowsBound(live: seq<bool>, n: nat)
    requires n <= |live|
    ensures |LiveRows(live, n)| <= n
  {
    if n > 0 {
      LiveRowsBound(live, n - 1);
    }
  }

  lemma NumbersAgree(live: seq<bool>, toFinal: seq<InstructionId>, source: seq<nat>)
    requires |toFinal| == |live| && source == LiveRows(live, |live|)
    requires forall i :: 0 <= i < |live| ==> toFinal[i] == FinalId(live, i)
    ensures forall i :: 0 <= i < |live| ==> (toFinal[i] != 0 <==> live[i]) && toFinal[i] <= |source|
    ensures forall i, j :: 0 <= i < |live| && 0 <= j < |source| ==> (source[j] == i <==> toFinal[i] == j + 1)
  {
    LiveRowsExact(live, |live|);
    hide LiveRows;
  }
}
