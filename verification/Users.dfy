/** The user lists of the scheduler, laid out by counting sort in one slab:
    `starts[d]` to `starts[id]` bounds the rows that read row d. */
module Users {
  import opened Programs

  function Count(s: seq<nat>, x: nat): nat {
    multiset(s)[x]
  }

  function Times(x: nat, k: nat): seq<nat> {
    seq(k, _ => x)
  }

  /** The rows below c that read instruction `id`, ascending, once per reading. */
  function UserList(p: Program, id: nat, c: nat): seq<nat>
    requires c <= |p.rows|
  {
    if c == 0 then [] else UserList(p, id, c - 1) + Times(c - 1, Count(Ops(p, c - 1), id))
  }

  /** The same, with the first k operands of row c added. */
  function PartialList(p: Program, id: nat, c: nat, k: nat): seq<nat>
    requires c < |p.rows| && k <= |Ops(p, c)|
  {
    UserList(p, id, c) + Times(c, Count(Ops(p, c)[..k], id))
  }

  lemma PartialEnds(p: Program, id: nat, c: nat)
    requires c < |p.rows|
    ensures PartialList(p, id, c, 0) == UserList(p, id, c)
    ensures PartialList(p, id, c, |Ops(p, c)|) == UserList(p, id, c + 1)
  {
    assert Ops(p, c)[..|Ops(p, c)|] == Ops(p, c);
    assert Ops(p, c)[..0] == [];
  }

  lemma PartialStep(p: Program, id: nat, c: nat, k: nat)
    requires c < |p.rows| && k < |Ops(p, c)|
    ensures PartialList(p, id, c, k + 1) == PartialList(p, id, c, k) + (if Ops(p, c)[k] == id then [c] else [])
  {
    hide Ops;
    var ops := Ops(p, c);
    assert ops[..k + 1] == ops[..k] + [ops[k]];
    if ops[k] == id {
      assert Times(c, Count(ops[..k], id) + 1) == Times(c, Count(ops[..k], id)) + [c];
    }
  }

  lemma {:induction false} ListGrows(p: Program, id: nat, c: nat, e: nat)
    requires c <= e <= |p.rows|
    ensures UserList(p, id, c) <= UserList(p, id, e)
    decreases e
  {
    hide Ops, Count, Times;
    if c < e {
      ListGrows(p, id, c, e - 1);
    }
  }

  lemma CountTimes(x: nat, k: nat, y: nat)
    ensures Count(Times(x, k), y) == if x == y then k else 0
  {
    if k > 0 {
      CountTimes(x, k - 1, y);
      assert Times(x, k) == Times(x, k - 1) + [x];
    } else {
      assert Times(x, 0) == [];
    }
  }

  lemma CountConcat(a: seq<nat>, b: seq<nat>, x: nat)
    ensures Count(a + b, x) == Count(a, x) + Count(b, x)
  {
  }

  /** Row e occurs in the list of `id` as often as `id` occurs among e's operands. */
  lemma {:induction false} ListCount(p: Program, id: nat, c: nat, e: nat)
    requires c <= |p.rows|
    ensures Count(UserList(p, id, c), e) == if e < c then Count(Ops(p, e), id) else 0
  {
    hide Ops, Times;
    if c > 0 {
      hide Count;
      ListCount(p, id, c - 1, e);
      var more := Count(Ops(p, c - 1), id);
      CountTimes(c - 1, more, e);
      CountConcat(UserList(p, id, c - 1), Times(c - 1, more), e);
    }
  }

  lemma {:induction false} ListBound(p: Program, id: nat, c: nat)
    requires c <= |p.rows|
    ensures forall k :: 0 <= k < |UserList(p, id, c)| ==> UserList(p, id, c)[k] < c
  {
    if c > 0 {
      hide Ops, Count;
      ListBound(p, id, c - 1);
    }
  }

  /** Where the list of row d begins in the slab. */
  function Offset(p: Program, d: nat): nat {
    if d == 0 then 0 else Offset(p, d - 1) + |UserList(p, d, |p.rows|)|
  }

  lemma {:induction false} OffsetMonotone(p: Program, d: nat, e: nat)
    requires d <= e
    ensures Offset(p, d) <= Offset(p, e)
    decreases e
  {
    if d < e {
      OffsetMonotone(p, d, e - 1);
    }
  }

  /** Count the readings of every row. */
  method CountUsers(p: Program) returns (indegree: seq<nat>, counts: seq<nat>)
    requires Ordered(p)
    ensures |indegree| == |p.rows| && forall c :: 0 <= c < |p.rows| ==> indegree[c] == |Ops(p, c)|
    ensures |counts| == |p.rows| + 1 && counts[0] == 0
    ensures forall i :: 1 <= i <= |p.rows| ==> counts[i] == |UserList(p, i, |p.rows|)|
  {
    var n := |p.rows|;
    indegree, counts := [], seq(n + 1, _ => 0);
    for c := 0 to n
      invariant |indegree| == c && forall b :: 0 <= b < c ==> indegree[b] == |Ops(p, b)|
      invariant |counts| == n + 1 && counts[0] == 0
      invariant forall i :: 1 <= i <= n ==> counts[i] == |UserList(p, i, c)|
    {
      indegree := indegree + [|Ops(p, c)|];
      counts := CountRow(p, counts, c);
    }
  }

  method CountRow(p: Program, before: seq<nat>, c: nat) returns (counts: seq<nat>)
    requires Ordered(p) && c < |p.rows| && |before| == |p.rows| + 1 && before[0] == 0
    requires forall i :: 1 <= i <= |p.rows| ==> before[i] == |UserList(p, i, c)|
    ensures |counts| == |p.rows| + 1 && counts[0] == 0
    ensures forall i :: 1 <= i <= |p.rows| ==> counts[i] == |UserList(p, i, c + 1)|
  {
    assert OperandsPrecede(p, c);
    hide Ops, UserList, Ordered;
    var operands := Ops(p, c);
    counts := before;
    hide PartialList;
    forall i | 1 <= i <= |p.rows|
      ensures before[i] == |PartialList(p, i, c, 0)|
    {
      PartialEnds(p, i, c);
    }
    for k := 0 to |operands|
      invariant |counts| == |p.rows| + 1 && counts[0] == 0
      invariant forall i :: 1 <= i <= |p.rows| ==> counts[i] == |PartialList(p, i, c, k)|
    {
      var next := counts[operands[k] := counts[operands[k]] + 1];
      forall i | 1 <= i <= |p.rows|
        ensures next[i] == |PartialList(p, i, c, k + 1)|
      {
        PartialStep(p, i, c, k);
      }
      counts := next;
    }
    forall i | 1 <= i <= |p.rows|
      ensures counts[i] == |UserList(p, i, c + 1)|
    {
      PartialEnds(p, i, c);
    }
  }

  /** Turn counts into offsets by a running sum. */
  method PrefixSums(p: Program, counts: seq<nat>) returns (starts: seq<nat>)
    requires |counts| == |p.rows| + 1 && counts[0] == 0
    requires forall i :: 1 <= i <= |p.rows| ==> counts[i] == |UserList(p, i, |p.rows|)|
    ensures |starts| == |counts| && forall i :: 0 <= i < |starts| ==> starts[i] == Offset(p, i)
  {
    hide UserList;
    starts := counts;
    for i := 1 to |starts|
      invariant |starts| == |counts|
      invariant forall j :: 0 <= j < i ==> starts[j] == Offset(p, j)
      invariant forall j :: i <= j < |starts| ==> starts[j] == counts[j]
    {
      starts := starts[i := starts[i] + starts[i - 1]];
    }
  }

  lemma PartialIsPrefix(p: Program, id: nat, c: nat, k: nat)
    requires c < |p.rows| && k <= |Ops(p, c)|
    ensures PartialList(p, id, c, k) <= UserList(p, id, |p.rows|)
  {
    ListGrows(p, id, c + 1, |p.rows|);
    hide Ops;
    assert Ops(p, c) == Ops(p, c)[..k] + Ops(p, c)[k..];
    CountConcat(Ops(p, c)[..k], Ops(p, c)[k..], id);
    TimesPrefix(c, Count(Ops(p, c)[..k], id), Count(Ops(p, c), id));
    assert PartialList(p, id, c, k) <= UserList(p, id, c + 1);
  }

  lemma TimesPrefix(x: nat, k: nat, l: nat)
    requires k <= l
    ensures Times(x, k) <= Times(x, l)
  {
  }

  /** While filling: the list of row d, as far as it is known, sits at its
      offset, and the fill cursor stands behind it. */
  ghost predicate Filled(p: Program, slab: seq<nat>, cursor: nat, d: nat, list: seq<nat>) {
    && cursor == Offset(p, d) + |list|
    && list <= UserList(p, d + 1, |p.rows|)
    && Offset(p, d + 1) <= |slab|
    && slab[Offset(p, d)..cursor] == list
  }

  lemma FilledWithin(p: Program, slab: seq<nat>, cursor: nat, d: nat, list: seq<nat>)
    requires Filled(p, slab, cursor, d, list)
    ensures Offset(p, d) <= cursor <= Offset(p, d + 1)
  {
    hide UserList;
  }

  /** Writing behind the list of row e leaves the list of another row alone. */
  lemma FillKeeps(p: Program, slab: seq<nat>, cursor: nat, d: nat, list: seq<nat>, e: nat, position: nat, x: nat)
    requires Filled(p, slab, cursor, d, list) && d != e
    requires Offset(p, e) <= position < Offset(p, e + 1) <= |slab|
    ensures Filled(p, slab[position := x], cursor, d, list)
  {
    hide UserList, Offset;
    FilledWithin(p, slab, cursor, d, list);
    if d < e {
      OffsetMonotone(p, d + 1, e);
    } else {
      OffsetMonotone(p, e + 1, d);
    }
  }

  lemma FillExtends(p: Program, slab: seq<nat>, cursor: nat, d: nat, list: seq<nat>, x: nat)
    requires Filled(p, slab, cursor, d, list) && list + [x] <= UserList(p, d + 1, |p.rows|)
    ensures cursor < Offset(p, d + 1) <= |slab|
    ensures Filled(p, slab[cursor := x], cursor + 1, d, list + [x])
  {
    hide UserList;
    var slab' := slab[cursor := x];
    assert slab'[Offset(p, d)..cursor + 1] == slab[Offset(p, d)..cursor] + [x];
  }

  /** Every list is filled as far as row c and its first k operands. */
  ghost predicate FilledTo(p: Program, slab: seq<nat>, fill: seq<nat>, c: nat, k: nat)
    requires c < |p.rows| && k <= |Ops(p, c)|
  {
    |fill| == |p.rows| && forall d :: 0 <= d < |fill| ==> Filled(p, slab, fill[d], d, PartialList(p, d + 1, c, k))
  }

  lemma FillTarget(p: Program, slab: seq<nat>, cursor: nat, c: nat, k: nat, e: nat)
    requires c < |p.rows| && k < |Ops(p, c)| && Ops(p, c)[k] == e + 1
    requires Filled(p, slab, cursor, e, PartialList(p, e + 1, c, k))
    ensures Offset(p, e) <= cursor < Offset(p, e + 1) <= |slab|
    ensures Filled(p, slab[cursor := c], cursor + 1, e, PartialList(p, e + 1, c, k + 1))
  {
    FilledBehind(p, slab, cursor, e, PartialList(p, e + 1, c, k));
    hide Ops, UserList, PartialList, Filled, Offset;
    PartialStep(p, e + 1, c, k);
    PartialIsPrefix(p, e + 1, c, k + 1);
    FillExtends(p, slab, cursor, e, PartialList(p, e + 1, c, k), c);
  }

  lemma FillOther(p: Program, slab: seq<nat>, cursor: nat, c: nat, k: nat, e: nat, position: nat, d: nat)
    requires c < |p.rows| && k < |Ops(p, c)| && Ops(p, c)[k] == e + 1 && d != e
    requires Filled(p, slab, cursor, d, PartialList(p, d + 1, c, k))
    requires Offset(p, e) <= position < Offset(p, e + 1) <= |slab|
    ensures Filled(p, slab[position := c], cursor, d, PartialList(p, d + 1, c, k + 1))
  {
    hide Ops, UserList, PartialList, Filled, Offset;
    PartialStep(p, d + 1, c, k);
    assert PartialList(p, d + 1, c, k) + [] == PartialList(p, d + 1, c, k);
    FillKeeps(p, slab, cursor, d, PartialList(p, d + 1, c, k), e, position, c);
  }

  lemma FillStep(p: Program, slab: seq<nat>, fill: seq<nat>, c: nat, k: nat, e: nat)
    requires c < |p.rows| && k < |Ops(p, c)| && FilledTo(p, slab, fill, c, k) && Ops(p, c)[k] == e + 1 && e < |fill|
    ensures fill[e] < |slab|
    ensures FilledTo(p, slab[fill[e] := c], fill[e := fill[e] + 1], c, k + 1)
  {
    hide Ops, UserList, PartialList, Filled, Offset;
    FillTarget(p, slab, fill[e], c, k, e);
    var slab', fill' := slab[fill[e] := c], fill[e := fill[e] + 1];
    var l := k + 1;
    forall d | 0 <= d < |fill'|
      ensures Filled(p, slab', fill'[d], d, PartialList(p, d + 1, c, l))
    {
      if d != e {
        FillOther(p, slab, fill[d], c, k, e, fill[e], d);
      }
    }
  }

  lemma FilledBehind(p: Program, slab: seq<nat>, cursor: nat, d: nat, list: seq<nat>)
    requires Filled(p, slab, cursor, d, list)
    ensures Offset(p, d) <= cursor
  {
  }

  method FillRow(p: Program, slab: seq<nat>, fill: seq<nat>, c: nat) returns (slab': seq<nat>, fill': seq<nat>)
    requires Ordered(p) && c < |p.rows| && FilledTo(p, slab, fill, c, 0)
    ensures FilledTo(p, slab', fill', c, |Ops(p, c)|) && |slab'| == |slab|
  {
    assert OperandsPrecede(p, c);
    hide Ops, Filled, PartialList, Ordered;
    var operands := Ops(p, c);
    slab', fill' := slab, fill;
    for k := 0 to |operands|
      invariant FilledTo(p, slab', fill', c, k) && |slab'| == |slab|
    {
      var e := operands[k] - 1;
      FillStep(p, slab', fill', c, k, e);
      var position := fill'[e];
      slab' := slab'[position := c];
      fill' := fill'[e := position + 1];
    }
  }

  /** The user lists read out of the slab. */
  function Lists(starts: seq<nat>, slab: seq<nat>): seq<seq<nat>>
    requires |starts| >= 1
  {
    seq(|starts| - 1, d requires 0 <= d < |starts| - 1 =>
      if starts[d] <= starts[d + 1] <= |slab| then slab[starts[d]..starts[d + 1]] else [])
  }

  /** The lists name, for every row, its readers with multiplicity. */
  ghost predicate UsersOk(p: Program, users: seq<seq<nat>>) {
    && |users| == |p.rows|
    && (forall d, c :: 0 <= d < |p.rows| && 0 <= c < |p.rows| ==> Count(users[d], c) == Count(Ops(p, c), d + 1))
    && (forall d, k :: 0 <= d < |p.rows| && 0 <= k < |users[d]| ==> users[d][k] < |p.rows|)
  }

  lemma ListsAreUsers(p: Program, starts: seq<nat>, slab: seq<nat>)
    requires |starts| == |p.rows| + 1
    requires forall d :: 0 <= d < |p.rows| ==> Lists(starts, slab)[d] == UserList(p, d + 1, |p.rows|)
    ensures UsersOk(p, Lists(starts, slab))
  {
    hide Ops, UserList, Count;
    var users := Lists(starts, slab);
    forall d, c | 0 <= d < |p.rows| && 0 <= c < |p.rows|
      ensures Count(users[d], c) == Count(Ops(p, c), d + 1)
    {
      ListCount(p, d + 1, |p.rows|, c);
    }
    forall d, k | 0 <= d < |p.rows| && 0 <= k < |users[d]|
      ensures users[d][k] < |p.rows|
    {
      ListBound(p, d + 1, |p.rows|);
    }
  }

  /** Start of row c: every list holds the readers below c. */
  ghost predicate RowsFilled(p: Program, slab: seq<nat>, fill: seq<nat>, c: nat)
    requires c <= |p.rows|
  {
    |fill| == |p.rows| && forall d :: 0 <= d < |fill| ==> Filled(p, slab, fill[d], d, UserList(p, d + 1, c))
  }

  lemma RowBounds(p: Program, slab: seq<nat>, fill: seq<nat>, c: nat)
    requires c < |p.rows|
    ensures RowsFilled(p, slab, fill, c) <==> FilledTo(p, slab, fill, c, 0)
    ensures RowsFilled(p, slab, fill, c + 1) <==> FilledTo(p, slab, fill, c, |Ops(p, c)|)
  {
    hide Ops, Filled, UserList;
    forall d | 0 <= d < |fill|
      ensures Filled(p, slab, fill[d], d, PartialList(p, d + 1, c, 0)) <==>
              Filled(p, slab, fill[d], d, UserList(p, d + 1, c))
      ensures Filled(p, slab, fill[d], d, PartialList(p, d + 1, c, |Ops(p, c)|)) <==>
              Filled(p, slab, fill[d], d, UserList(p, d + 1, c + 1))
    {
      PartialEnds(p, d + 1, c);
    }
  }

  lemma FillStart(p: Program, slab: seq<nat>, starts: seq<nat>)
    requires |starts| == |p.rows| + 1 && |slab| == Offset(p, |p.rows|)
    requires forall i :: 0 <= i < |starts| ==> starts[i] == Offset(p, i)
    ensures RowsFilled(p, slab, starts[..|p.rows|], 0)
  {
    hide Filled, Offset;
    forall d | 0 <= d < |p.rows|
      ensures Filled(p, slab, starts[..|p.rows|][d], d, UserList(p, d + 1, 0))
    {
      FilledNone(p, slab, d);
    }
  }

  lemma FilledNone(p: Program, slab: seq<nat>, d: nat)
    requires d < |p.rows| && |slab| == Offset(p, |p.rows|)
    ensures Filled(p, slab, Offset(p, d), d, [])
  {
    OffsetMonotone(p, d, d + 1);
    OffsetMonotone(p, d + 1, |p.rows|);
    hide Offset, UserList;
  }

  lemma FillEnd(p: Program, slab: seq<nat>, fill: seq<nat>, starts: seq<nat>)
    requires |starts| == |p.rows| + 1 && forall i :: 0 <= i < |starts| ==> starts[i] == Offset(p, i)
    requires RowsFilled(p, slab, fill, |p.rows|)
    ensures UsersOk(p, Lists(starts, slab)) && ListsAscend(Lists(starts, slab))
  {
    hide UserList;
    forall d | 0 <= d < |p.rows|
      ensures Lists(starts, slab)[d] == UserList(p, d + 1, |p.rows|) && Ascends(Lists(starts, slab)[d])
    {
      assert Filled(p, slab, fill[d], d, UserList(p, d + 1, |p.rows|));
      UserListAscends(p, d + 1, |p.rows|);
    }
    ListsAreUsers(p, starts, slab);
  }

  predicate Ascends(list: seq<nat>) {
    forall j, k :: 0 <= j < k < |list| ==> list[j] <= list[k]
  }

  /** Every list names its readers in row order. */
  predicate ListsAscend(users: seq<seq<nat>>) {
    forall d :: 0 <= d < |users| ==> Ascends(users[d])
  }

  lemma {:induction false} UserListAscends(p: Program, id: nat, c: nat)
    requires c <= |p.rows|
    ensures Ascends(UserList(p, id, c)) && forall k :: 0 <= k < |UserList(p, id, c)| ==> UserList(p, id, c)[k] < c
  {
    hide Ops, Count;
    if c > 0 {
      UserListAscends(p, id, c - 1);
    }
  }

  /** Build operand counts and the user lists. */
  method BuildScheduleUsers(p: Program) returns (indegree: seq<nat>, starts: seq<nat>, slab: seq<nat>)
    requires Ordered(p)
    ensures |indegree| == |p.rows| && forall c :: 0 <= c < |p.rows| ==> indegree[c] == |Ops(p, c)|
    ensures |starts| == |p.rows| + 1 && UsersOk(p, Lists(starts, slab)) && ListsAscend(Lists(starts, slab))
  {
    var n := |p.rows|;
    var counts;
    indegree, counts := CountUsers(p);
    starts := PrefixSums(p, counts);
    slab := seq(starts[n], _ => 0);
    var fill := starts[..n];
    FillStart(p, slab, starts);
    hide RowsFilled, UsersOk, FilledTo, Ordered, Lists, Ops;
    for c := 0 to n
      invariant RowsFilled(p, slab, fill, c)
    {
      RowBounds(p, slab, fill, c);
      slab, fill := FillRow(p, slab, fill, c);
      RowBounds(p, slab, fill, c);
    }
    FillEnd(p, slab, fill, starts);
  }
}
