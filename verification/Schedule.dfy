/** Opcode-run scheduling: repeatedly pick the lowest opcode with a ready row and
    drain its ready rows in ascending order, releasing users as it goes. */
module Schedule {
  import opened Bitsets
  import opened Programs
  import opened Users

  /** How many operands (with repetition) refer to rows not in `done`. */
  function Pending(ops: seq<nat>, done: set<nat>): nat {
    if ops == [] then 0
    else (if ops[0] >= 1 && ops[0] - 1 in done then 0 else 1) + Pending(ops[1..], done)
  }

  lemma {:induction false} PendingZero(ops: seq<nat>, done: set<nat>)
    requires forall k :: 0 <= k < |ops| ==> ops[k] >= 1
    ensures Pending(ops, done) == 0 <==> forall k :: 0 <= k < |ops| ==> ops[k] - 1 in done
  {
    if ops != [] {
      PendingZero(ops[1..], done);
      assert forall k :: 1 <= k < |ops| ==> ops[k] == ops[1..][k - 1];
    }
  }

  lemma {:induction false} PendingStart(ops: seq<nat>)
    ensures Pending(ops, {}) == |ops|
  {
    if ops != [] {
      PendingStart(ops[1..]);
    }
  }

  lemma {:induction false} PendingStep(ops: seq<nat>, done: set<nat>, x: nat)
    requires x !in done && forall k :: 0 <= k < |ops| ==> ops[k] >= 1
    ensures Pending(ops, done) == Pending(ops, done + {x}) + Count(ops, x + 1)
  {
    if ops != [] {
      PendingStep(ops[1..], done, x);
      assert ops == [ops[0]] + ops[1..];
    }
  }

  datatype State = State(
    order: seq<nat>,
    oldToNew: seq<nat>,
    indegree: seq<nat>,
    ready: seq<set<nat>>,
    readyCount: seq<nat>)

  /** The scheduled rows. */
  function Done(s: State): set<nat> {
    set i | 0 <= i < |s.oldToNew| && s.oldToNew[i] != 0
  }

  /** The order and its inverse agree, and operands come before their users. */
  ghost predicate OrderOk(p: Program, s: State) {
    && |s.oldToNew| == |p.rows| && |s.order| <= |p.rows|
    && (forall q :: 0 <= q < |s.order| ==> s.order[q] < |p.rows|)
    && (forall i :: 0 <= i < |p.rows| ==> s.oldToNew[i] <= |s.order|)
    && (forall i, q :: 0 <= i < |p.rows| && 0 <= q < |s.order| ==> (s.order[q] == i <==> s.oldToNew[i] == q + 1))
    && (forall i, k :: 0 <= i < |p.rows| && s.oldToNew[i] != 0 && 0 <= k < |Ops(p, i)| ==>
          1 <= Ops(p, i)[k] <= |p.rows| && 0 < s.oldToNew[Ops(p, i)[k] - 1] < s.oldToNew[i])
  }

  /** Each counter is the number of operands outstanding, plus the notifications
      in `rest` that are still to be delivered. */
  ghost predicate IndegreesOk(p: Program, s: State, rest: seq<nat>) {
    && |s.indegree| == |p.rows|
    && forall u :: 0 <= u < |p.rows| ==> s.indegree[u] == Pending(Ops(p, u), Done(s)) + Count(rest, u)
  }

  /** The ready sets hold, by opcode, the unscheduled rows that wait for nothing. */
  ghost predicate ReadyOk(p: Program, s: State) {
    && |s.indegree| == |p.rows| == |s.oldToNew| && |s.ready| == |s.readyCount| == DEFINED + 1
    && (forall u :: 0 <= u < |p.rows| ==>
          && ValidOpcode(OpcodeAt(p, u))
          && (u in s.ready[OpcodeAt(p, u)] <==> s.oldToNew[u] == 0 && s.indegree[u] == 0))
    && (forall o :: 0 <= o < |s.ready| ==> forall u :: u in s.ready[o] ==> u < |p.rows| && OpcodeAt(p, u) == o)
    && (forall o :: 0 <= o < |s.ready| ==> s.readyCount[o] == |s.ready[o]|)
  }

  ghost predicate CountersOk(p: Program, s: State, rest: seq<nat>) {
    IndegreesOk(p, s, rest) && ReadyOk(p, s)
  }

  function Take(s: State, o: Opcode, x: nat): State
    requires o < |s.ready| && o < |s.readyCount| && s.readyCount[o] > 0 && x < |s.oldToNew|
  {
    State(s.order + [x], s.oldToNew[x := |s.order| + 1], s.indegree, s.ready[o := s.ready[o] - {x}],
          s.readyCount[o := s.readyCount[o] - 1])
  }

  lemma DoneAfterTake(p: Program, s: State, o: Opcode, x: nat)
    requires o < |s.ready| && o < |s.readyCount| && s.readyCount[o] > 0 && x < |s.oldToNew|
    ensures Done(Take(s, o, x)) == Done(s) + {x}
  {
  }

  /** While some row is unscheduled the order is shorter than the program. */
  lemma OrderIsShort(n: nat, order: seq<nat>, oldToNew: seq<nat>, x: nat)
    requires |oldToNew| == n && x < n && oldToNew[x] == 0
    requires forall q :: 0 <= q < |order| ==> order[q] < n
    requires forall i, q :: 0 <= i < n && 0 <= q < |order| ==> (order[q] == i <==> oldToNew[i] == q + 1)
    ensures |order| < n
  {
    hide UpTo;
    var from, to := UpTo(|order|), UpTo(n) - {x + 1};
    var f := map q | q in from :: order[q - 1] + 1;
    forall a, b | a in from && b in from && a != b
      ensures f[a] != f[b]
    {
      var i := order[a - 1];
      assert oldToNew[i] == a;
    }
    forall a | a in from
      ensures f[a] in to
    {
      assert order[a - 1] == x <==> oldToNew[x] == a;
    }
    InjectionBound(from, to, f);
  }

  /** A ready row is unscheduled and waits for nothing. */
  lemma ReadyRow(p: Program, s: State, o: Opcode, x: nat)
    requires Ordered(p) && CountersOk(p, s, []) && o < |s.ready| && x in s.ready[o]
    ensures x < |p.rows| == |s.oldToNew| && |s.readyCount| == |s.ready| && s.oldToNew[x] == 0 && s.readyCount[o] > 0
    ensures forall k :: 0 <= k < |Ops(p, x)| ==> 1 <= Ops(p, x)[k] <= |p.rows| && s.oldToNew[Ops(p, x)[k] - 1] != 0
  {
    hide Ops, Pending, Count;
    ReadyIsFree(p, s, o, x);
    hide CountersOk;
    assert OperandsPrecede(p, x);
    PendingZero(Ops(p, x), Done(s));
    forall k | 0 <= k < |Ops(p, x)|
      ensures s.oldToNew[Ops(p, x)[k] - 1] != 0
    {
      assert Ops(p, x)[k] - 1 in Done(s);
    }
  }

  lemma ReadyIsFree(p: Program, s: State, o: Opcode, x: nat)
    requires CountersOk(p, s, []) && o < |s.ready| && x in s.ready[o]
    ensures x < |p.rows| == |s.oldToNew| && |s.readyCount| == |s.ready| && s.oldToNew[x] == 0 && s.readyCount[o] > 0
    ensures Pending(Ops(p, x), Done(s)) == 0
  {
    hide Ops, Pending;
    assert s.oldToNew[x] == 0 && s.indegree[x] == 0;
  }

  lemma TakeKeepsOrder(p: Program, s: State, o: Opcode, x: nat)
    requires OrderOk(p, s) && o < |s.ready| && o < |s.readyCount| && s.readyCount[o] > 0
    requires x < |p.rows| && s.oldToNew[x] == 0
    requires forall k :: 0 <= k < |Ops(p, x)| ==> 1 <= Ops(p, x)[k] <= |p.rows| && s.oldToNew[Ops(p, x)[k] - 1] != 0
    ensures OrderOk(p, Take(s, o, x))
  {
    hide Ops;
    OrderIsShort(|p.rows|, s.order, s.oldToNew, x);
    var t := Take(s, o, x);
    forall i, k | 0 <= i < |p.rows| && t.oldToNew[i] != 0 && 0 <= k < |Ops(p, i)|
      ensures 1 <= Ops(p, i)[k] <= |p.rows| && 0 < t.oldToNew[Ops(p, i)[k] - 1] < t.oldToNew[i]
    {
      assert i != x ==> s.oldToNew[i] != 0;
    }
  }

  lemma TakeKeepsReady(p: Program, s: State, o: Opcode, x: nat)
    requires ReadyOk(p, s) && o < |s.ready| && x < |p.rows| && x in s.ready[o] && s.readyCount[o] > 0
    ensures ReadyOk(p, Take(s, o, x))
  {
    assert s.ready[o] == s.ready[o] - {x} + {x};
  }

  lemma TakeKeepsCounters(p: Program, s: State, users: seq<seq<nat>>, o: Opcode, x: nat)
    requires Ordered(p) && UsersOk(p, users) && CountersOk(p, s, [])
    requires o < |s.ready| && x < |p.rows| && x in s.ready[o] && s.oldToNew[x] == 0 && s.readyCount[o] > 0
    ensures CountersOk(p, Take(s, o, x), users[x])
  {
    TakeKeepsReady(p, s, o, x);
    hide Ops, ReadyOk;
    var t := Take(s, o, x);
    DoneAfterTake(p, s, o, x);
    forall u | 0 <= u < |p.rows|
      ensures t.indegree[u] == Pending(Ops(p, u), Done(t)) + Count(users[x], u)
    {
      assert OperandsPrecede(p, u);
      PendingStep(Ops(p, u), Done(s), x);
    }
  }

  /** One user has one operand fewer to wait for; at zero it becomes ready. */
  function Notify(p: Program, s: State, user: nat): State
    requires user < |p.rows| && |s.indegree| == |p.rows| && s.indegree[user] > 0
    requires OpcodeAt(p, user) < |s.ready| && OpcodeAt(p, user) < |s.readyCount|
  {
    var indegree, o := s.indegree[user := s.indegree[user] - 1], OpcodeAt(p, user);
    if indegree[user] == 0 then
      State(s.order, s.oldToNew, indegree, s.ready[o := s.ready[o] + {user}], s.readyCount[o := s.readyCount[o] + 1])
    else
      State(s.order, s.oldToNew, indegree, s.ready, s.readyCount)
  }

  lemma NotifyKeepsReady(p: Program, s: State, user: nat)
    requires ReadyOk(p, s) && user < |p.rows| && s.oldToNew[user] == 0 && s.indegree[user] > 0
    ensures ReadyOk(p, Notify(p, s, user))
  {
  }

  lemma NotifyKeeps(p: Program, s: State, list: seq<nat>, k: nat)
    requires k < |list| && list[k] < |p.rows| && CountersOk(p, s, list[k..]) && s.oldToNew[list[k]] == 0
    ensures s.indegree[list[k]] > 0
    ensures CountersOk(p, Notify(p, s, list[k]), list[k + 1..])
  {
    hide Ops, Pending;
    var user := list[k];
    assert list[k..] == [user] + list[k + 1..];
    assert Count(list[k..], user) == 1 + Count(list[k + 1..], user);
    NotifyKeepsReady(p, s, user);
    hide ReadyOk;
    var t := Notify(p, s, user);
    assert Done(t) == Done(s);
    assert forall u :: u != user ==> Count(list[k..], u) == Count(list[k + 1..], u);
  }

  /** The rows that read x are scheduled after it. */
  lemma UserNotDone(p: Program, s: State, users: seq<seq<nat>>, x: nat, user: nat)
    requires Ordered(p) && UsersOk(p, users) && OrderOk(p, s) && x < |p.rows| && user in users[x]
    requires s.oldToNew[x] == |s.order|
    ensures x < user < |p.rows| == |s.oldToNew| && s.oldToNew[user] == 0
  {
    hide Ops;
    var k :| 0 <= k < |users[x]| && users[x][k] == user;
    assert Count(users[x], user) > 0;
    assert x + 1 in multiset(Ops(p, user));
    assert OperandsPrecede(p, user);
  }

  /** Tell every user of x that it is scheduled. */
  method NotifyUsers(p: Program, s: State, users: seq<seq<nat>>, x: nat) returns (ok: bool, t: State)
    requires Ordered(p) && UsersOk(p, users) && OrderOk(p, s) && x < |p.rows| && s.oldToNew[x] == |s.order|
    requires CountersOk(p, s, users[x])
    ensures ok && OrderOk(p, t) && CountersOk(p, t, [])
    ensures t.order == s.order && t.oldToNew == s.oldToNew && |t.ready| == |s.ready|
    ensures forall o, u :: 0 <= o < |t.ready| && u in t.ready[o] ==> u in s.ready[o] || u > x
  {
    hide CountersOk, UsersOk, OrderOk, Ordered, Notified;
    t := s;
    UsersInRange(p, users, x);
    var list := users[x];
    NotifiedStart(p, s, x, list);
    for k := 0 to |list|
      invariant Notified(p, s, t, x, list[k..])
    {
      UserNotDone(p, s, users, x, list[k]);
      NotifiedStep(p, s, t, x, list, k);
      if t.indegree[list[k]] == 0 {
        return false, t;
      }
      t := Notify(p, t, list[k]);
    }
    assert list[|list|..] == [];
    NotifiedEnd(p, s, t, x);
    ok := true;
  }

  /** Some users of row x have been notified and `rest` have not: only later rows have
      become ready. */
  ghost predicate Notified(p: Program, s: State, t: State, x: nat, rest: seq<nat>) {
    && t.order == s.order && t.oldToNew == s.oldToNew && |t.ready| == |s.ready|
    && CountersOk(p, t, rest)
    && forall o, u :: 0 <= o < |t.ready| && u in t.ready[o] ==> u in s.ready[o] || u > x
  }

  lemma NotifiedStart(p: Program, s: State, x: nat, list: seq<nat>)
    requires CountersOk(p, s, list)
    ensures Notified(p, s, s, x, list[0..])
  {
    hide CountersOk;
    assert list[0..] == list;
  }

  lemma NotifiedStep(p: Program, s: State, t: State, x: nat, list: seq<nat>, k: nat)
    requires k < |list| && Notified(p, s, t, x, list[k..]) && x < list[k] < |p.rows|
    requires |s.oldToNew| == |p.rows| && s.oldToNew[list[k]] == 0
    ensures |t.indegree| == |p.rows| && t.indegree[list[k]] > 0
    ensures OpcodeAt(p, list[k]) < |t.ready| && OpcodeAt(p, list[k]) < |t.readyCount|
    ensures Notified(p, s, Notify(p, t, list[k]), x, list[k + 1..])
  {
    CountersShape(p, t, list[k..], list[k]);
    hide CountersOk;
    NotifyKeeps(p, t, list, k);
  }

  lemma CountersShape(p: Program, t: State, rest: seq<nat>, u: nat)
    requires CountersOk(p, t, rest) && u < |p.rows|
    ensures |t.indegree| == |p.rows| == |t.oldToNew|
    ensures OpcodeAt(p, u) < |t.ready| && OpcodeAt(p, u) < |t.readyCount|
  {
  }

  lemma NotifiedEnd(p: Program, s: State, t: State, x: nat)
    requires Notified(p, s, t, x, []) && OrderOk(p, s)
    ensures OrderOk(p, t) && CountersOk(p, t, [])
    ensures t.order == s.order && t.oldToNew == s.oldToNew && |t.ready| == |s.ready|
    ensures forall o, u :: 0 <= o < |t.ready| && u in t.ready[o] ==> u in s.ready[o] || u > x
  {
    hide CountersOk;
  }

  lemma UsersInRange(p: Program, users: seq<seq<nat>>, x: nat)
    requires UsersOk(p, users) && x < |p.rows|
    ensures x < |users|
  {
  }

  /** Rows of one opcode in strictly ascending source order. */
  ghost predicate IsRun(p: Program, order: seq<nat>, o: Opcode, from: nat) {
    && from < |order|
    && (forall q :: from <= q < |order| ==> order[q] < |p.rows| && OpcodeAt(p, order[q]) == o)
    && (forall q, r :: from <= q < r < |order| ==> order[q] < order[r])
  }

  /** While a run is drained: rows still ready for its opcode lie above the row
      taken last, so the word cursor never passes one. */
  ghost predicate Draining(p: Program, s: State, o: Opcode, from: nat, cursor: nat) {
    && OrderOk(p, s) && CountersOk(p, s, []) && o < |s.ready|
    && from <= |s.order|
    && (|s.order| > from ==> IsRun(p, s.order, o, from))
    && (forall u :: u in s.ready[o] ==> cursor <= u / 64 && (|s.order| > from ==> s.order[|s.order| - 1] < u))
  }

  lemma TakeContinuesRun(p: Program, s: State, t: State, o: Opcode, from: nat, x: nat)
    requires OrderOk(p, s) && CountersOk(p, s, []) && Draining(p, s, o, from, 0) && x in s.ready[o]
    requires OrderOk(p, t) && CountersOk(p, t, []) && t.order == s.order + [x]
    requires forall u :: u in t.ready[o] ==> (u in s.ready[o] && u != x) || u > x
    requires forall u :: u in s.ready[o] ==> x <= u
    ensures Draining(p, t, o, from, x / 64)
  {
  }

  lemma DrainFacts(p: Program, s: State, o: Opcode, from: nat, cursor: nat)
    requires Draining(p, s, o, from, cursor)
    ensures o < |s.ready| == |s.readyCount| && s.readyCount[o] == |s.ready[o]| && |s.order| <= |p.rows|
    ensures forall u :: u in s.ready[o] ==> cursor <= u / 64 < WordCount(|p.rows|) && u < |p.rows|
    ensures OrderOk(p, s) && CountersOk(p, s, []) && Draining(p, s, o, from, 0)
    ensures |s.order| > from ==> IsRun(p, s.order, o, from)
  {
  }

  lemma DrainStart(p: Program, s: State, o: Opcode)
    requires OrderOk(p, s) && CountersOk(p, s, []) && o < |s.ready|
    ensures Draining(p, s, o, |s.order|, 0)
  {
  }

  /** Take every ready row of opcode o, lowest first. */
  method DrainRun(p: Program, users: seq<seq<nat>>, s: State, o: Opcode) returns (ok: bool, t: State)
    requires Ordered(p) && UsersOk(p, users) && OrderOk(p, s) && CountersOk(p, s, []) && o < |s.ready|
    requires s.ready[o] != {}
    ensures ok && OrderOk(p, t) && CountersOk(p, t, [])
    ensures s.order <= t.order && IsRun(p, t.order, o, |s.order|)
    ensures t.ready[o] == {}
  {
    hide Draining, OrderOk, CountersOk, UsersOk, Ordered, IsRun;
    t := s;
    var words, cursor := WordCount(|p.rows|), 0;
    DrainStart(p, s, o);
    DrainFacts(p, t, o, |s.order|, cursor);
    while t.readyCount[o] != 0
      invariant Draining(p, t, o, |s.order|, cursor)
      invariant o < |t.ready| == |t.readyCount| && t.readyCount[o] == |t.ready[o]| && |t.order| <= |p.rows|
      invariant s.order <= t.order && (t.ready[o] == {} ==> |t.order| > |s.order|)
      decreases |p.rows| - |t.order|
    {
      DrainFacts(p, t, o, |s.order|, cursor);
      var found, x, word := TakeLowest(t.ready[o], cursor, words);
      if !found || x >= |p.rows| {
        return false, t;
      }
      cursor := word;
      ReadyRow(p, t, o, x);
      TakeKeepsOrder(p, t, o, x);
      TakeKeepsCounters(p, t, users, o, x);
      var taken := Take(t, o, x);
      var notified, next := NotifyUsers(p, taken, users, x);
      TakeContinuesRun(p, t, next, o, |s.order|, x);
      DrainFacts(p, next, o, |s.order|, cursor);
      t := next;
    }
    DrainFacts(p, t, o, |s.order|, cursor);
    ok := true;
  }

  datatype Run = Run(opcode: Opcode, start: nat, count: nat)

  /** A row that has not been taken, although all its operands have. */
  ghost predicate IsReady(p: Program, order: seq<nat>, u: nat)
    requires u < |p.rows|
  {
    u !in order && forall k :: 0 <= k < |Ops(p, u)| ==> Ops(p, u)[k] >= 1 && Ops(p, u)[k] - 1 in order
  }

  /** No ready row has a lower opcode. */
  ghost predicate LeastReady(p: Program, order: seq<nat>, o: Opcode) {
    forall u :: 0 <= u < |p.rows| && IsReady(p, order, u) ==> o <= OpcodeAt(p, u)
  }

  /** No ready row of the opcode is left. */
  ghost predicate Drained(p: Program, order: seq<nat>, o: Opcode) {
    forall u :: 0 <= u < |p.rows| && IsReady(p, order, u) ==> OpcodeAt(p, u) != o
  }

  /** The runs tile the order: each covers rows of the lowest opcode that is ready when it
      begins, in ascending source order, and goes on until none of that opcode is ready. */
  ghost predicate Tiled(p: Program, order: seq<nat>, runs: seq<Run>)
    decreases |runs|
  {
    if runs == [] then order == []
    else
      var rest, run := runs[..|runs| - 1], runs[|runs| - 1];
      && run.start + run.count == |order|
      && IsRun(p, order, run.opcode, run.start)
      && Tiled(p, order[..run.start], rest)
      && (rest != [] ==> rest[|rest| - 1].opcode != run.opcode)
      && LeastReady(p, order[..run.start], run.opcode) && Drained(p, order, run.opcode)
  }

  lemma TakenIsListed(p: Program, s: State, u: nat)
    requires OrderOk(p, s) && u < |p.rows|
    ensures s.oldToNew[u] != 0 ==> u in s.order
  {
    if s.oldToNew[u] != 0 {
      assert s.order[s.oldToNew[u] - 1] == u;
    }
  }

  /** A ready row is counted under its opcode. */
  lemma ReadyIsCounted(p: Program, s: State, u: nat)
    requires OrderOk(p, s) && CountersOk(p, s, []) && u < |p.rows| && IsReady(p, s.order, u)
    ensures ValidOpcode(OpcodeAt(p, u)) && s.readyCount[OpcodeAt(p, u)] != 0
  {
    hide Ops;
    var ops := Ops(p, u);
    forall k | 0 <= k < |ops|
      ensures ops[k] - 1 in Done(s)
    {
      assert ops[k] - 1 in s.order;
    }
    PendingZero(ops, Done(s));
    TakenIsListed(p, s, u);
    assert u in s.ready[OpcodeAt(p, u)];
  }

  lemma LeastIsLeast(p: Program, s: State, o: Opcode)
    requires OrderOk(p, s) && CountersOk(p, s, []) && o <= DEFINED
    requires forall c :: EQUAL <= c < o ==> s.readyCount[c] == 0
    ensures LeastReady(p, s.order, o)
  {
    hide OrderOk, IsReady;
    forall u | 0 <= u < |p.rows| && IsReady(p, s.order, u)
      ensures o <= OpcodeAt(p, u)
    {
      ReadyIsCounted(p, s, u);
    }
  }

  lemma NoneLeft(p: Program, s: State, o: Opcode)
    requires OrderOk(p, s) && CountersOk(p, s, []) && o < |s.ready| && s.ready[o] == {}
    ensures Drained(p, s.order, o)
  {
    hide OrderOk, IsReady;
    forall u | 0 <= u < |p.rows| && IsReady(p, s.order, u)
      ensures OpcodeAt(p, u) != o
    {
      ReadyIsCounted(p, s, u);
    }
  }

  /** The least unscheduled row waits for nothing. */
  lemma SomeRowIsReady(p: Program, s: State, x: nat)
    requires Ordered(p) && OrderOk(p, s) && CountersOk(p, s, []) && x < |p.rows| && s.oldToNew[x] == 0
    ensures exists u :: 0 <= u < |p.rows| && ValidOpcode(OpcodeAt(p, u)) && u in s.ready[OpcodeAt(p, u)]
    decreases x
  {
    hide Ops;
    if y :| 0 <= y < x && s.oldToNew[y] == 0 {
      SomeRowIsReady(p, s, y);
    } else {
      assert OperandsPrecede(p, x);
      PendingZero(Ops(p, x), Done(s));
      assert x in s.ready[OpcodeAt(p, x)];
    }
  }

  lemma {:induction false} SomeRowUnscheduled(n: nat, order: seq<nat>, oldToNew: seq<nat>) returns (x: nat)
    requires |order| < n == |oldToNew|
    requires forall i, q :: 0 <= i < n && 0 <= q < |order| ==> (order[q] == i <==> oldToNew[i] == q + 1)
    requires forall i :: 0 <= i < n ==> oldToNew[i] <= |order|
    ensures x < n && oldToNew[x] == 0
  {
    if forall i :: 0 <= i < n ==> oldToNew[i] != 0 {
      hide UpTo;
      var from, to := UpTo(n), UpTo(|order|);
      var f := map i | i in from :: oldToNew[i - 1];
      forall a, b | a in from && b in from && a != b
        ensures f[a] != f[b]
      {
        var q := oldToNew[a - 1] - 1;
        assert order[q] == a - 1;
      }
      InjectionBound(from, to, f);
      assert false;
    }
    x :| 0 <= x < n && oldToNew[x] == 0;
  }

  /** The lowest opcode with a ready row. */
  method LowestReady(readyCount: seq<nat>) returns (o: Opcode)
    requires |readyCount| == DEFINED + 1
    ensures o <= DEFINED
    ensures o == 0 ==> forall c :: EQUAL <= c <= DEFINED ==> readyCount[c] == 0
    ensures o != 0 ==> o >= EQUAL && readyCount[o] != 0 && forall c :: EQUAL <= c < o ==> readyCount[c] == 0
  {
    for c := EQUAL to DEFINED + 1
      invariant forall b :: EQUAL <= b < c ==> readyCount[b] == 0
    {
      if readyCount[c] != 0 {
        return c;
      }
    }
    return 0;
  }

  /** What the set-up scan has recorded for the first `seen` rows. */
  ghost predicate ReadyTo(p: Program, ready: seq<set<nat>>, readyCount: seq<nat>, seen: nat) {
    && |ready| == |readyCount| == DEFINED + 1 && seen <= |p.rows|
    && (forall u :: 0 <= u < |p.rows| ==>
         ValidOpcode(OpcodeAt(p, u)) && (u in ready[OpcodeAt(p, u)] <==> u < seen && |Ops(p, u)| == 0))
    && (forall o :: 0 <= o < |ready| ==> forall u :: u in ready[o] ==> u < |p.rows| && OpcodeAt(p, u) == o)
    && (forall o :: 0 <= o < |ready| ==> readyCount[o] == |ready[o]|)
  }

  lemma InitialStateOk(p: Program, s: State)
    requires ReadyTo(p, s.ready, s.readyCount, |p.rows|) && s.order == []
    requires |s.oldToNew| == |s.indegree| == |p.rows| && forall u :: 0 <= u < |p.rows| ==>
               s.oldToNew[u] == 0 && s.indegree[u] == |Ops(p, u)|
    ensures OrderOk(p, s) && CountersOk(p, s, [])
  {
    hide Ops;
    assert Done(s) == {};
    forall u | 0 <= u < |p.rows|
      ensures s.indegree[u] == Pending(Ops(p, u), Done(s)) + Count([], u)
    {
      PendingStart(Ops(p, u));
    }
  }

  /** Mark the rows without operands ready. */
  method InitialState(p: Program, indegree: seq<nat>) returns (s: State)
    requires |indegree| == |p.rows| && forall u :: 0 <= u < |p.rows| ==>
               indegree[u] == |Ops(p, u)| && ValidOpcode(OpcodeAt(p, u))
    ensures OrderOk(p, s) && CountersOk(p, s, []) && s.order == []
  {
    hide Ops, ReadyTo, OrderOk, CountersOk;
    var ready: seq<set<nat>>, readyCount: seq<nat> := seq(DEFINED + 1, _ => {}), seq(DEFINED + 1, _ => 0);
    NoneReady(p, ready, readyCount);
    for u := 0 to |p.rows|
      invariant ReadyTo(p, ready, readyCount, u)
    {
      ReadyNext(p, ready, readyCount, u);
      if indegree[u] == 0 {
        var o := OpcodeAt(p, u);
        ready := ready[o := ready[o] + {u}];
        readyCount := readyCount[o := readyCount[o] + 1];
      }
    }
    s := State([], seq(|p.rows|, _ => 0), indegree, ready, readyCount);
    InitialStateOk(p, s);
  }

  lemma NoneReady(p: Program, ready: seq<set<nat>>, readyCount: seq<nat>)
    requires forall u :: 0 <= u < |p.rows| ==> ValidOpcode(OpcodeAt(p, u))
    requires |ready| == |readyCount| == DEFINED + 1
    requires forall o :: 0 <= o < |ready| ==> ready[o] == {} && readyCount[o] == 0
    ensures ReadyTo(p, ready, readyCount, 0)
  {
    hide Ops;
  }

  /** A row without operands is ready from the start. */
  lemma ReadyNext(p: Program, ready: seq<set<nat>>, readyCount: seq<nat>, u: nat)
    requires ReadyTo(p, ready, readyCount, u) && u < |p.rows|
    ensures var o := OpcodeAt(p, u);
            && o < |ready| == |readyCount|
            && (|Ops(p, u)| != 0 ==> ReadyTo(p, ready, readyCount, u + 1))
            && (|Ops(p, u)| == 0 ==>
                  ReadyTo(p, ready[o := ready[o] + {u}], readyCount[o := readyCount[o] + 1], u + 1))
  {
    hide Ops;
    assert u !in ready[OpcodeAt(p, u)];
  }

  lemma TiledAppend(p: Program, order: seq<nat>, runs: seq<Run>, order': seq<nat>, run: Run)
    requires Tiled(p, order, runs) && order <= order' && run.start == |order| && run.start + run.count == |order'|
    requires IsRun(p, order', run.opcode, run.start)
    requires runs != [] ==> runs[|runs| - 1].opcode != run.opcode
    requires LeastReady(p, order, run.opcode) && Drained(p, order', run.opcode)
    ensures Tiled(p, order', runs + [run])
  {
    hide LeastReady, Drained, IsRun;
    assert order'[..run.start] == order;
    assert (runs + [run])[..|runs|] == runs;
  }

  /** Schedule every row. On an ordered program the loop never gets stuck. */
  method BuildScheduleOrder(p: Program, users: seq<seq<nat>>, start: State) returns (ok: bool, s: State, runs: seq<Run>)
    requires Ordered(p) && UsersOk(p, users) && OrderOk(p, start) && CountersOk(p, start, []) && start.order == []
    ensures ok && OrderOk(p, s) && |s.order| == |p.rows|
    ensures Tiled(p, s.order, runs)
  {
    s, runs := start, [];
    while |s.order| < |p.rows|
      invariant OrderOk(p, s) && CountersOk(p, s, []) && Tiled(p, s.order, runs)
      invariant runs != [] ==> runs[|runs| - 1].opcode < |s.ready| && s.ready[runs[|runs| - 1].opcode] == {}
      decreases |p.rows| - |s.order|
    {
      var o := LowestReady(s.readyCount);
      if o == 0 {
        ghost var x := SomeRowUnscheduled(|p.rows|, s.order, s.oldToNew);
        SomeRowIsReady(p, s, x);
        return false, s, runs;
      }
      assert s.ready[o] != {};
      LeastIsLeast(p, s, o);
      hide OrderOk, CountersOk, UsersOk, Ordered, IsRun, Tiled, LeastReady, Drained;
      var drained, t := DrainRun(p, users, s, o);
      NoneLeft(p, t, o);
      var run := Run(o, |s.order|, |t.order| - |s.order|);
      RunGrows(p, t.order, o, |s.order|);
      TiledAppend(p, s.order, runs, t.order, run);
      s, runs := t, runs + [run];
    }
    ok := true;
  }

  lemma RunGrows(p: Program, order: seq<nat>, o: Opcode, from: nat)
    requires IsRun(p, order, o, from)
    ensures from < |order|
  {
  }
}
