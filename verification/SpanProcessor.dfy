/** The bounded span processor as a machine of interleaved steps: producers that
    end spans, one shutdown, and the export worker.

    Each call of OnEnd with a sampled span is one `Call`. A step is one atomic
    operation on the admission word, a channel or the batch, so every interleaving
    of the goroutines is a run of this machine. */
module SpanProcessor {

  type Call = nat

  // ----- the admission gate -----

  datatype Shutdown = NotCalled | MustClose | MustStop | Stopped

  /** `admitted`, `offered` and `closing` are the producers that passed admission:
      before the enqueue, before the decrement, and about to close quiesced.
      `rejected` are the producers between their two additions after admission
      closed. `closes` counts how often quiesced was closed. `missed` records that
      the last admitted producer left while a rejected one was still counted. */
  datatype Gate = Gate(
    admitted: set<Call>, offered: set<Call>, rejected: set<Call>, closing: set<Call>, returned: set<Call>,
    count: nat, closed: bool, shutdown: Shutdown, closes: nat, missed: bool)

  predicate Known(g: Gate, c: Call) {
    c in g.admitted || c in g.offered || c in g.rejected || c in g.closing || c in g.returned
  }

  /** admission.Add(1): the flag in the new word decides. */
  function Entered(g: Gate, c: Call): Gate {
    if g.closed then g.(rejected := g.rejected + {c}, count := g.count + 1)
    else g.(admitted := g.admitted + {c}, count := g.count + 1)
  }

  /** A rejected producer takes its addition back. */
  function Refused(g: Gate, c: Call): Gate
    requires g.count > 0
  {
    g.(rejected := g.rejected - {c}, returned := g.returned + {c}, count := g.count - 1)
  }

  function HasOffered(g: Gate, c: Call): Gate {
    g.(admitted := g.admitted - {c}, offered := g.offered + {c})
  }

  /** admission.Add(-1): the producer that sees exactly the closed flag closes quiesced. */
  function Left(g: Gate, c: Call): Gate
    requires g.count > 0
  {
    var h := g.(offered := g.offered - {c}, count := g.count - 1);
    if g.closed && h.count == 0 then h.(closing := g.closing + {c})
    else h.(returned := g.returned + {c}, missed := g.missed || (g.closed && g.admitted == {} && g.offered == {c}))
  }

  function ClosedBy(g: Gate, c: Call): Gate {
    g.(closing := g.closing - {c}, returned := g.returned + {c}, closes := g.closes + 1)
  }

  /** admission.Or(closed): without producers in flight, shutdown closes quiesced itself. */
  function ShutdownBegun(g: Gate): Gate {
    g.(closed := true, shutdown := if g.count == 0 then MustClose else MustStop)
  }

  predicate PhasesDisjoint(g: Gate) {
    && g.admitted !! g.offered && g.admitted !! g.rejected && g.admitted !! g.closing && g.admitted !! g.returned
    && g.offered !! g.rejected && g.offered !! g.closing && g.offered !! g.returned
    && g.rejected !! g.closing && g.rejected !! g.returned && g.closing !! g.returned
  }

  predicate NoneInFlight(g: Gate) {
    g.admitted == {} && g.offered == {}
  }

  /** Closings done, and agents bound to close that have not yet done so. */
  function Closings(g: Gate): nat {
    g.closes + |g.closing| + if g.shutdown == MustClose then 1 else 0
  }

  /** The word counts the producers between their two additions; quiesced is closed
      by at most one agent and not before the last admitted producer has left; and
      once they have all left, some agent closes it unless the chance was missed. */
  ghost predicate GateOk(g: Gate) {
    && PhasesDisjoint(g)
    && g.count == |g.admitted| + |g.offered| + |g.rejected|
    && (g.closed <==> g.shutdown != NotCalled)
    && (!g.closed ==> g.rejected == {} && Closings(g) == 0 && !g.missed)
    && Closings(g) <= 1
    && (Closings(g) > 0 || g.missed ==> g.closed && NoneInFlight(g))
    && (g.closed && NoneInFlight(g) ==> (Closings(g) == 1 <==> !g.missed))
  }

  lemma EnterKeeps(g: Gate, c: Call)
    requires GateOk(g) && !Known(g, c)
    ensures GateOk(Entered(g, c))
  {
  }

  lemma MemberCounts(s: set<Call>, c: Call)
    requires c in s
    ensures |s| > 0 && |s - {c}| == |s| - 1
    ensures |s| == 1 ==> s == {c}
  {
    if |s| == 1 {
      assert s - {c} == {};
    }
  }

  lemma RefuseKeeps(g: Gate, c: Call)
    requires GateOk(g) && c in g.rejected
    ensures g.count > 0 && GateOk(Refused(g, c))
  {
    MemberCounts(g.rejected, c);
  }

  lemma OfferKeeps(g: Gate, c: Call)
    requires GateOk(g) && c in g.admitted
    ensures GateOk(HasOffered(g, c))
  {
    MemberCounts(g.admitted, c);
    assert c in HasOffered(g, c).offered;
  }

  lemma LeaveKeeps(g: Gate, c: Call)
    requires GateOk(g) && c in g.offered
    ensures g.count > 0 && GateOk(Left(g, c))
  {
    MemberCounts(g.offered, c);
    var h := Left(g, c);
    assert g.closing == {} by { assert Closings(g) == 0; }
    if g.closed && h.count == 0 {
      assert g.admitted == {} && g.offered == {c} && h.closing == {c};
    } else {
      assert NoneInFlight(h) <==> g.admitted == {} && g.offered == {c} by {
        if g.offered - {c} == {} {
          assert g.offered == {c};
        }
      }
    }
  }

  lemma CloseKeeps(g: Gate, c: Call)
    requires GateOk(g) && c in g.closing
    ensures GateOk(ClosedBy(g, c))
  {
    MemberCounts(g.closing, c);
  }

  lemma ShutdownKeeps(g: Gate)
    requires GateOk(g) && g.shutdown == NotCalled
    ensures GateOk(ShutdownBegun(g))
  {
  }

  // ----- the queue and the export worker -----

  /** Why the worker drains the queue. */
  datatype Reason = Flush | Tick | Final

  datatype Worker =
    | Top                      // about to poll the stop channel
    | Waiting                  // in the blocking select
    | Full                     // the batch is full, export next
    | Draining(why: Reason)    // moving spans from the queue to the batch
    | DrainFull(why: Reason)   // the batch filled up while draining
    | DrainLast(why: Reason)   // the queue was seen empty
    | Drained(why: Reason)     // drain has returned
    | AwaitQuiesced            // shutdown waits for producers
    | Dropping                 // discarding what the deadline left
    | Finishing                // shutting the exporter down
    | Done                     // done is closed

  /** `expired` is the deadline of the current drain. `failures` are failed exports.
      Drops are counted after the fact: `owing` are the producers that have dropped
      their span and not yet counted it, and `discarded` is what the worker has
      dropped at the deadline and not yet counted. */
  datatype Pipe = Pipe(
    queue: seq<Call>, batch: seq<Call>, handed: seq<Call>, dropped: multiset<Call>,
    worker: Worker, expired: bool, failures: nat, owing: set<Call>, discarded: nat, dropCounter: nat)

  datatype Limits = Limits(capacity: nat, batchSize: nat)

  datatype State = State(gate: Gate, pipe: Pipe)

  function Initial(): State {
    State(Gate({}, {}, {}, {}, {}, 0, false, NotCalled, 0, false),
          Pipe([], [], [], multiset{}, Top, false, 0, {}, 0, 0))
  }

  datatype Action =
    | Enter(call: Call) | Refuse(call: Call) | Offer(call: Call) | CountDrop(call: Call) | Leave(call: Call)
    | CloseQuiesced(call: Call)
    | BeginShutdown | ShutdownCloses | ShutdownStops
    | PollStop | SelectStop | SelectSpan | SelectDrain(why: Reason)
    | Export(ok: bool) | Take | SeeEmpty | AfterDrain | Expire
    | Quiesce | Discard | StopDiscarding | Finish

  /** The steps the processor can take in a state. */
  predicate Enabled(s: State, a: Action) {
    var g, p := s.gate, s.pipe;
    match a
    case Enter(c) => !Known(g, c)
    case Refuse(c) => c in g.rejected && g.count > 0
    case Offer(c) => c in g.admitted
    case CountDrop(c) => c in p.owing
    case Leave(c) => c in g.offered && g.count > 0 && c !in p.owing
    case CloseQuiesced(c) => c in g.closing
    case BeginShutdown => g.shutdown == NotCalled
    case ShutdownCloses => g.shutdown == MustClose
    case ShutdownStops => g.shutdown == MustStop
    case PollStop => p.worker == Top
    case SelectStop => p.worker == Waiting && g.shutdown == Stopped
    case SelectSpan => p.worker == Waiting && p.queue != []
    case SelectDrain(why) => p.worker == Waiting && why != Final
    case Export(_) => p.worker == Full || p.worker.DrainFull? || p.worker.DrainLast?
    case Take => p.worker.Draining? && p.queue != []
    case SeeEmpty => p.worker.Draining? && p.queue == []
    case AfterDrain => p.worker.Drained?
    case Expire => p.worker.Draining? || p.worker.DrainFull? || p.worker.DrainLast? || p.worker.Drained?
    case Quiesce => p.worker == AwaitQuiesced && g.closes > 0
    case Discard => p.worker == Dropping && p.queue != []
    case StopDiscarding => p.worker == Dropping && p.queue == []
    case Finish => p.worker == Finishing
  }

  /** A producer drops its span. */
  function Lost(p: Pipe, c: Call): Pipe {
    p.(dropped := p.dropped + multiset{c}, owing := p.owing + {c})
  }

  /** The worker drops spans at the deadline. */
  function Discarded(p: Pipe, spans: seq<Call>): Pipe {
    p.(dropped := p.dropped + multiset(spans), discarded := p.discarded + |spans|)
  }

  /** The non-blocking enqueue: a full queue drops the span. */
  function Enqueued(l: Limits, p: Pipe, c: Call): Pipe {
    if |p.queue| < l.capacity then p.(queue := p.queue + [c]) else Lost(p, c)
  }

  /** The worker appends the head of the queue to the batch. */
  function Received(l: Limits, p: Pipe, full: Worker, more: Worker): Pipe
    requires p.queue != []
  {
    var batch := p.batch + [p.queue[0]];
    p.(queue := p.queue[1..], batch := batch, worker := if |batch| == l.batchSize then full else more)
  }

  /** Hand the batch to the exporter. A failed export counts one drop whatever the
      batch size; an empty batch is not exported. */
  function Exported(p: Pipe, ok: bool, next: Worker): Pipe {
    if p.batch == [] then p.(worker := next)
    else
      var failed := if ok then 0 else 1;
      p.(handed := p.handed + p.batch, batch := [], worker := next,
         failures := p.failures + failed, dropCounter := p.dropCounter + failed)
  }

  function AfterExport(p: Pipe, ok: bool): Pipe {
    match p.worker
    case DrainFull(why) => Exported(p, ok, if p.expired then Drained(why) else Draining(why))
    case DrainLast(why) => Exported(p, ok, Drained(why))
    case _ => Exported(p, ok, Top)
  }

  /** What follows a drain: the loop again, or the end of the shutdown. */
  function Continued(p: Pipe): Pipe
    requires p.worker.Drained?
  {
    if p.worker.why != Final then p.(worker := Top)
    else if p.expired then Discarded(p, p.batch).(worker := Dropping, batch := [])
    else p.(worker := Finishing)
  }

  function PipeStep(l: Limits, s: State, a: Action): Pipe
    requires Enabled(s, a)
  {
    var g, p := s.gate, s.pipe;
    match a
    case Refuse(c) => Lost(p, c)
    case CountDrop(c) => p.(owing := p.owing - {c}, dropCounter := p.dropCounter + 1)
    case Offer(c) => Enqueued(l, p, c)
    case PollStop => p.(worker := if g.shutdown == Stopped then AwaitQuiesced else Waiting)
    case SelectStop => p.(worker := AwaitQuiesced)
    case SelectSpan => Received(l, p, Full, Top)
    case SelectDrain(why) => p.(worker := Draining(why), expired := false)
    case Export(ok) => AfterExport(p, ok)
    case Take => Received(l, p, DrainFull(p.worker.why), p.worker)
    case SeeEmpty => p.(worker := DrainLast(p.worker.why))
    case AfterDrain => Continued(p)
    case Expire => p.(expired := true)
    case Quiesce => p.(worker := Draining(Final), expired := false)
    case Discard => Discarded(p, [p.queue[0]]).(queue := p.queue[1..])
    case StopDiscarding => p.(worker := Finishing, discarded := 0, dropCounter := p.dropCounter + p.discarded)
    case Finish => p.(worker := Done)
    case _ => p
  }

  function GateStep(s: State, a: Action): Gate
    requires Enabled(s, a)
  {
    var g := s.gate;
    match a
    case Enter(c) => Entered(g, c)
    case Refuse(c) => Refused(g, c)
    case Offer(c) => HasOffered(g, c)
    case Leave(c) => Left(g, c)
    case CloseQuiesced(c) => ClosedBy(g, c)
    case BeginShutdown => ShutdownBegun(g)
    case ShutdownCloses => g.(closes := g.closes + 1, shutdown := MustStop)
    case ShutdownStops => g.(shutdown := Stopped)
    case _ => g
  }

  function Step(l: Limits, s: State, a: Action): State
    requires Enabled(s, a)
  {
    State(GateStep(s, a), PipeStep(l, s, a))
  }

  /** A run: every action is possible when it is taken. */
  predicate Runs(l: Limits, s: State, actions: seq<Action>, t: State)
    decreases |actions|
  {
    if actions == [] then s == t
    else Enabled(s, actions[0]) && Runs(l, Step(l, s, actions[0]), actions[1..], t)
  }

  lemma GateKeeps(s: State, a: Action)
    requires GateOk(s.gate) && Enabled(s, a)
    ensures GateOk(GateStep(s, a))
  {
    hide Entered, Refused, HasOffered, Left, ClosedBy, ShutdownBegun;
    match a
    case Enter(c) => EnterKeeps(s.gate, c);
    case Refuse(c) => RefuseKeeps(s.gate, c);
    case Offer(c) => OfferKeeps(s.gate, c);
    case Leave(c) => LeaveKeeps(s.gate, c);
    case CloseQuiesced(c) => CloseKeeps(s.gate, c);
    case BeginShutdown => ShutdownKeeps(s.gate);
    case _ =>
  }

  /** Spans that left their producer. */
  function Settled(g: Gate): set<Call> {
    g.offered + g.closing + g.returned
  }

  function Places(p: Pipe): multiset<Call> {
    multiset(p.queue) + multiset(p.batch) + multiset(p.handed) + p.dropped
  }

  /** Every such span is in exactly one place, exactly once. */
  ghost predicate Conserved(s: State) {
    Places(s.pipe) == multiset(Settled(s.gate))
  }

  /** The drop counter: dropped spans and one for every failed export, but for the
      drops that their producer or the worker has yet to count. */
  ghost predicate Counted(p: Pipe) {
    && p.dropCounter + |p.owing| + p.discarded == |p.dropped| + p.failures
    && (p.discarded > 0 ==> p.worker == Dropping)
  }

  /** Producers that owe a count have settled. */
  ghost predicate OwingOk(s: State) {
    s.pipe.owing <= s.gate.offered + s.gate.returned
  }

  lemma LeaveSettles(g: Gate, c: Call)
    requires c in g.offered && g.count > 0
    ensures Settled(Left(g, c)) == Settled(g)
  {
  }

  lemma CloseSettles(g: Gate, c: Call)
    requires c in g.closing
    ensures Settled(ClosedBy(g, c)) == Settled(g)
  {
  }

  lemma EnterSettles(g: Gate, c: Call)
    ensures Settled(Entered(g, c)) == Settled(g)
  {
  }

  lemma ShutdownSettles(g: Gate)
    ensures Settled(ShutdownBegun(g)) == Settled(g)
  {
  }

  lemma RefuseSettles(g: Gate, c: Call)
    requires GateOk(g) && c in g.rejected && g.count > 0
    ensures Settled(Refused(g, c)) == Settled(g) + {c} && c !in Settled(g)
  {
    hide Closings;
  }

  lemma OfferSettles(g: Gate, c: Call)
    requires GateOk(g) && c in g.admitted
    ensures Settled(HasOffered(g, c)) == Settled(g) + {c} && c !in Settled(g)
  {
    hide Closings;
  }

  lemma SameSettles(g: Gate, h: Gate)
    requires h.offered == g.offered && h.closing == g.closing && h.returned == g.returned
    ensures Settled(h) == Settled(g)
  {
  }

  lemma SettledStep(s: State, a: Action)
    requires GateOk(s.gate) && Enabled(s, a)
    ensures Settled(GateStep(s, a)) == Settled(s.gate) + if a.Refuse? || a.Offer? then {a.call} else {}
    ensures a.Refuse? || a.Offer? ==> a.call !in Settled(s.gate)
  {
    hide Left, ClosedBy, Closings, Known, Entered, Refused, HasOffered, ShutdownBegun, Settled, GateOk;
    match a
    case Leave(c) => LeaveSettles(s.gate, c);
    case CloseQuiesced(c) => CloseSettles(s.gate, c);
    case Refuse(c) => RefuseSettles(s.gate, c);
    case Offer(c) => OfferSettles(s.gate, c);
    case Enter(c) => EnterSettles(s.gate, c);
    case BeginShutdown => ShutdownSettles(s.gate);
    case ShutdownCloses => SameSettles(s.gate, GateStep(s, a));
    case ShutdownStops => SameSettles(s.gate, GateStep(s, a));
    case _ =>
  }

  lemma MultisetGrows(A: set<Call>, c: Call)
    requires c !in A
    ensures multiset(A + {c}) == multiset(A) + multiset{c}
  {
  }

  lemma HeadTail(s: seq<Call>)
    requires s != []
    ensures multiset(s) == multiset{s[0]} + multiset(s[1..])
  {
    assert s == [s[0]] + s[1..];
  }

  lemma LostPlaces(p: Pipe, c: Call)
    requires c !in p.owing
    ensures Places(Lost(p, c)) == Places(p) + multiset{c}
    ensures Counted(p) ==> Counted(Lost(p, c))
  {
  }

  lemma EnqueuedPlaces(l: Limits, p: Pipe, c: Call)
    requires c !in p.owing
    ensures Places(Enqueued(l, p, c)) == Places(p) + multiset{c}
    ensures Counted(p) ==> Counted(Enqueued(l, p, c))
  {
  }

  lemma ReceivedPlaces(l: Limits, p: Pipe, full: Worker, more: Worker)
    requires p.queue != []
    ensures Places(Received(l, p, full, more)) == Places(p)
    ensures Counted(p) && p.worker != Dropping ==> Counted(Received(l, p, full, more))
  {
    HeadTail(p.queue);
  }

  lemma ExportedPlaces(p: Pipe, ok: bool, next: Worker)
    ensures Places(Exported(p, ok, next)) == Places(p)
    ensures Counted(p) && p.worker != Dropping ==> Counted(Exported(p, ok, next))
  {
  }

  lemma AfterExportPlaces(p: Pipe, ok: bool)
    ensures Places(AfterExport(p, ok)) == Places(p)
    ensures Counted(p) && p.worker != Dropping ==> Counted(AfterExport(p, ok))
  {
    hide Exported, Places, Counted;
    forall next
      ensures Places(Exported(p, ok, next)) == Places(p)
      ensures Counted(p) && p.worker != Dropping ==> Counted(Exported(p, ok, next))
    {
      ExportedPlaces(p, ok, next);
    }
  }

  lemma ContinuedPlaces(p: Pipe)
    requires p.worker.Drained?
    ensures Places(Continued(p)) == Places(p)
    ensures Counted(p) ==> Counted(Continued(p))
  {
  }

  lemma DiscardPlaces(p: Pipe)
    requires p.queue != []
    ensures Places(Discarded(p, [p.queue[0]]).(queue := p.queue[1..])) == Places(p)
    ensures Counted(p) && p.worker == Dropping ==> Counted(Discarded(p, [p.queue[0]]).(queue := p.queue[1..]))
  {
    HeadTail(p.queue);
  }

  lemma SamePlaces(p: Pipe, q: Pipe)
    ensures p.queue == q.queue && p.batch == q.batch && p.handed == q.handed && p.dropped == q.dropped ==>
              Places(q) == Places(p)
    ensures (&& Counted(p) && (p.worker == q.worker || p.worker != Dropping)
             && p.dropped == q.dropped && p.failures == q.failures && p.owing == q.owing
             && p.discarded == q.discarded && p.dropCounter == q.dropCounter) ==> Counted(q)
  {
  }

  lemma CountPlaces(p: Pipe, c: Call)
    requires c in p.owing
    ensures Counted(p) ==> Counted(p.(owing := p.owing - {c}, dropCounter := p.dropCounter + 1))
  {
    MemberCounts(p.owing, c);
  }

  lemma StopDiscardingPlaces(p: Pipe)
    ensures Counted(p) ==> Counted(p.(worker := Finishing, discarded := 0, dropCounter := p.dropCounter + p.discarded))
  {
  }

  lemma NotYetOwing(s: State, c: Call)
    requires GateOk(s.gate) && OwingOk(s) && (c in s.gate.rejected || c in s.gate.admitted)
    ensures c !in s.pipe.owing
  {
    hide Closings;
  }

  lemma OwingStep(l: Limits, s: State, a: Action)
    requires GateOk(s.gate) && OwingOk(s) && Enabled(s, a)
    ensures OwingOk(Step(l, s, a))
  {
    hide Closings, GateOk, Known;
  }

  /** Only a refusal or an offer puts a span into the pipe. */
  lemma PlacesStep(l: Limits, s: State, a: Action)
    requires GateOk(s.gate) && OwingOk(s) && Enabled(s, a)
    ensures Places(PipeStep(l, s, a)) == Places(s.pipe) + if a.Refuse? || a.Offer? then multiset{a.call} else multiset{}
    ensures Counted(s.pipe) ==> Counted(PipeStep(l, s, a))
  {
    hide Received, AfterExport, Continued, Enqueued, Lost, Discarded, Places, Counted, Known, GateOk, OwingOk;
    var p := s.pipe;
    SamePlaces(p, PipeStep(l, s, a));
    match a
    case Refuse(c) =>
      NotYetOwing(s, c);
      LostPlaces(p, c);
    case Offer(c) =>
      NotYetOwing(s, c);
      EnqueuedPlaces(l, p, c);
    case CountDrop(c) => CountPlaces(p, c);
    case StopDiscarding => StopDiscardingPlaces(p);
    case SelectSpan => ReceivedPlaces(l, p, Full, Top);
    case Export(ok) => AfterExportPlaces(p, ok);
    case Take => ReceivedPlaces(l, p, DrainFull(p.worker.why), p.worker);
    case AfterDrain => ContinuedPlaces(p);
    case Discard => DiscardPlaces(p);
    case _ =>
  }

  lemma ConservationStep(l: Limits, s: State, a: Action)
    requires GateOk(s.gate) && OwingOk(s) && Enabled(s, a) && Conserved(s)
    ensures Conserved(Step(l, s, a))
  {
    hide GateStep, PipeStep, Settled, Places, GateOk, OwingOk, Enabled;
    SettledStep(s, a);
    PlacesStep(l, s, a);
    if a.Refuse? || a.Offer? {
      MultisetGrows(Settled(s.gate), a.call);
    }
  }

  // ----- the whole machine -----

  /** The worker is in the part of shutdown that follows <-quiesced. */
  predicate PastQuiesced(w: Worker) {
    match w
    case Draining(why) => why == Final
    case DrainFull(why) => why == Final
    case DrainLast(why) => why == Final
    case Drained(why) => why == Final
    case Dropping => true
    case Finishing => true
    case Done => true
    case _ => false
  }

  ghost predicate BatchOk(l: Limits, p: Pipe) {
    match p.worker
    case Full => |p.batch| == l.batchSize
    case DrainFull(_) => |p.batch| == l.batchSize
    case Drained(_) => p.batch == []
    case Dropping => p.batch == []
    case Finishing => p.batch == []
    case Done => p.batch == []
    case _ => |p.batch| < l.batchSize
  }

  /** Once past quiesced, the queue is known to be empty at the end of a drain that
      did not run into its deadline. */
  ghost predicate QueueOk(l: Limits, p: Pipe) {
    && |p.queue| <= l.capacity
    && (p.worker == DrainLast(Final) ==> p.queue == [])
    && (p.worker == Drained(Final) ==> p.queue == [] || p.expired)
    && (p.worker == Finishing || p.worker == Done ==> p.queue == [])
  }

  ghost predicate WorkerOk(s: State) {
    && (s.pipe.worker == AwaitQuiesced ==> s.gate.shutdown == Stopped)
    && (PastQuiesced(s.pipe.worker) ==> s.gate.closes > 0)
  }

  ghost predicate Invariant(l: Limits, s: State) {
    && GateOk(s.gate) && OwingOk(s) && Conserved(s) && Counted(s.pipe)
    && BatchOk(l, s.pipe) && QueueOk(l, s.pipe) && WorkerOk(s)
  }

  lemma BatchStep(l: Limits, s: State, a: Action)
    requires l.batchSize > 0 && BatchOk(l, s.pipe) && Enabled(s, a)
    ensures BatchOk(l, PipeStep(l, s, a))
  {
  }

  /** After quiesced closes, no step adds to the queue. */
  lemma QuiescedSealsQueue(l: Limits, s: State, a: Action)
    requires GateOk(s.gate) && s.gate.closes > 0 && Enabled(s, a)
    ensures Step(l, s, a).gate.closes > 0
    ensures || Step(l, s, a).pipe.queue == s.pipe.queue
            || (s.pipe.queue != [] && Step(l, s, a).pipe.queue == s.pipe.queue[1..])
  {
  }

  lemma QueueStep(l: Limits, s: State, a: Action)
    requires GateOk(s.gate) && BatchOk(l, s.pipe) && QueueOk(l, s.pipe) && WorkerOk(s) && Enabled(s, a)
    ensures QueueOk(l, PipeStep(l, s, a))
  {
    if s.gate.closes > 0 {
      QuiescedSealsQueue(l, s, a);
    }
  }

  lemma WorkerStep(l: Limits, s: State, a: Action)
    requires WorkerOk(s) && Enabled(s, a)
    ensures WorkerOk(Step(l, s, a))
  {
  }

  lemma InvariantStep(l: Limits, s: State, a: Action)
    requires l.batchSize > 0 && Invariant(l, s) && Enabled(s, a)
    ensures Invariant(l, Step(l, s, a))
  {
    hide GateOk, OwingOk, Conserved, Counted, BatchOk, QueueOk, WorkerOk, GateStep, PipeStep;
    GateKeeps(s, a);
    OwingStep(l, s, a);
    ConservationStep(l, s, a);
    PlacesStep(l, s, a);
    BatchStep(l, s, a);
    QueueStep(l, s, a);
    WorkerStep(l, s, a);
  }

  lemma {:induction false} InvariantRuns(l: Limits, s: State, actions: seq<Action>, t: State)
    requires l.batchSize > 0 && Invariant(l, s) && Runs(l, s, actions, t)
    ensures Invariant(l, t)
    decreases |actions|
  {
    hide Invariant, Step;
    if actions != [] {
      InvariantStep(l, s, actions[0]);
      InvariantRuns(l, Step(l, s, actions[0]), actions[1..], t);
    }
  }

  /** Safety of every interleaving: quiesced closes at most once and never while an
      admitted producer is in flight; every span that left its producer is in
      exactly one of queue, batch, exporter and dropped; when done closes, the queue
      and the batch are empty; and the drop counter never runs ahead of the drops and
      failed exports, and equals them once nobody has a drop left to count. */
  lemma Safety(l: Limits, actions: seq<Action>, t: State)
    requires l.batchSize > 0 && Runs(l, Initial(), actions, t)
    ensures t.gate.closes <= 1
    ensures t.gate.closes == 1 ==> t.gate.closed && t.gate.admitted == {} && t.gate.offered == {}
    ensures multiset(t.pipe.queue) + multiset(t.pipe.batch) + multiset(t.pipe.handed) + t.pipe.dropped ==
            multiset(t.gate.offered + t.gate.closing + t.gate.returned)
    ensures t.pipe.worker == Done ==>
              && t.pipe.queue == []
              && t.pipe.batch == []
              && multiset(t.pipe.handed) + t.pipe.dropped == multiset(t.gate.closing + t.gate.returned)
    ensures t.pipe.dropCounter + |t.pipe.owing| + t.pipe.discarded == |t.pipe.dropped| + t.pipe.failures
    ensures t.pipe.owing == {} && t.pipe.worker != Dropping ==> t.pipe.dropCounter == |t.pipe.dropped| + t.pipe.failures
  {
    hide Runs, Invariant;
    InitialHolds(l);
    InvariantRuns(l, Initial(), actions, t);
    GateFacts(l, t);
    PlaceFacts(l, t);
    CountFacts(l, t);
  }

  lemma InitialHolds(l: Limits)
    requires l.batchSize > 0
    ensures Invariant(l, Initial())
  {
  }

  lemma GateFacts(l: Limits, t: State)
    requires Invariant(l, t)
    ensures t.gate.closes <= 1
    ensures t.gate.closes == 1 ==> t.gate.closed && t.gate.admitted == {} && t.gate.offered == {}
    ensures t.pipe.worker == Done ==> t.gate.closes == 1 && t.pipe.queue == [] && t.pipe.batch == []
  {
    hide Conserved, Counted, OwingOk;
  }

  lemma PlaceFacts(l: Limits, t: State)
    requires Invariant(l, t)
    ensures multiset(t.pipe.queue) + multiset(t.pipe.batch) + multiset(t.pipe.handed) + t.pipe.dropped ==
            multiset(t.gate.offered + t.gate.closing + t.gate.returned)
    ensures t.pipe.worker == Done ==>
              multiset(t.pipe.handed) + t.pipe.dropped == multiset(t.gate.closing + t.gate.returned)
  {
    GateFacts(l, t);
    hide GateOk, BatchOk, QueueOk, WorkerOk, Counted, OwingOk;
    assert Places(t.pipe) == multiset(Settled(t.gate));
    if t.pipe.worker == Done {
      assert t.gate.offered + t.gate.closing + t.gate.returned == t.gate.closing + t.gate.returned;
      assert multiset(t.pipe.queue) + multiset(t.pipe.batch) + multiset(t.pipe.handed) + t.pipe.dropped ==
             multiset(t.pipe.handed) + t.pipe.dropped;
    }
  }

  lemma CountFacts(l: Limits, t: State)
    requires Invariant(l, t)
    ensures t.pipe.dropCounter + |t.pipe.owing| + t.pipe.discarded == |t.pipe.dropped| + t.pipe.failures
    ensures t.pipe.worker != Dropping ==> t.pipe.discarded == 0
  {
    hide GateOk, BatchOk, QueueOk, WorkerOk, Conserved, OwingOk;
  }

  /** Once quiesced is closed, later states hold a suffix of the queue. */
  lemma {:induction false} NothingEntersAfterQuiesced(l: Limits, s: State, actions: seq<Action>,
                                                      t: State) returns (taken: nat)
    requires l.batchSize > 0 && Invariant(l, s) && s.gate.closes > 0 && Runs(l, s, actions, t)
    ensures taken <= |s.pipe.queue| && t.pipe.queue == s.pipe.queue[taken..]
    decreases |actions|
  {
    if actions == [] {
      taken := 0;
    } else {
      InvariantStep(l, s, actions[0]);
      assert GateOk(s.gate);
      QuiescedSealsQueue(l, s, actions[0]);
      var mid := Step(l, s, actions[0]);
      hide Invariant, Step;
      taken := NothingEntersAfterQuiesced(l, mid, actions[1..], t);
      if mid.pipe.queue != s.pipe.queue {
        taken := taken + 1;
      }
    }
  }

  // ----- when quiesced closes -----

  /** The last admitted producer to leave a closed gate closes quiesced exactly when
      no rejected producer is between its two additions. */
  lemma LastLeaveDecides(g: Gate, c: Call)
    requires GateOk(g) && g.closed && c in g.offered && g.admitted == {} && g.offered == {c}
    ensures g.count > 0 && (Closings(Left(g, c)) == 1 <==> g.rejected == {})
  {
    MemberCounts(g.offered, c);
    assert Closings(g) == 0;
    assert g.rejected == {} <==> |g.rejected| == 0;
  }

  lemma MissedStep(s: State, a: Action)
    requires GateOk(s.gate) && s.gate.missed && Enabled(s, a)
    ensures GateStep(s, a).missed && GateStep(s, a).closes == 0
  {
    assert Closings(s.gate) == 0;
    assert s.gate.closing == {};
  }

  /** A missed chance is final: from there on, no run closes quiesced, so a worker
      that waits for it waits in every later state. */
  lemma {:induction false} MissedIsForever(l: Limits, s: State, actions: seq<Action>, t: State)
    requires l.batchSize > 0 && Invariant(l, s) && s.gate.missed && Runs(l, s, actions, t)
    ensures t.gate.closes == 0 && t.pipe.worker != Done
    ensures s.pipe.worker == AwaitQuiesced ==> t.pipe.worker == AwaitQuiesced
    decreases |actions|
  {
    assert Closings(s.gate) == 0;
    if actions != [] {
      MissedStep(s, actions[0]);
      InvariantStep(l, s, actions[0]);
      var mid := Step(l, s, actions[0]);
      assert s.pipe.worker == AwaitQuiesced ==> mid.pipe.worker == AwaitQuiesced;
      hide Invariant, Step;
      MissedIsForever(l, mid, actions[1..], t);
    }
  }

  /** Quiesced need not close: one producer is admitted, shutdown begins, a second
      producer is rejected, and the first leaves before the second has undone its
      addition. The worker then waits forever. */
  lemma QuiescedNeedNotClose(l: Limits) returns (actions: seq<Action>, t: State)
    requires 0 < l.batchSize <= l.capacity
    ensures Runs(l, Initial(), actions, t)
    ensures t.gate.missed && t.pipe.worker == AwaitQuiesced
    ensures t.gate.admitted == {} && t.gate.offered == {} && t.gate.rejected == {} && t.gate.closing == {}
    ensures t.pipe.owing == {}
  {
    var first, last := [Enter(1), BeginShutdown, Enter(2), Offer(1)],
                       [Leave(1), Refuse(2), CountDrop(2), ShutdownStops, PollStop];
    var s := LateRejection(l);
    t := LastLeaveMisses(l, s);
    actions := first + last;
    RunsConcat(l, Initial(), first, s, last, t);
  }

  /** One producer is admitted, shutdown begins, and another one is rejected in between. */
  lemma LateRejection(l: Limits) returns (s: State)
    requires 0 < l.capacity
    ensures Runs(l, Initial(), [Enter(1), BeginShutdown, Enter(2), Offer(1)], s)
    ensures s.gate == Gate({}, {1}, {2}, {}, {}, 2, true, MustStop, 0, false) && s.pipe.worker == Top
    ensures s.pipe.owing == {}
  {
    var s1 := Step(l, Initial(), Enter(1));
    var s2 := Step(l, s1, BeginShutdown);
    var s3 := Step(l, s2, Enter(2));
    s := Step(l, s3, Offer(1));
    RunsBack(l, s3, Offer(1), [], s);
    RunsBack(l, s2, Enter(2), [Offer(1)], s);
    RunsBack(l, s1, BeginShutdown, [Enter(2), Offer(1)], s);
    RunsBack(l, Initial(), Enter(1), [BeginShutdown, Enter(2), Offer(1)], s);
  }

  /** The admitted producer leaves while the rejected one is still counted. */
  lemma LastLeaveMisses(l: Limits, s: State) returns (t: State)
    requires s.gate == Gate({}, {1}, {2}, {}, {}, 2, true, MustStop, 0, false) && s.pipe.worker == Top
    requires s.pipe.owing == {}
    ensures Runs(l, s, [Leave(1), Refuse(2), CountDrop(2), ShutdownStops, PollStop], t)
    ensures t.gate.missed && t.pipe.worker == AwaitQuiesced
    ensures t.gate.admitted == {} && t.gate.offered == {} && t.gate.rejected == {} && t.gate.closing == {}
    ensures t.pipe.owing == {}
  {
    var s1 := Step(l, s, Leave(1));
    var s2 := Step(l, s1, Refuse(2));
    var s3 := Step(l, s2, CountDrop(2));
    var s4 := Step(l, s3, ShutdownStops);
    t := Step(l, s4, PollStop);
    RunsBack(l, s4, PollStop, [], t);
    RunsBack(l, s3, ShutdownStops, [PollStop], t);
    RunsBack(l, s2, CountDrop(2), [ShutdownStops, PollStop], t);
    RunsBack(l, s1, Refuse(2), [CountDrop(2), ShutdownStops, PollStop], t);
    RunsBack(l, s, Leave(1), [Refuse(2), CountDrop(2), ShutdownStops, PollStop], t);
  }

  lemma {:induction false} RunsConcat(l: Limits, s: State, a: seq<Action>, u: State, b: seq<Action>, t: State)
    requires Runs(l, s, a, u) && Runs(l, u, b, t)
    ensures Runs(l, s, a + b, t)
    decreases |a|
  {
    hide Enabled, Step;
    if a == [] {
      assert a + b == b;
    } else {
      RunsConcat(l, Step(l, s, a[0]), a[1..], u, b, t);
      assert (a + b)[1..] == a[1..] + b;
    }
  }

  lemma RunsBack(l: Limits, s: State, a: Action, rest: seq<Action>, t: State)
    requires Enabled(s, a) && Runs(l, Step(l, s, a), rest, t)
    ensures Runs(l, s, [a] + rest, t)
  {
    assert ([a] + rest)[1..] == rest;
  }
}
