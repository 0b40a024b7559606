/** Where every span goes, told from the actions of a run: what was accepted, in order, what
    was refused or crowded out, and what the last deadline left over. */
module SpanFates {
  import opened SpanProcessor

  /** What the actions of a run amount to. `accepted` are the spans whose offer found room, in
      the order of the offers; `late` are those that the worker took out of the queue after
      the deadline of the final drain; `failed` counts the exports of a batch that failed. */
  datatype Ledger = Ledger(
    accepted: seq<Call>, refused: multiset<Call>, crowded: multiset<Call>, late: seq<Call>, failed: nat,
    overdue: bool)

  const BLANK: Ledger := Ledger([], multiset{}, multiset{}, [], 0, false)

  /** One action, taken in a state. */
  function Noted(l: Limits, d: Ledger, s: State, a: Action): Ledger {
    match a
    case Refuse(c) => d.(refused := d.refused + multiset{c})
    case Offer(c) =>
      if |s.pipe.queue| < l.capacity then d.(accepted := d.accepted + [c])
      else d.(crowded := d.crowded + multiset{c})
    case Export(ok) => if !ok && s.pipe.batch != [] then d.(failed := d.failed + 1) else d
    case Quiesce => d.(overdue := false)
    case Expire => d.(overdue := d.overdue || PastQuiesced(s.pipe.worker))
    case Discard => if s.pipe.queue == [] then d else d.(late := d.late + [s.pipe.queue[0]])
    case _ => d
  }

  function LedgerOf(l: Limits, s: State, d: Ledger, actions: seq<Action>): Ledger
    decreases |actions|
  {
    if actions == [] || !Enabled(s, actions[0]) then d
    else LedgerOf(l, Step(l, s, actions[0]), Noted(l, d, s, actions[0]), actions[1..])
  }

  /** The worker has met the deadline of the final drain, and discards or has done so. */
  predicate AfterDeadline(w: Worker) {
    w == Dropping || w == Finishing || w == Done
  }

  /** The accepted spans went to the exporter, were left over, or are still inside, in the
      order of their offers; the drops and the failed exports are those of the ledger. */
  ghost predicate Agrees(d: Ledger, p: Pipe) {
    && d.accepted == p.handed + d.late + p.batch + p.queue
    && p.dropped == d.refused + d.crowded + multiset(d.late)
    && p.failures == d.failed
    && (!AfterDeadline(p.worker) ==> d.late == [])
    && (d.late != [] ==> d.overdue)
    && (p.worker == Dropping ==> d.overdue)
    && (PastQuiesced(p.worker) && !AfterDeadline(p.worker) ==> p.expired == d.overdue)
  }

  lemma ReceivedAgrees(l: Limits, d: Ledger, p: Pipe, full: Worker, more: Worker)
    requires Agrees(d, p) && p.queue != [] && !AfterDeadline(p.worker) && !AfterDeadline(full) && !AfterDeadline(more)
    requires PastQuiesced(full) || PastQuiesced(more) ==> PastQuiesced(p.worker)
    ensures Agrees(d, Received(l, p, full, more))
  {
    assert p.queue == [p.queue[0]] + p.queue[1..];
    assert p.handed + [] + p.batch + p.queue == p.handed + [] + (p.batch + [p.queue[0]]) + p.queue[1..];
  }

  lemma ExportedAgrees(d: Ledger, p: Pipe, ok: bool, next: Worker)
    requires Agrees(d, p) && !AfterDeadline(p.worker) && !AfterDeadline(next)
    requires PastQuiesced(next) ==> PastQuiesced(p.worker)
    ensures Agrees(if !ok && p.batch != [] then d.(failed := d.failed + 1) else d, Exported(p, ok, next))
  {
    assert p.handed + p.batch + [] + [] + p.queue == p.handed + [] + p.batch + p.queue;
  }

  lemma DiscardAgrees(d: Ledger, p: Pipe)
    requires Agrees(d, p) && p.worker == Dropping && p.batch == [] && p.queue != []
    ensures Agrees(d.(late := d.late + [p.queue[0]]), Discarded(p, [p.queue[0]]).(queue := p.queue[1..]))
  {
    assert p.queue == [p.queue[0]] + p.queue[1..];
    assert p.handed + d.late + [] + p.queue == p.handed + (d.late + [p.queue[0]]) + [] + p.queue[1..];
  }

  lemma OfferAgrees(l: Limits, d: Ledger, p: Pipe, c: Call)
    requires Agrees(d, p)
    ensures Agrees(if |p.queue| < l.capacity then d.(accepted := d.accepted + [c])
                   else d.(crowded := d.crowded + multiset{c}), Enqueued(l, p, c))
  {
    assert p.handed + d.late + p.batch + p.queue + [c] == p.handed + d.late + p.batch + (p.queue + [c]);
  }

  lemma ContinuedAgrees(d: Ledger, p: Pipe)
    requires Agrees(d, p) && p.worker.Drained? && p.batch == []
    ensures Agrees(d, Continued(p))
  {
  }

  lemma RefuseAgrees(d: Ledger, p: Pipe, c: Call)
    requires Agrees(d, p)
    ensures Agrees(d.(refused := d.refused + multiset{c}), Lost(p, c))
  {
  }

  /** No span moves, and the worker does not pass the deadline. */
  lemma StillAgrees(d: Ledger, e: Ledger, p: Pipe, q: Pipe)
    requires Agrees(d, p) && e == d.(overdue := e.overdue)
    requires q.queue == p.queue && q.batch == p.batch && q.handed == p.handed && q.dropped == p.dropped
    requires q.failures == p.failures && (d.overdue ==> e.overdue || d.late == [])
    requires AfterDeadline(q.worker) ==> AfterDeadline(p.worker) && (q.worker != Dropping || p.worker == Dropping)
    requires !AfterDeadline(q.worker) ==> !AfterDeadline(p.worker)
    requires PastQuiesced(q.worker) && !AfterDeadline(q.worker) ==> q.expired == e.overdue
    requires q.worker == Dropping ==> e.overdue
    ensures Agrees(e, q)
  {
  }

  lemma WorkerAgrees(l: Limits, s: State, d: Ledger, a: Action)
    requires Agrees(d, s.pipe) && Enabled(s, a)
    requires !a.Refuse? && !a.Offer? && !a.SelectSpan? && !a.Take? && !a.Export? && !a.AfterDrain? && !a.Discard?
    ensures Agrees(Noted(l, d, s, a), PipeStep(l, s, a))
  {
    StillAgrees(d, Noted(l, d, s, a), s.pipe, PipeStep(l, s, a));
  }

  lemma AgreesStep(l: Limits, s: State, d: Ledger, a: Action)
    requires l.batchSize > 0 && BatchOk(l, s.pipe) && Agrees(d, s.pipe) && Enabled(s, a)
    ensures Agrees(Noted(l, d, s, a), PipeStep(l, s, a))
  {
    hide Received, Exported, AfterExport, Continued, Enqueued, Discarded, Lost, Known, Agrees;
    var p := s.pipe;
    match a
    case Refuse(c) => RefuseAgrees(d, p, c);
    case Offer(c) => OfferAgrees(l, d, p, c);
    case SelectSpan => ReceivedAgrees(l, d, p, Full, Top);
    case Take => ReceivedAgrees(l, d, p, DrainFull(p.worker.why), p.worker);
    case Export(ok) => ExportAgrees(l, d, p, ok);
    case AfterDrain => ContinuedAgrees(d, p);
    case Discard => DiscardAgrees(d, p);
    case _ => WorkerAgrees(l, s, d, a);
  }

  lemma ExportAgrees(l: Limits, d: Ledger, p: Pipe, ok: bool)
    requires Agrees(d, p) && (p.worker == Full || p.worker.DrainFull? || p.worker.DrainLast?)
    ensures Agrees(if !ok && p.batch != [] then d.(failed := d.failed + 1) else d, AfterExport(p, ok))
  {
    hide Exported, Agrees;
    match p.worker
    case DrainFull(why) => ExportedAgrees(d, p, ok, if p.expired then Drained(why) else Draining(why));
    case DrainLast(why) => ExportedAgrees(d, p, ok, Drained(why));
    case _ => ExportedAgrees(d, p, ok, Top);
  }

  lemma {:induction false} AgreesRuns(l: Limits, s: State, d: Ledger, actions: seq<Action>, t: State)
    requires l.batchSize > 0 && Invariant(l, s) && Agrees(d, s.pipe) && Runs(l, s, actions, t)
    ensures Invariant(l, t) && Agrees(LedgerOf(l, s, d, actions), t.pipe)
    decreases |actions|
  {
    hide Invariant, Step, Agrees, Noted, Enabled;
    if actions != [] {
      InvariantStep(l, s, actions[0]);
      BatchHolds(l, s);
      StepAgrees(l, s, d, actions[0]);
      AgreesRuns(l, Step(l, s, actions[0]), Noted(l, d, s, actions[0]), actions[1..], t);
    }
  }

  lemma BatchHolds(l: Limits, s: State)
    requires Invariant(l, s)
    ensures BatchOk(l, s.pipe)
  {
  }

  lemma StepAgrees(l: Limits, s: State, d: Ledger, a: Action)
    requires l.batchSize > 0 && BatchOk(l, s.pipe) && Agrees(d, s.pipe) && Enabled(s, a)
    ensures Agrees(Noted(l, d, s, a), Step(l, s, a).pipe)
  {
    hide Agrees, Noted, Enabled, PipeStep, GateStep, BatchOk;
    AgreesStep(l, s, d, a);
  }

  lemma BlankAgrees()
    ensures Agrees(BLANK, Initial().pipe)
  {
  }

  /** The fate of every span, over every run: accepted spans reach the exporter in the order of
      their offers, but for those that the deadline of the final drain leaves over; a span is
      dropped exactly if it was refused, met a full queue, or was left over; and failures are
      the failed exports of a batch. When done closes, nothing is still inside. */
  lemma EverySpanIsAccountedFor(l: Limits, actions: seq<Action>, t: State)
    requires l.batchSize > 0 && Runs(l, Initial(), actions, t)
    ensures var d := LedgerOf(l, Initial(), BLANK, actions);
            && t.pipe.handed + d.late + t.pipe.batch + t.pipe.queue == d.accepted
            && t.pipe.dropped == d.refused + d.crowded + multiset(d.late)
            && t.pipe.failures == d.failed
            && (d.late != [] ==> d.overdue)
            && (t.pipe.worker == Done ==> t.pipe.handed + d.late == d.accepted)
  {
    hide Runs, Invariant, LedgerOf;
    InitialHolds(l);
    BlankAgrees();
    AgreesRuns(l, Initial(), BLANK, actions, t);
    GateFacts(l, t);
  }

  // ----- a run without obstacles -----

  /** No offer of the run meets a full queue. */
  ghost predicate AlwaysRoom(l: Limits, s: State, actions: seq<Action>)
    decreases |actions|
  {
    actions == [] || !Enabled(s, actions[0]) ||
    ((actions[0].Offer? ==> |s.pipe.queue| < l.capacity) && AlwaysRoom(l, Step(l, s, actions[0]), actions[1..]))
  }

  predicate Unhindered(actions: seq<Action>) {
    forall k :: 0 <= k < |actions| ==> !actions[k].Refuse? && !actions[k].Expire?
  }

  /** The spans offered, in order. */
  function Offers(actions: seq<Action>): seq<Call> {
    if actions == [] then [] else (if actions[0].Offer? then [actions[0].call] else []) + Offers(actions[1..])
  }

  lemma {:induction false} UnhinderedLedger(l: Limits, s: State, d: Ledger, actions: seq<Action>, t: State)
    requires Runs(l, s, actions, t) && AlwaysRoom(l, s, actions) && Unhindered(actions)
    ensures var e := LedgerOf(l, s, d, actions);
            && e.accepted == d.accepted + Offers(actions) && e.refused == d.refused && e.crowded == d.crowded
            && (e.overdue ==> d.overdue)
    decreases |actions|
  {
    hide Step, Enabled;
    if actions != [] {
      UnhinderedLedger(l, Step(l, s, actions[0]), Noted(l, d, s, actions[0]), actions[1..], t);
    }
  }

  /** A run without refusals, full queues and deadlines drops nothing, and when done closes the
      exporter has had every span that was offered, in order. */
  lemma NothingIsLost(l: Limits, actions: seq<Action>, t: State)
    requires l.batchSize > 0 && Runs(l, Initial(), actions, t)
    requires AlwaysRoom(l, Initial(), actions) && Unhindered(actions)
    ensures t.pipe.dropped == multiset{} && t.pipe.handed + t.pipe.batch + t.pipe.queue == Offers(actions)
    ensures t.pipe.worker == Done ==> t.pipe.handed == Offers(actions)
  {
    hide Runs, LedgerOf, AlwaysRoom, Unhindered;
    EverySpanIsAccountedFor(l, actions, t);
    UnhinderedLedger(l, Initial(), BLANK, actions, t);
    var d := LedgerOf(l, Initial(), BLANK, actions);
    assert d.late == [] && d.accepted == Offers(actions);
    assert t.pipe.handed + [] == t.pipe.handed;
  }
}
