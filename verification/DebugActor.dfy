/** The command protocol of a debug session: one actor takes commands from an inbox, applies
    them to the session, and answers each on a reply channel with room for one response. */
module DebugActor {
  import opened DebugSessions

  type Ticket = nat

  datatype Request = Request(ticket: Ticket, command: Command)

  datatype Response = Response(ticket: Ticket, reply: Reply)

  /** `pending` is the Continue that is being run, if any. `taken` are the requests taken from
      the inbox and `replies` the sends on reply channels, both in order. */
  datatype State = State(
    inbox: seq<Request>, taken: seq<Request>, view: View, running: bool, pending: Ticket,
    closed: bool, replies: seq<Response>)

  datatype Event =
    | Submit(request: Request)
    | Receive(alive: bool)   // take the next request; `alive`: its context has not ended
    | ContextDone            // the context of the pending request ends
    | Execute                // execute one instruction of a run

  const FRESH: View := View(0, [], [], 0)

  function Initial(): State {
    State([], [], FRESH, false, 0, false, [])
  }

  predicate Asked(requests: seq<Request>, ticket: Ticket) {
    exists i :: 0 <= i < |requests| && requests[i].ticket == ticket
  }

  /** A request can still be put into the channel after the actor has closed; then it is
      never taken, and its sender sees that the session is done. */
  predicate Enabled(s: State, e: Event) {
    match e
    case Submit(request) => !Asked(s.taken, request.ticket) && !Asked(s.inbox, request.ticket)
    case Receive(_) => !s.closed && s.inbox != []
    case ContextDone => !s.closed && s.running
    case Execute => !s.closed && s.running
  }

  function Answer(s: State, ticket: Ticket, reply: Reply): State {
    s.(replies := s.replies + [Response(ticket, reply)])
  }

  function AnswerPending(s: State, reply: Reply): State {
    Answer(s, s.pending, reply).(running := false)
  }

  /** A request taken while nothing runs. */
  function AtRest(cfg: Config, s: State, request: Request, alive: bool): State
    requires InBounds(cfg, s.view)
  {
    if !alive then Answer(s, request.ticket, Failed(ContextEnded))
    else if request.command.Continue? && s.view.cursor < cfg.count then
      s.(running := true, pending := request.ticket)
    else
      var a := Respond(cfg, s.view, request.command);
      Answer(s.(view := a.view), request.ticket, a.reply).(closed := request.command.Close?)
  }

  /** A request taken during a run. */
  function Busy(s: State, request: Request, alive: bool): State {
    if !alive then Answer(s, request.ticket, Failed(ContextEnded))
    else match request.command
      case Pause =>
        Answer(AnswerPending(s, Show(s.view, Paused, StopPause)), request.ticket, Show(s.view, Paused, StopPause))
      case Snapshot => Answer(s, request.ticket, Show(s.view, Running, StopNone))
      case Close =>
        Answer(AnswerPending(s, Failed(SessionClosed)), request.ticket, Show(s.view, Closed, StopNone)).(closed := true)
      case _ => Answer(s, request.ticket, Failed(SessionRunning))
  }

  /** One instruction of a run. */
  function Executed(cfg: Config, s: State): State
    requires InBounds(cfg, s.view)
  {
    var m := Advance(cfg, s.view);
    var t := s.(view := m.view);
    if m.stop == StopNone then t else AnswerPending(t, ShowStop(cfg, m))
  }

  function Step(cfg: Config, s: State, e: Event): State
    requires InBounds(cfg, s.view) && Enabled(s, e)
  {
    match e
    case Submit(request) => s.(inbox := s.inbox + [request])
    case Receive(alive) =>
      var t := s.(inbox := s.inbox[1..], taken := s.taken + [s.inbox[0]]);
      if s.running then Busy(t, s.inbox[0], alive) else AtRest(cfg, t, s.inbox[0], alive)
    case ContextDone => AnswerPending(s, ShowError(s.view, Paused, StopPause, ContextEnded))
    case Execute => Executed(cfg, s)
  }

  ghost predicate Runs(cfg: Config, s: State, events: seq<Event>, t: State)
    decreases |events|
  {
    if events == [] then s == t
    else InBounds(cfg, s.view) && Enabled(s, events[0]) && Runs(cfg, Step(cfg, s, events[0]), events[1..], t)
  }

  // ----- the session stays in bounds -----

  /** A run is only on before the end, and never after closing. */
  ghost predicate Sound(cfg: Config, s: State) {
    InBounds(cfg, s.view) && (s.running ==> s.view.cursor < cfg.count && !s.closed)
  }

  lemma SoundStep(cfg: Config, s: State, e: Event)
    requires Sound(cfg, s) && Enabled(s, e)
    ensures Sound(cfg, Step(cfg, s, e))
  {
    hide Respond, Advance, Asked;
    if e.Execute? {
      AdvanceStops(cfg, s.view);
    }
  }

  // ----- replies tell the truth -----

  /** What a reply sent on the way to a state says of that state: where the session stands,
      whether a run is on, whether it is closed; a failure has changed nothing. */
  predicate TellsTruth(cfg: Config, s: State, t: State, reply: Reply) {
    && (reply.Shown? ==>
          && reply.cursor == t.view.cursor && reply.checkpoints == |t.view.checkpoints|
          && (reply.status == Running <==> t.running) && (reply.status == Closed <==> t.closed)
          && (reply.status == Complete ==> t.view.cursor == cfg.count))
    && (reply.Failed? ==> t.view == s.view)
  }

  lemma StepTellsTruth(cfg: Config, s: State, e: Event)
    requires Sound(cfg, s) && Enabled(s, e)
    ensures var t := Step(cfg, s, e);
            && s.replies <= t.replies
            && (forall k :: |s.replies| <= k < |t.replies| ==> TellsTruth(cfg, s, t, t.replies[k].reply))
            && (s.running && !t.running ==>
                  |s.replies| < |t.replies| && t.replies[|s.replies|].ticket == s.pending)
            && (e.Receive? && s.running ==> t.view == s.view)
            && (s.running && !t.running && !t.closed && !e.Execute? ==>
                  forall k :: |s.replies| <= k < |t.replies| ==>
                    t.replies[k].reply.Shown? && t.replies[k].reply.stop == StopPause)
  {
    hide Respond, Advance, Asked;
    if e.Execute? {
      AdvanceStops(cfg, s.view);
    } else if e.Receive? && !s.running {
      CommandsDo(cfg, s.view, s.inbox[0].command);
    }
  }

  // ----- every request is answered once -----

  function Times(replies: seq<Response>, ticket: Ticket): nat {
    if replies == [] then 0
    else Times(replies[..|replies| - 1], ticket) + if replies[|replies| - 1].ticket == ticket then 1 else 0
  }

  lemma TimesNext(replies: seq<Response>, r: Response, ticket: Ticket)
    ensures Times(replies + [r], ticket) == Times(replies, ticket) + if r.ticket == ticket then 1 else 0
  {
    assert (replies + [r])[..|replies|] == replies;
  }

  /** Requests taken from the inbox have been answered once, except the one being run and the
      one in `owed`, which have not been answered; nor has any other ticket. */
  ghost predicate Accounted(s: State, owed: set<Ticket>) {
    && (forall i, j :: 0 <= i < j < |s.inbox| ==> s.inbox[i].ticket != s.inbox[j].ticket)
    && (forall i :: 0 <= i < |s.inbox| ==> !Asked(s.taken, s.inbox[i].ticket))
    && (forall x :: x in owed ==> Asked(s.taken, x))
    && (s.running ==> Asked(s.taken, s.pending) && s.pending !in owed)
    && (forall x :: Times(s.replies, x) ==
          if !Asked(s.taken, x) || (s.running && x == s.pending) || x in owed then 0 else 1)
  }

  lemma AskedNext(requests: seq<Request>, request: Request, x: Ticket)
    ensures Asked(requests + [request], x) <==> Asked(requests, x) || request.ticket == x
  {
    if Asked(requests, x) {
      var i :| 0 <= i < |requests| && requests[i].ticket == x;
      assert (requests + [request])[i].ticket == x;
    }
    if request.ticket == x {
      assert (requests + [request])[|requests|].ticket == x;
    }
  }

  lemma TakeOwes(s: State)
    requires Accounted(s, {}) && s.inbox != []
    ensures Accounted(s.(inbox := s.inbox[1..], taken := s.taken + [s.inbox[0]]), {s.inbox[0].ticket})
  {
    hide Asked, Times;
    var t := s.(inbox := s.inbox[1..], taken := s.taken + [s.inbox[0]]);
    forall x: Ticket
      ensures Asked(t.taken, x) <==> Asked(s.taken, x) || s.inbox[0].ticket == x
    {
      AskedNext(s.taken, s.inbox[0], x);
    }
    assert !Asked(s.taken, s.inbox[0].ticket);
  }

  lemma AnswerPays(s: State, ticket: Ticket, reply: Reply)
    requires Accounted(s, {ticket})
    ensures Accounted(Answer(s, ticket, reply), {})
  {
    hide Asked, Times;
    forall x: Ticket
      ensures Times(Answer(s, ticket, reply).replies, x) == Times(s.replies, x) + if ticket == x then 1 else 0
    {
      TimesNext(s.replies, Response(ticket, reply), x);
    }
  }

  lemma PendingPays(s: State, reply: Reply, owed: set<Ticket>)
    requires Accounted(s, owed) && s.running
    ensures Accounted(AnswerPending(s, reply), owed) && !AnswerPending(s, reply).running
  {
    hide Asked, Times;
    forall x: Ticket
      ensures Times(AnswerPending(s, reply).replies, x) == Times(s.replies, x) + if s.pending == x then 1 else 0
    {
      TimesNext(s.replies, Response(s.pending, reply), x);
    }
  }

  /** Neither the session nor closing has a part in the account. */
  lemma SameAccount(s: State, t: State, owed: set<Ticket>)
    requires Accounted(s, owed) && t == s.(view := t.view, closed := t.closed)
    ensures Accounted(t, owed)
  {
  }

  lemma SubmitKeeps(s: State, request: Request)
    requires Accounted(s, {}) && !Asked(s.taken, request.ticket) && !Asked(s.inbox, request.ticket)
    ensures Accounted(s.(inbox := s.inbox + [request]), {})
  {
    assert forall i :: 0 <= i < |s.inbox| ==> s.inbox[i].ticket != request.ticket;
  }

  lemma AtRestKeeps(cfg: Config, s: State, request: Request, alive: bool)
    requires Sound(cfg, s) && Accounted(s, {request.ticket}) && !s.running
    ensures Accounted(AtRest(cfg, s, request, alive), {})
  {
    hide Respond, Asked, Times;
    if alive && request.command.Continue? && s.view.cursor < cfg.count {
      StartsRun(s, request.ticket);
    } else if !alive {
      AnswerPays(s, request.ticket, Failed(ContextEnded));
    } else {
      var a := Respond(cfg, s.view, request.command);
      SameAccount(s, s.(view := a.view), {request.ticket});
      AnswerPays(s.(view := a.view), request.ticket, a.reply);
      var t := Answer(s.(view := a.view), request.ticket, a.reply);
      SameAccount(t, t.(closed := request.command.Close?), {});
    }
  }

  lemma StartsRun(s: State, ticket: Ticket)
    requires Accounted(s, {ticket}) && !s.running
    ensures Accounted(s.(running := true, pending := ticket), {})
  {
    hide Asked, Times;
    assert ticket in {ticket};
  }

  lemma BusyKeeps(s: State, request: Request, alive: bool)
    requires Accounted(s, {request.ticket}) && s.running
    ensures Accounted(Busy(s, request, alive), {})
  {
    hide Accounted;
    if !alive {
      AnswerPays(s, request.ticket, Failed(ContextEnded));
    } else if request.command.Pause? {
      PendingPays(s, Show(s.view, Paused, StopPause), {request.ticket});
      AnswerPays(AnswerPending(s, Show(s.view, Paused, StopPause)), request.ticket, Show(s.view, Paused, StopPause));
    } else if request.command.Snapshot? {
      AnswerPays(s, request.ticket, Show(s.view, Running, StopNone));
    } else if request.command.Close? {
      PendingPays(s, Failed(SessionClosed), {request.ticket});
      var t := AnswerPending(s, Failed(SessionClosed));
      AnswerPays(t, request.ticket, Show(s.view, Closed, StopNone));
      var u := Answer(t, request.ticket, Show(s.view, Closed, StopNone));
      SameAccount(u, u.(closed := true), {});
    } else {
      AnswerPays(s, request.ticket, Failed(SessionRunning));
    }
  }

  lemma AccountStep(cfg: Config, s: State, e: Event)
    requires Sound(cfg, s) && Accounted(s, {}) && Enabled(s, e)
    ensures Accounted(Step(cfg, s, e), {})
  {
    hide Accounted, AtRest, Busy, Asked, Advance;
    match e
    case Submit(request) => SubmitKeeps(s, request);
    case Receive(alive) =>
      var t := s.(inbox := s.inbox[1..], taken := s.taken + [s.inbox[0]]);
      TakeOwes(s);
      if s.running {
        BusyKeeps(t, s.inbox[0], alive);
      } else {
        AtRestKeeps(cfg, t, s.inbox[0], alive);
      }
    case ContextDone => PendingPays(s, ShowError(s.view, Paused, StopPause, ContextEnded), {});
    case Execute =>
      var m := Advance(cfg, s.view);
      SameAccount(s, s.(view := m.view), {});
      PendingPays(s.(view := m.view), ShowStop(cfg, m), {});
  }

  lemma {:induction false} RunsKeep(cfg: Config, s: State, events: seq<Event>, t: State)
    requires Sound(cfg, s) && Accounted(s, {}) && Runs(cfg, s, events, t)
    ensures Sound(cfg, t) && Accounted(t, {})
    decreases |events|
  {
    hide Sound, Accounted, Step;
    if events != [] {
      SoundStep(cfg, s, events[0]);
      AccountStep(cfg, s, events[0]);
      RunsKeep(cfg, Step(cfg, s, events[0]), events[1..], t);
    }
  }

  /** In every run each request is answered at most once, so a send never blocks on the
      one-place reply channel; and once the actor has closed or stands still, every request
      it took has its answer. */
  lemma EveryCommandAnsweredOnce(cfg: Config, events: seq<Event>, t: State)
    requires ConfigOk(cfg) && Runs(cfg, Initial(), events, t)
    ensures forall x: Ticket :: Times(t.replies, x) <= 1
    ensures !t.running ==> forall x: Ticket :: Asked(t.taken, x) ==> Times(t.replies, x) == 1
    ensures t.closed ==> !t.running
    ensures forall i :: 0 <= i < |t.inbox| ==> Times(t.replies, t.inbox[i].ticket) == 0
  {
    RunsKeep(cfg, Initial(), events, t);
    hide Times, Asked;
  }

  // ----- replies are a function of the commands -----

  datatype Outcome = Outcome(view: View, replies: seq<Response>, closed: bool)

  /** What requests get when each is answered before the next is looked at. */
  function Transcript(cfg: Config, requests: seq<Request>): (o: Outcome)
    requires ConfigOk(cfg)
    ensures InBounds(cfg, o.view)
  {
    if requests == [] then Outcome(FRESH, [], false)
    else
      var o, last := Transcript(cfg, requests[..|requests| - 1]), requests[|requests| - 1];
      if o.closed then o
      else
        var a := Respond(cfg, o.view, last.command);
        Outcome(a.view, o.replies + [Response(last.ticket, a.reply)], last.command.Close?)
  }

  lemma TranscriptNext(cfg: Config, requests: seq<Request>, request: Request)
    requires ConfigOk(cfg)
    ensures var o := Transcript(cfg, requests);
            Transcript(cfg, requests + [request]) ==
            if o.closed then o
            else
              var a := Respond(cfg, o.view, request.command);
              Outcome(a.view, o.replies + [Response(request.ticket, a.reply)], request.command.Close?)
  {
    hide Respond;
    assert (requests + [request])[..|requests|] == requests;
  }

  /** The event finds a client that waits for its reply before it asks again. */
  predicate Waits(s: State, e: Event) {
    match e
    case Receive(alive) => alive && !s.running
    case ContextDone => false
    case _ => true
  }

  ghost predicate WaitingRun(cfg: Config, s: State, events: seq<Event>)
    decreases |events|
  {
    events == [] ||
    (InBounds(cfg, s.view) && Enabled(s, events[0]) && Waits(s, events[0]) &&
     WaitingRun(cfg, Step(cfg, s, events[0]), events[1..]))
  }

  /** The state is that of the transcript, or on the way to it while a Continue runs. */
  ghost predicate Follows(cfg: Config, s: State)
    requires Sound(cfg, s)
  {
    if !s.running then Outcome(s.view, s.replies, s.closed) == Transcript(cfg, s.taken)
    else
      && s.taken != [] && s.taken[|s.taken| - 1] == Request(s.pending, Continue)
      && var o := Transcript(cfg, s.taken[..|s.taken| - 1]);
      && !o.closed && s.replies == o.replies && o.view.cursor < cfg.count
      && RunToStop(cfg, s.view) == RunToStop(cfg, o.view)
  }

  lemma RunGoesOn(cfg: Config, v: View)
    requires InBounds(cfg, v) && v.cursor < cfg.count
    ensures var m := Advance(cfg, v);
            && InBounds(cfg, m.view)
            && RunToStop(cfg, v) == if m.stop != StopNone then m else RunToStop(cfg, m.view)
  {
    AdvanceStops(cfg, v);
  }

  lemma TakenFollows(cfg: Config, s: State, t: State)
    requires Sound(cfg, s) && Follows(cfg, s) && !s.running && !s.closed && s.inbox != []
    requires t == s.(inbox := s.inbox[1..], taken := s.taken + [s.inbox[0]])
    ensures var u := AtRest(cfg, t, s.inbox[0], true); Sound(cfg, u) && Follows(cfg, u)
  {
    hide Respond, RunToStop, Transcript;
    TranscriptNext(cfg, s.taken, s.inbox[0]);
    assert t.taken[..|t.taken| - 1] == s.taken;
  }

  lemma ExecutedFollows(cfg: Config, s: State)
    requires Sound(cfg, s) && Follows(cfg, s) && s.running
    ensures Sound(cfg, Executed(cfg, s)) && Follows(cfg, Executed(cfg, s))
  {
    hide Advance, RunToStop, Transcript;
    AdvanceStops(cfg, s.view);
    RunGoesOn(cfg, s.view);
    var before := s.taken[..|s.taken| - 1];
    assert s.taken == before + [Request(s.pending, Continue)];
    TranscriptNext(cfg, before, Request(s.pending, Continue));
  }

  lemma FollowsStep(cfg: Config, s: State, e: Event)
    requires Sound(cfg, s) && Follows(cfg, s) && Enabled(s, e) && Waits(s, e)
    ensures Sound(cfg, Step(cfg, s, e)) && Follows(cfg, Step(cfg, s, e))
  {
    hide Follows, AtRest, Busy, Executed, Asked;
    match e
    case Submit(request) => SubmitFollows(cfg, s, request);
    case Receive(alive) => TakenFollows(cfg, s, s.(inbox := s.inbox[1..], taken := s.taken + [s.inbox[0]]));
    case Execute => ExecutedFollows(cfg, s);
  }

  lemma SubmitFollows(cfg: Config, s: State, request: Request)
    requires Sound(cfg, s) && Follows(cfg, s)
    ensures var t := s.(inbox := s.inbox + [request]); Sound(cfg, t) && Follows(cfg, t)
  {
  }

  lemma {:induction false} WaitingRunFollows(cfg: Config, s: State, events: seq<Event>, t: State)
    requires Sound(cfg, s) && Follows(cfg, s) && Runs(cfg, s, events, t) && WaitingRun(cfg, s, events)
    ensures Sound(cfg, t) && Follows(cfg, t)
    decreases |events|
  {
    hide Sound, Follows, Step;
    if events != [] {
      FollowsStep(cfg, s, events[0]);
      WaitingRunFollows(cfg, Step(cfg, s, events[0]), events[1..], t);
    }
  }

  /** When clients wait for their replies, the replies, the position, the checkpoints and the
      breakpoints are a function of the commands taken, whatever the schedule. */
  lemma RepliesFollowCommands(cfg: Config, events: seq<Event>, t: State)
    requires ConfigOk(cfg) && Runs(cfg, Initial(), events, t) && WaitingRun(cfg, Initial(), events)
    ensures !t.running ==> Outcome(t.view, t.replies, t.closed) == Transcript(cfg, t.taken)
    ensures t.running ==> t.taken != [] && t.replies == Transcript(cfg, t.taken[..|t.taken| - 1]).replies
  {
    WaitingRunFollows(cfg, Initial(), events, t);
    hide Transcript;
  }

  // ----- whatever else is taken, a run heads for one stop -----

  /** In any state of any run, nothing that is taken while a Continue runs changes where it
      would stop; when it stops by itself, it is there. */
  lemma PendingStopIsFixed(cfg: Config, s: State, e: Event)
    requires Sound(cfg, s) && s.running && Enabled(s, e)
    ensures var t := Step(cfg, s, e);
            && Sound(cfg, t)
            && (t.running ==> t.pending == s.pending && RunToStop(cfg, t.view) == RunToStop(cfg, s.view))
            && (e.Execute? && !t.running ==>
                  && t.view == RunToStop(cfg, s.view).view
                  && t.replies == s.replies + [Response(s.pending, ShowStop(cfg, RunToStop(cfg, s.view)))])
            && (!e.Execute? ==> t.view == s.view)
  {
    hide RunToStop, Respond, Advance, Asked;
    SoundStep(cfg, s, e);
    AdvanceStops(cfg, s.view);
    RunGoesOn(cfg, s.view);
  }

  ghost predicate StaysRunning(cfg: Config, s: State, events: seq<Event>)
    decreases |events|
  {
    s.running && (events == [] || (InBounds(cfg, s.view) && Enabled(s, events[0]) &&
                                   StaysRunning(cfg, Step(cfg, s, events[0]), events[1..])))
  }

  lemma {:induction false} InterruptedOnItsPath(cfg: Config, s: State, events: seq<Event>, t: State)
    requires Sound(cfg, s) && Runs(cfg, s, events, t) && StaysRunning(cfg, s, events)
    ensures Sound(cfg, t) && t.pending == s.pending && RunToStop(cfg, t.view) == RunToStop(cfg, s.view)
    decreases |events|
  {
    hide Step, RunToStop;
    if events != [] {
      PendingStopIsFixed(cfg, s, events[0]);
      InterruptedOnItsPath(cfg, Step(cfg, s, events[0]), events[1..], t);
    }
  }

  // ----- a client that does not wait -----

  /** Two instructions and no breakpoint. */
  function Short(): Config {
    Config(2, [1, 1], _ => [], (_, _) => false, _ => false, 1, 1, 1)
  }

  /** A Continue has been taken and a Pause is asked for. */
  function Racing(): State {
    State([Request(2, Pause)], [Request(1, Continue)], FRESH, true, 1, false, [])
  }

  lemma ReachRacing()
    ensures Runs(Short(), Initial(), [Submit(Request(1, Continue)), Receive(true), Submit(Request(2, Pause))], Racing())
  {
    var cfg, first, second := Short(), Request(1, Continue), Request(2, Pause);
    var a := Initial().(inbox := [first]);
    var b := a.(inbox := [], taken := [first], running := true, pending := 1);
    var events := [Submit(first), Receive(true), Submit(second)];
    assert events[1..] == [Receive(true), Submit(second)] && events[1..][1..] == [Submit(second)];
    assert Step(cfg, Initial(), Submit(first)) == a && Step(cfg, a, Receive(true)) == b;
    assert !Asked(b.taken, 2);
    assert Step(cfg, b, Submit(second)) == Racing();
    assert Runs(cfg, Racing(), [], Racing());
    assert Runs(cfg, b, [Submit(second)], Racing());
    assert Runs(cfg, a, [Receive(true), Submit(second)], Racing());
  }

  /** The Pause can be taken before or after the first instruction, and the replies differ:
      without waiting, the commands alone do not decide. */
  lemma PauseRaces() returns (early: State, late: State)
    ensures Runs(Short(), Racing(), [Receive(true)], early) && Runs(Short(), Racing(), [Execute, Receive(true)], late)
    ensures early.taken == late.taken && !early.running && !late.running
    ensures early.view.cursor == 0 && late.view.cursor == 1
    ensures early.replies != [] && late.replies != [] && early.replies[0] != late.replies[0]
  {
    var cfg := Short();
    var once := Step(cfg, Racing(), Execute);
    assert Advance(cfg, FRESH).stop == StopNone;
    assert once.view.cursor == 1 && once.running;
    early := Step(cfg, Racing(), Receive(true));
    late := Step(cfg, once, Receive(true));
    assert early.replies == [Response(1, Show(FRESH, Paused, StopPause)), Response(2, Show(FRESH, Paused, StopPause))];
    assert late.replies[0] == Response(1, Show(once.view, Paused, StopPause));
    assert [Receive(true)][1..] == [] && [Execute, Receive(true)][1..] == [Receive(true)];
    assert Runs(cfg, early, [], early) && Runs(cfg, late, [], late);
    assert Runs(cfg, once, [Receive(true)], late);
  }
}
