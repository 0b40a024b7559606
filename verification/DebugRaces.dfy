/** When the commands a debug session takes decide its replies, whatever the schedule. */
module DebugRaces {
  import opened DebugSessions
  import opened DebugActor

  /** No context ends. */
  predicate Live(events: seq<Event>) {
    forall k :: 0 <= k < |events| ==> !events[k].ContextDone? && (events[k].Receive? ==> events[k].alive)
  }

  /** A run that takes exactly these requests and comes to rest. */
  ghost predicate Takes(cfg: Config, requests: seq<Request>, events: seq<Event>, t: State) {
    Runs(cfg, Initial(), events, t) && Live(events) && t.taken == requests && !t.running
  }

  /** All such runs end alike. */
  ghost predicate Decided(cfg: Config, requests: seq<Request>) {
    forall first, a, second, b :: Takes(cfg, requests, first, a) && Takes(cfg, requests, second, b) ==>
      a.replies == b.replies && a.view == b.view
  }

  /** Requests that can be taken one after the other: nothing follows a Close. */
  predicate Askable(requests: seq<Request>) {
    && (forall i, j :: 0 <= i < j < |requests| ==> requests[i].ticket != requests[j].ticket)
    && forall i :: 0 <= i < |requests| - 1 ==> !requests[i].command.Close?
  }

  /** Nothing is asked after a Continue that has something to run. */
  predicate Undisturbed(cfg: Config, requests: seq<Request>)
    requires ConfigOk(cfg)
  {
    forall k :: 0 <= k < |requests| - 1 && requests[k].command.Continue? ==>
      Transcript(cfg, requests[..k]).view.cursor == cfg.count
  }

  // ----- an undisturbed run follows its transcript -----

  lemma TakenGrows(cfg: Config, s: State, e: Event)
    requires Sound(cfg, s) && Enabled(s, e)
    ensures s.taken <= Step(cfg, s, e).taken && (e.Receive? ==> |Step(cfg, s, e).taken| == |s.taken| + 1)
    ensures s.replies <= Step(cfg, s, e).replies
  {
    hide Respond, Advance, Asked;
  }

  lemma {:induction false} RunsGrow(cfg: Config, s: State, events: seq<Event>, t: State)
    requires Sound(cfg, s) && Runs(cfg, s, events, t)
    ensures Sound(cfg, t) && s.taken <= t.taken && s.replies <= t.replies
    decreases |events|
  {
    hide Sound, Step;
    if events != [] {
      SoundStep(cfg, s, events[0]);
      TakenGrows(cfg, s, events[0]);
      RunsGrow(cfg, Step(cfg, s, events[0]), events[1..], t);
    }
  }

  /** A request that is taken during a run comes after a Continue that runs. */
  lemma TakenBusyDisturbs(cfg: Config, s: State, taken: seq<Request>)
    requires Sound(cfg, s) && Follows(cfg, s) && s.running && s.taken <= taken && |s.taken| < |taken|
    ensures !Undisturbed(cfg, taken)
  {
    hide Transcript, RunToStop;
    var k := |s.taken| - 1;
    assert taken[..k] == s.taken[..k] && taken[k] == s.taken[k];
  }

  lemma NotTakenBusy(cfg: Config, s: State, events: seq<Event>, t: State)
    requires Sound(cfg, s) && Follows(cfg, s) && Runs(cfg, s, events, t) && events != []
    requires Undisturbed(cfg, t.taken) && !events[0].ContextDone? && (events[0].Receive? ==> events[0].alive)
    ensures Enabled(s, events[0]) && Waits(s, events[0])
  {
    hide Step, Asked, Transcript, RunToStop, Follows, Undisturbed;
    TakenGrows(cfg, s, events[0]);
    SoundStep(cfg, s, events[0]);
    RunsGrow(cfg, Step(cfg, s, events[0]), events[1..], t);
    if events[0].Receive? && s.running {
      TakenBusyDisturbs(cfg, s, t.taken);
    }
  }

  lemma {:induction false} LiveRunFollows(cfg: Config, s: State, events: seq<Event>, t: State)
    requires Sound(cfg, s) && Follows(cfg, s) && Runs(cfg, s, events, t) && Live(events)
    requires Undisturbed(cfg, t.taken)
    ensures Sound(cfg, t) && Follows(cfg, t)
    decreases |events|
  {
    hide Sound, Follows, Step, Undisturbed;
    if events != [] {
      NotTakenBusy(cfg, s, events, t);
      FollowsStep(cfg, s, events[0]);
      LiveRunFollows(cfg, Step(cfg, s, events[0]), events[1..], t);
    }
  }

  lemma InitialFollows(cfg: Config)
    requires ConfigOk(cfg)
    ensures Sound(cfg, Initial()) && Follows(cfg, Initial())
  {
  }

  lemma UndisturbedIsDecided(cfg: Config, requests: seq<Request>)
    requires ConfigOk(cfg) && Undisturbed(cfg, requests)
    ensures Decided(cfg, requests)
  {
    hide Undisturbed, Runs, Transcript;
    InitialFollows(cfg);
    forall first, a, second, b | Takes(cfg, requests, first, a) && Takes(cfg, requests, second, b)
      ensures a.replies == b.replies && a.view == b.view
    {
      LiveRunFollows(cfg, Initial(), first, a);
      LiveRunFollows(cfg, Initial(), second, b);
    }
  }

  // ----- putting runs together -----

  lemma {:induction false} RunsJoin(cfg: Config, s: State, first: seq<Event>, t: State, second: seq<Event>, u: State)
    requires Runs(cfg, s, first, t) && Runs(cfg, t, second, u)
    ensures Runs(cfg, s, first + second, u)
    decreases |first|
  {
    hide Step;
    if first == [] {
      assert first + second == second;
    } else {
      RunsJoin(cfg, Step(cfg, s, first[0]), first[1..], t, second, u);
      assert (first + second)[1..] == first[1..] + second;
    }
  }

  lemma LiveJoin(first: seq<Event>, second: seq<Event>)
    requires Live(first) && Live(second)
    ensures Live(first + second)
  {
  }

  lemma RunsOne(cfg: Config, s: State, e: Event)
    requires Sound(cfg, s) && Enabled(s, e)
    ensures Runs(cfg, s, [e], Step(cfg, s, e))
  {
    hide Step;
    assert [e][1..] == [];
    assert Runs(cfg, Step(cfg, s, e), [], Step(cfg, s, e));
  }

  lemma {:induction false} SubmitAll(cfg: Config, requests: seq<Request>) returns (events: seq<Event>)
    requires ConfigOk(cfg) && Askable(requests)
    ensures Runs(cfg, Initial(), events, Initial().(inbox := requests)) && Live(events)
  {
    if requests == [] {
      events := [];
    } else {
      var rest, last := requests[..|requests| - 1], requests[|requests| - 1];
      var before := SubmitAll(cfg, rest);
      var s, t := Initial().(inbox := rest), Initial().(inbox := requests);
      assert requests == rest + [last];
      assert Enabled(s, Submit(last));
      RunsOne(cfg, s, Submit(last));
      assert Step(cfg, s, Submit(last)) == t;
      RunsJoin(cfg, Initial(), before, s, [Submit(last)], t);
      events := before + [Submit(last)];
    }
  }

  /** A session at rest or in a run, with requests that can still be taken. */
  predicate Open(s: State) {
    (s.closed ==> s.inbox == []) && forall i :: 0 <= i < |s.inbox| - 1 ==> !s.inbox[i].command.Close?
  }

  /** One step of the schedule that runs to a stop before it takes the next request. */
  function Patient(s: State): Event {
    if s.running then Execute else Receive(true)
  }

  lemma PatientStep(cfg: Config, s: State)
    requires Sound(cfg, s) && Open(s) && (s.running || s.inbox != [])
    ensures var t := Step(cfg, s, Patient(s));
            && Enabled(s, Patient(s)) && Sound(cfg, t) && Open(t) && t.taken + t.inbox == s.taken + s.inbox
            && (if s.running then t.inbox == s.inbox && (t.running ==> t.view.cursor == s.view.cursor + 1)
                else |t.inbox| == |s.inbox| - 1)
  {
    hide Respond, Asked, Recorded, FirstMatch;
    SoundStep(cfg, s, Patient(s));
    assert !s.running ==> s.taken + s.inbox == s.taken + [s.inbox[0]] + s.inbox[1..];
  }

  /** Every state can come to rest with all its requests taken. */
  lemma {:induction false} Finish(cfg: Config, s: State) returns (events: seq<Event>, t: State)
    requires Sound(cfg, s) && Open(s)
    ensures Runs(cfg, s, events, t) && Live(events) && t.taken == s.taken + s.inbox && !t.running
    decreases |s.inbox|, if s.running then 1 + cfg.count - s.view.cursor else 0
  {
    hide Step, Patient;
    if !s.running && s.inbox == [] {
      events, t := [], s;
    } else {
      PatientStep(cfg, s);
      PatientIsLive(s);
      RunsOne(cfg, s, Patient(s));
      var rest;
      rest, t := Finish(cfg, Step(cfg, s, Patient(s)));
      RunsJoin(cfg, s, [Patient(s)], Step(cfg, s, Patient(s)), rest, t);
      LiveJoin([Patient(s)], rest);
      events := [Patient(s)] + rest;
    }
  }

  lemma PatientIsLive(s: State)
    ensures Live([Patient(s)])
  {
  }

  // ----- two schedules that differ -----

  /** The first k requests can be answered one after the other, with the others waiting. */
  lemma {:induction false} ReachRest(cfg: Config, requests: seq<Request>, k: nat) returns (events: seq<Event>, s: State)
    requires ConfigOk(cfg) && Askable(requests) && k < |requests|
    ensures Runs(cfg, Initial(), events, s) && Live(events) && Sound(cfg, s) && Follows(cfg, s) && !s.running
    ensures s.taken == requests[..k] && s.inbox == requests[k..] && !s.closed
  {
    InitialFollows(cfg);
    if k == 0 {
      events := SubmitAll(cfg, requests);
      s := Initial().(inbox := requests);
    } else {
      var before, r := ReachRest(cfg, requests, k - 1);
      var t := Step(cfg, r, Receive(true));
      RunsOne(cfg, r, Receive(true));
      FollowsStep(cfg, r, Receive(true));
      TookOne(cfg, r, requests, k - 1);
      var rest;
      rest, s := RunOut(cfg, t);
      RunsJoin(cfg, Initial(), before, r, [Receive(true)], t);
      RunsJoin(cfg, Initial(), before + [Receive(true)], t, rest, s);
      LiveJoin(before, [Receive(true)]);
      LiveJoin(before + [Receive(true)], rest);
      events := before + [Receive(true)] + rest;
    }
  }

  lemma TookOne(cfg: Config, s: State, requests: seq<Request>, k: nat)
    requires Sound(cfg, s) && !s.running && !s.closed && k < |requests| - 1 && Askable(requests)
    requires s.taken == requests[..k] && s.inbox == requests[k..]
    ensures var t := Step(cfg, s, Receive(true));
            t.taken == requests[..k + 1] && t.inbox == requests[k + 1..] && !t.closed
  {
    hide Respond;
    assert requests[..k + 1] == requests[..k] + [requests[k]];
  }

  /** A run goes on to its stop when nothing is taken. */
  lemma {:induction false} RunOut(cfg: Config, s: State) returns (events: seq<Event>, t: State)
    requires Sound(cfg, s) && Follows(cfg, s) && !s.closed
    ensures Runs(cfg, s, events, t) && Live(events) && Sound(cfg, t) && Follows(cfg, t) && !t.running
    ensures t.taken == s.taken && t.inbox == s.inbox && !t.closed
    decreases cfg.count - s.view.cursor
  {
    hide Follows, Executed;
    if !s.running {
      events, t := [], s;
    } else {
      var u := Step(cfg, s, Execute);
      FollowsStep(cfg, s, Execute);
      ExecuteMoves(cfg, s);
      RunsOne(cfg, s, Execute);
      var rest;
      rest, t := RunOut(cfg, u);
      RunsJoin(cfg, s, [Execute], u, rest, t);
      LiveJoin([Execute], rest);
      events := [Execute] + rest;
    }
  }

  lemma ExecuteMoves(cfg: Config, s: State)
    requires Sound(cfg, s) && s.running
    ensures var u := Executed(cfg, s);
            u.view.cursor == s.view.cursor + 1 && u.taken == s.taken && u.inbox == s.inbox && u.closed == s.closed
  {
    hide FirstMatch, Recorded;
  }

  /** A Continue is running and another request waits. */
  ghost predicate Racing(cfg: Config, s: State) {
    && Sound(cfg, s) && Follows(cfg, s) && s.running && !s.closed && s.inbox != [] && Open(s)
    && s.inbox[0].ticket != s.pending
  }

  /** Taken now or after the stop, the waiting request makes the next replies differ. */
  lemma NextReplyDiffers(cfg: Config, s: State, late: State)
    requires Racing(cfg, s) && Sound(cfg, late) && Follows(cfg, late) && !late.running && late.taken == s.taken
    ensures var early := Step(cfg, s, Receive(true));
            && Enabled(s, Receive(true)) && |early.replies| > |s.replies| && |late.replies| > |s.replies|
            && early.replies[|s.replies|] != late.replies[|s.replies|]
  {
    hide RunToStop, Transcript;
    var before := s.taken[..|s.taken| - 1];
    assert s.taken == before + [Request(s.pending, Continue)];
    TranscriptNext(cfg, before, Request(s.pending, Continue));
    var o := Transcript(cfg, before);
    assert late.replies == s.replies + [Response(s.pending, ShowStop(cfg, RunToStop(cfg, o.view)))];
    RunStops(cfg, o.view);
  }

  lemma EarlyIsOpen(cfg: Config, s: State)
    requires Racing(cfg, s)
    ensures var early := Step(cfg, s, Receive(true));
            Enabled(s, Receive(true)) && Sound(cfg, early) && Open(early) &&
            early.taken + early.inbox == s.taken + s.inbox
  {
    SoundStep(cfg, s, Receive(true));
    assert s.taken + s.inbox == s.taken + [s.inbox[0]] + s.inbox[1..];
  }

  lemma RacingEndsApart(cfg: Config, s: State) returns (first: seq<Event>, a: State, second: seq<Event>, b: State)
    requires Racing(cfg, s)
    ensures Runs(cfg, s, first, a) && Live(first) && Runs(cfg, s, second, b) && Live(second)
    ensures a.taken == b.taken == s.taken + s.inbox && !a.running && !b.running && a.replies != b.replies
  {
    hide Follows, Step;
    var early := Step(cfg, s, Receive(true));
    EarlyIsOpen(cfg, s);
    RunsOne(cfg, s, Receive(true));
    var rest, rest';
    rest, a := Finish(cfg, early);
    RunsJoin(cfg, s, [Receive(true)], early, rest, a);
    LiveJoin([Receive(true)], rest);
    first := [Receive(true)] + rest;
    var late;
    second, late := RunOut(cfg, s);
    rest', b := Finish(cfg, late);
    RunsJoin(cfg, s, second, late, rest', b);
    LiveJoin(second, rest');
    second := second + rest';
    NextReplyDiffers(cfg, s, late);
    RunsGrow(cfg, early, rest, a);
    RunsGrow(cfg, late, rest', b);
  }

  lemma ReachRace(cfg: Config, requests: seq<Request>, k: nat) returns (events: seq<Event>, s: State)
    requires ConfigOk(cfg) && Askable(requests) && k < |requests| - 1 && requests[k].command.Continue?
    requires Transcript(cfg, requests[..k]).view.cursor < cfg.count
    ensures Runs(cfg, Initial(), events, s) && Live(events) && Racing(cfg, s) && s.taken + s.inbox == requests
  {
    hide Transcript, Runs, RunToStop, Asked;
    var before, r := ReachRest(cfg, requests, k);
    s := Step(cfg, r, Receive(true));
    RunsOne(cfg, r, Receive(true));
    FollowsStep(cfg, r, Receive(true));
    TookOne(cfg, r, requests, k);
    RunsJoin(cfg, Initial(), before, r, [Receive(true)], s);
    LiveJoin(before, [Receive(true)]);
    events := before + [Receive(true)];
    assert requests[..k + 1] + requests[k + 1..] == requests;
  }

  lemma DisturbedIsUndecided(cfg: Config, requests: seq<Request>, k: nat)
    requires ConfigOk(cfg) && Askable(requests) && k < |requests| - 1 && requests[k].command.Continue?
    requires Transcript(cfg, requests[..k]).view.cursor < cfg.count
    ensures !Decided(cfg, requests)
  {
    hide Racing, Transcript, Runs, Live;
    var before, s := ReachRace(cfg, requests, k);
    var first, a, second, b := RacingEndsApart(cfg, s);
    RunsJoin(cfg, Initial(), before, s, first, a);
    RunsJoin(cfg, Initial(), before, s, second, b);
    LiveJoin(before, first);
    LiveJoin(before, second);
    assert Takes(cfg, requests, before + first, a) && Takes(cfg, requests, before + second, b);
  }

  /** The commands decide the replies and the session, over every schedule with live
      contexts, if and only if nothing is asked after a Continue that has something to run. */
  lemma CommandsDecideExactly(cfg: Config, requests: seq<Request>)
    requires ConfigOk(cfg) && Askable(requests)
    ensures Decided(cfg, requests) <==> Undisturbed(cfg, requests)
  {
    hide Decided, Transcript, Askable;
    if Undisturbed(cfg, requests) {
      UndisturbedIsDecided(cfg, requests);
    } else {
      var k :| 0 <= k < |requests| - 1 && requests[k].command.Continue? &&
               Transcript(cfg, requests[..k]).view.cursor != cfg.count;
      DisturbedIsUndecided(cfg, requests, k);
    }
  }
}
