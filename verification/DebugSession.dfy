/** What the commands of a debug session do, as functions of the session's position,
    checkpoints and breakpoints. What a boundary shows is a function of its position, so
    replies carry the position only. */
module DebugSessions {
  import opened Optional
  import Programs

  /** Where a session may stop. Truths, evidence states and outcomes are properties of the
      batch at an instruction. */
  datatype Breakpoint =
    | AtInstruction(instruction: nat)
    | AtNode(node: nat)
    | AtTruth(truth: nat, row: nat)
    | AtEvidence(state: nat, row: nat)
    | AtOutcome(outcome: nat, row: nat)

  datatype Entry = Entry(id: nat, breakpoint: Breakpoint)

  /** The program under debugging and the bounds of the session. `nodes` are the source nodes
      of the instructions, `mapped` the instructions of a node, `shows` whether the batch
      shows a breakpoint's value at an instruction, and `accepts` whether it is well-formed. */
  datatype Config = Config(
    count: nat, nodes: seq<nat>, mapped: nat -> seq<nat>,
    shows: (Breakpoint, nat) -> bool, accepts: Breakpoint -> bool,
    maxBreakpoints: nat, interval: nat, maximum: nat)

  predicate ConfigOk(cfg: Config) {
    0 < cfg.count == |cfg.nodes| && cfg.interval > 0 && cfg.maximum > 0
  }

  datatype View = View(cursor: nat, checkpoints: seq<nat>, breakpoints: seq<Entry>, nextId: nat)

  /** Identifiers are positive, given out in order, and never used twice. */
  predicate Numbered(entries: seq<Entry>, nextId: nat) {
    && (forall k :: 0 <= k < |entries| ==> 0 < entries[k].id <= nextId)
    && forall j, k :: 0 <= j < k < |entries| ==> entries[j].id < entries[k].id
  }

  predicate InBounds(cfg: Config, v: View) {
    ConfigOk(cfg) && v.cursor <= cfg.count && Numbered(v.breakpoints, v.nextId)
  }

  datatype Stop =
    | StopNone | StopInstruction | StopNode | StopOver | StopBreakpoint(id: nat)
    | StopPause | StopRestart | StopReplay(origin: nat) | StopComplete

  // ----- checkpoints -----

  /** Remember a boundary at the interval, or the end. A full set forgets its first. */
  function Recorded(cfg: Config, cursors: seq<nat>, cursor: nat): seq<nat>
    requires ConfigOk(cfg)
  {
    if cursor == 0 || (cursor != cfg.count && cursor % cfg.interval != 0) || cursor in cursors then cursors
    else (if |cursors| < cfg.maximum then cursors else cursors[1..]) + [cursor]
  }

  /** The checkpoints at or below a target, of an ascending list. */
  function UpTo(cursors: seq<nat>, target: nat): seq<nat> {
    if cursors == [] || cursors[|cursors| - 1] <= target then cursors
    else UpTo(cursors[..|cursors| - 1], target)
  }

  function LastOf(cursors: seq<nat>): nat {
    if cursors == [] then 0 else cursors[|cursors| - 1]
  }

  // ----- breakpoints -----

  predicate Fires(cfg: Config, breakpoint: Breakpoint, instruction: nat) {
    match breakpoint
    case AtInstruction(i) => i == instruction
    case AtNode(node) => instruction in cfg.mapped(node)
    case _ => cfg.shows(breakpoint, instruction)
  }

  predicate ValidBreakpoint(cfg: Config, breakpoint: Breakpoint) {
    match breakpoint
    case AtInstruction(i) => 1 <= i <= cfg.count
    case AtNode(node) => cfg.mapped(node) != []
    case _ => cfg.accepts(breakpoint)
  }

  /** The first breakpoint that matches, or 0. */
  function FirstMatch(cfg: Config, entries: seq<Entry>, instruction: nat): nat {
    if entries == [] then 0
    else if Fires(cfg, entries[0].breakpoint, instruction) then entries[0].id
    else FirstMatch(cfg, entries[1..], instruction)
  }

  /** The list without the first entry of an identifier. */
  function Without(entries: seq<Entry>, id: nat): (rest: seq<Entry>)
    ensures forall e :: e in rest ==> e in entries
  {
    if entries == [] then []
    else if entries[0].id == id then entries[1..]
    else [entries[0]] + Without(entries[1..], id)
  }

  lemma NumberedTail(entries: seq<Entry>, nextId: nat)
    requires Numbered(entries, nextId) && entries != []
    ensures Numbered(entries[1..], nextId) && 0 < entries[0].id <= nextId
    ensures forall e :: e in entries[1..] ==> entries[0].id < e.id
  {
  }

  lemma NumberedCons(first: Entry, rest: seq<Entry>, nextId: nat)
    requires Numbered(rest, nextId) && 0 < first.id <= nextId && forall e :: e in rest ==> first.id < e.id
    ensures Numbered([first] + rest, nextId)
  {
    assert forall k :: 0 <= k < |rest| ==> rest[k] in rest;
  }

  /** Of a numbered list that is the list of the other entries, in order. */
  lemma {:induction false} WithoutIsOthers(entries: seq<Entry>, nextId: nat, id: nat)
    requires Numbered(entries, nextId)
    ensures Numbered(Without(entries, id), nextId)
    ensures forall e :: e in Without(entries, id) <==> e in entries && e.id != id
  {
    hide Numbered;
    if entries != [] {
      var first, rest := entries[0], entries[1..];
      assert entries == [first] + rest;
      NumberedTail(entries, nextId);
      WithoutIsOthers(rest, nextId, id);
      if first.id != id {
        NumberedCons(first, Without(rest, id), nextId);
      }
    }
  }

  predicate Has(entries: seq<Entry>, id: nat) {
    exists k :: 0 <= k < |entries| && entries[k].id == id
  }

  // ----- moving -----

  datatype Moved = Moved(view: View, stop: Stop)

  function Passed(cfg: Config, v: View): View
    requires ConfigOk(cfg)
  {
    v.(cursor := v.cursor + 1, checkpoints := Recorded(cfg, v.checkpoints, v.cursor + 1))
  }

  /** Execute one instruction. */
  function Advance(cfg: Config, v: View): Moved
    requires ConfigOk(cfg)
  {
    var next, id := Passed(cfg, v), FirstMatch(cfg, v.breakpoints, v.cursor + 1);
    Moved(next, if id != 0 then StopBreakpoint(id) else if next.cursor == cfg.count then StopComplete else StopNone)
  }

  /** Execute while the instructions belong to a node. */
  function NodeFrom(cfg: Config, v: View, node: nat): (m: Moved)
    requires InBounds(cfg, v)
    ensures InBounds(cfg, m.view) && v.cursor <= m.view.cursor
    decreases cfg.count - v.cursor
  {
    if v.cursor == cfg.count || cfg.nodes[v.cursor] != node then Moved(v, StopNode)
    else
      var m := Advance(cfg, v);
      if m.stop != StopNone then m else NodeFrom(cfg, m.view, node)
  }

  /** Execute up to a boundary. */
  function OverTo(cfg: Config, v: View, target: nat): (m: Moved)
    requires InBounds(cfg, v)
    ensures InBounds(cfg, m.view) && v.cursor <= m.view.cursor
    decreases cfg.count - v.cursor
  {
    if v.cursor == cfg.count || v.cursor >= target then Moved(v, StopOver)
    else
      var m := Advance(cfg, v);
      if m.stop != StopNone then m else OverTo(cfg, m.view, target)
  }

  function Greatest(ids: seq<nat>, least: nat): (g: nat)
    ensures least <= g && (g == least || g in ids) && forall k :: 0 <= k < |ids| ==> ids[k] <= g
  {
    if ids == [] then least
    else
      var g := Greatest(ids[..|ids| - 1], least);
      if ids[|ids| - 1] > g then ids[|ids| - 1] else g
  }

  /** Execute until something stops the run. */
  function RunToStop(cfg: Config, v: View): (m: Moved)
    requires InBounds(cfg, v)
    ensures InBounds(cfg, m.view) && v.cursor <= m.view.cursor && m.stop != StopNone
    decreases cfg.count - v.cursor
  {
    if v.cursor == cfg.count then Moved(v, StopComplete)
    else
      var m := Advance(cfg, v);
      if m.stop != StopNone then m else RunToStop(cfg, m.view)
  }

  /** Pass boundaries up to a target without looking for breakpoints. */
  function Forward(cfg: Config, v: View, target: nat): (w: View)
    requires InBounds(cfg, v) && target <= cfg.count
    ensures InBounds(cfg, w) && w.cursor == if v.cursor < target then target else v.cursor
    decreases cfg.count - v.cursor
  {
    if v.cursor >= target then v else Forward(cfg, Passed(cfg, v), target)
  }

  /** Where replaying to a target starts. */
  function Origin(v: View, target: nat): nat {
    if target < v.cursor then LastOf(UpTo(v.checkpoints, target)) else v.cursor
  }

  lemma {:induction false} UpToIsBelow(cursors: seq<nat>, target: nat)
    ensures LastOf(UpTo(cursors, target)) <= target
  {
    if cursors != [] && cursors[|cursors| - 1] > target {
      UpToIsBelow(cursors[..|cursors| - 1], target);
    }
  }

  /** Go back to the nearest checkpoint if the target lies behind, then forward. */
  function Replayed(cfg: Config, v: View, target: nat): (w: View)
    requires InBounds(cfg, v) && target <= cfg.count
    ensures InBounds(cfg, w) && w.cursor == target
  {
    if target < v.cursor then
      UpToIsBelow(v.checkpoints, target);
      Forward(cfg, v.(cursor := Origin(v, target), checkpoints := UpTo(v.checkpoints, target)), target)
    else Forward(cfg, v, target)
  }

  // ----- where moves stop -----

  /** The breakpoint stands at the instruction: it names it, names a node that maps to it, or
      the batch shows its value there. */
  predicate StandsAt(cfg: Config, b: Breakpoint, instruction: nat) {
    || (b.AtInstruction? && b.instruction == instruction)
    || (b.AtNode? && exists k :: 0 <= k < |cfg.mapped(b.node)| && cfg.mapped(b.node)[k] == instruction)
    || ((b.AtTruth? || b.AtEvidence? || b.AtOutcome?) && cfg.shows(b, instruction))
  }

  predicate NoneStands(cfg: Config, entries: seq<Entry>, instruction: nat) {
    forall k :: 0 <= k < |entries| ==> !StandsAt(cfg, entries[k].breakpoint, instruction)
  }

  /** Entry k is the first that stands at the instruction. */
  predicate FirstStands(cfg: Config, entries: seq<Entry>, instruction: nat, k: nat) {
    && k < |entries| && StandsAt(cfg, entries[k].breakpoint, instruction)
    && forall j :: 0 <= j < k ==> !StandsAt(cfg, entries[j].breakpoint, instruction)
  }

  ghost predicate NamesFirst(cfg: Config, entries: seq<Entry>, instruction: nat, id: nat) {
    exists k: nat :: FirstStands(cfg, entries, instruction, k) && entries[k].id == id
  }

  /** Looking for a breakpoint finds the first entry that stands there, or nothing if none does. */
  lemma {:induction false} FirstMatchIs(cfg: Config, entries: seq<Entry>, instruction: nat)
    requires forall k :: 0 <= k < |entries| ==> entries[k].id > 0
    ensures FirstMatch(cfg, entries, instruction) == 0 <==> NoneStands(cfg, entries, instruction)
    ensures FirstMatch(cfg, entries, instruction) != 0 ==>
              NamesFirst(cfg, entries, instruction, FirstMatch(cfg, entries, instruction))
  {
    if entries != [] {
      var rest := entries[1..];
      FirstMatchIs(cfg, rest, instruction);
      if StandsAt(cfg, entries[0].breakpoint, instruction) {
        assert FirstStands(cfg, entries, instruction, 0);
      } else if FirstMatch(cfg, rest, instruction) != 0 {
        var k: nat :| FirstStands(cfg, rest, instruction, k) && rest[k].id == FirstMatch(cfg, rest, instruction);
        assert entries[k + 1] == rest[k];
        assert forall j :: 1 <= j <= k ==> entries[j] == rest[j - 1];
        assert FirstStands(cfg, entries, instruction, k + 1);
      } else {
        assert forall j :: 1 <= j < |entries| ==> entries[j] == rest[j - 1];
      }
    }
  }

  /** A move from one boundary to a later one that no breakpoint interrupts before its end,
      and that names the first breakpoint that stands there, or the end of the program. */
  ghost predicate StopsRightly(cfg: Config, v: View, m: Moved) {
    && v.cursor < m.view.cursor <= cfg.count && m.view.breakpoints == v.breakpoints && m.view.nextId == v.nextId
    && (forall i :: v.cursor < i < m.view.cursor ==> NoneStands(cfg, v.breakpoints, i))
    && (m.stop.StopBreakpoint? <==> !NoneStands(cfg, v.breakpoints, m.view.cursor))
    && (m.stop.StopBreakpoint? ==> NamesFirst(cfg, v.breakpoints, m.view.cursor, m.stop.id))
    && (m.stop.StopComplete? <==> NoneStands(cfg, v.breakpoints, m.view.cursor) && m.view.cursor == cfg.count)
  }

  lemma AdvanceStops(cfg: Config, v: View)
    requires InBounds(cfg, v) && v.cursor < cfg.count
    ensures var m := Advance(cfg, v);
            && InBounds(cfg, m.view) && m.view.cursor == v.cursor + 1 && StopsRightly(cfg, v, m)
            && (m.stop == StopNone ==> m.view.cursor < cfg.count)
            && (m.stop == StopNone || m.stop == StopComplete || m.stop.StopBreakpoint?)
  {
    hide FirstMatch, Recorded, NoneStands, FirstStands;
    FirstMatchIs(cfg, v.breakpoints, v.cursor + 1);
  }

  /** A quiet first instruction and a move after it make one move. */
  lemma JoinMoves(cfg: Config, v: View, first: Moved, m: Moved)
    requires StopsRightly(cfg, v, first) && first.view.cursor == v.cursor + 1 && first.stop == StopNone
    requires StopsRightly(cfg, first.view, m)
    ensures StopsRightly(cfg, v, m)
  {
    hide NoneStands, NamesFirst;
  }

  /** Stepping a node passes instructions of that node only, and goes on to where another
      begins unless a breakpoint or the end comes first. */
  lemma {:induction false} NodeStops(cfg: Config, v: View)
    requires InBounds(cfg, v) && v.cursor < cfg.count
    ensures var node := cfg.nodes[v.cursor]; var m := NodeFrom(cfg, v, node);
            && StopsRightly(cfg, v, m)
            && (forall i :: v.cursor <= i < m.view.cursor ==> cfg.nodes[i] == node)
            && (m.stop == StopNode || m.stop == StopComplete || m.stop.StopBreakpoint?)
            && (m.stop == StopNode ==> m.view.cursor < cfg.count && cfg.nodes[m.view.cursor] != node)
    decreases cfg.count - v.cursor
  {
    hide FirstMatch, Advance, StopsRightly;
    AdvanceStops(cfg, v);
    var first := Advance(cfg, v);
    if first.stop == StopNone {
      if cfg.nodes[first.view.cursor] == cfg.nodes[v.cursor] {
        NodeStops(cfg, first.view);
        JoinMoves(cfg, v, first, NodeFrom(cfg, first.view, cfg.nodes[v.cursor]));
      } else {
        QuietStop(cfg, v, first, StopNode);
      }
    }
  }

  lemma QuietStop(cfg: Config, v: View, m: Moved, stop: Stop)
    requires StopsRightly(cfg, v, m) && m.stop == StopNone && (stop == StopNode || stop == StopOver)
    ensures StopsRightly(cfg, v, Moved(m.view, stop))
  {
    hide NoneStands, NamesFirst;
  }

  /** Stepping over goes on to the target unless a breakpoint or the end comes first. */
  lemma {:induction false} OverStops(cfg: Config, v: View, target: nat)
    requires InBounds(cfg, v) && v.cursor < cfg.count && v.cursor < target
    ensures var m := OverTo(cfg, v, target);
            && StopsRightly(cfg, v, m) && m.view.cursor <= target
            && (m.stop == StopOver || m.stop == StopComplete || m.stop.StopBreakpoint?)
            && (m.stop == StopOver ==> m.view.cursor == target)
    decreases cfg.count - v.cursor
  {
    hide FirstMatch, Advance, StopsRightly;
    AdvanceStops(cfg, v);
    var first := Advance(cfg, v);
    if first.stop == StopNone {
      if first.view.cursor < target {
        OverStops(cfg, first.view, target);
        JoinMoves(cfg, v, first, OverTo(cfg, first.view, target));
      } else {
        QuietStop(cfg, v, first, StopOver);
      }
    }
  }

  /** A run goes on to the first breakpoint, or to the end. */
  lemma {:induction false} RunStops(cfg: Config, v: View)
    requires InBounds(cfg, v) && v.cursor < cfg.count
    ensures var m := RunToStop(cfg, v); StopsRightly(cfg, v, m) && (m.stop == StopComplete || m.stop.StopBreakpoint?)
    decreases cfg.count - v.cursor
  {
    hide FirstMatch, Advance, StopsRightly;
    AdvanceStops(cfg, v);
    var first := Advance(cfg, v);
    if first.stop == StopNone {
      RunStops(cfg, first.view);
      JoinMoves(cfg, v, first, RunToStop(cfg, first.view));
    }
  }

  /** Replaying backwards starts from the start or the greatest checkpoint not above the target. */
  lemma {:induction false} OriginIsNearest(cursors: seq<nat>, target: nat)
    requires forall i, j :: 0 <= i < j < |cursors| ==> cursors[i] < cursors[j]
    ensures var origin := LastOf(UpTo(cursors, target));
            && origin <= target && (origin == 0 || origin in cursors)
            && forall c :: c in cursors && c <= target ==> c <= origin
  {
    if cursors != [] {
      var rest, last := cursors[..|cursors| - 1], cursors[|cursors| - 1];
      OriginIsNearest(rest, target);
      forall c | c in cursors
        ensures c <= last && (c == last || c in rest)
      {
        var k :| 0 <= k < |cursors| && cursors[k] == c;
        assert k < |rest| ==> rest[k] == c;
      }
    }
  }

  // ----- commands -----

  datatype Command =
    | Snapshot | StepInstruction | StepNode | StepOver | Continue | Pause | Restart | Replay(target: nat)
    | AddBreakpoint(breakpoint: Breakpoint) | RemoveBreakpoint(id: nat) | Result | Close

  datatype Status = Paused | Running | Complete | Closed

  datatype Error =
    | InvalidSession | SessionClosed | SessionRunning | SessionComplete
    | InvalidBreakpoint | BreakpointLimit | ResultUnavailable | ContextEnded

  /** A reply: a snapshot of a boundary, an identifier, the result, or an error alone. */
  datatype Reply =
    | Shown(status: Status, stop: Stop, cursor: nat, checkpoints: nat, error: Option<Error>)
    | Added(id: nat)
    | Removed
    | Reduced
    | Failed(reason: Error)

  function Show(v: View, status: Status, stop: Stop): Reply {
    Shown(status, stop, v.cursor, |v.checkpoints|, None)
  }

  function ShowError(v: View, status: Status, stop: Stop, error: Error): Reply {
    Shown(status, stop, v.cursor, |v.checkpoints|, Some(error))
  }

  function StatusOf(cfg: Config, v: View): Status {
    if v.cursor == cfg.count then Complete else Paused
  }

  function ShowStop(cfg: Config, m: Moved): Reply {
    Show(m.view, StatusOf(cfg, m.view), m.stop)
  }

  datatype Answered = Answered(view: View, reply: Reply)

  /** A step command: nothing is left to execute at the end. */
  function Stepped(cfg: Config, v: View, m: Moved): Answered {
    if v.cursor == cfg.count then Answered(v, ShowError(v, Complete, StopComplete, SessionComplete))
    else Answered(m.view, ShowStop(cfg, m))
  }

  /** The move of a step command. */
  function StepOf(cfg: Config, v: View, command: Command): (m: Moved)
    requires InBounds(cfg, v)
    ensures InBounds(cfg, m.view)
  {
    if v.cursor == cfg.count then Moved(v, StopComplete)
    else match command
      case StepNode => NodeFrom(cfg, v, cfg.nodes[v.cursor])
      case StepOver => OverTo(cfg, v, Greatest(cfg.mapped(cfg.nodes[v.cursor]), v.cursor + 1))
      case _ =>
        var m := Advance(cfg, v);
        if m.stop == StopNone then m.(stop := StopInstruction) else m
  }

  function AddedTo(cfg: Config, v: View, breakpoint: Breakpoint): (a: Answered)
    ensures InBounds(cfg, v) ==> InBounds(cfg, a.view)
  {
    if !ValidBreakpoint(cfg, breakpoint) then Answered(v, Failed(InvalidBreakpoint))
    else if |v.breakpoints| == cfg.maxBreakpoints || v.nextId == Programs.MAX_UINT32 then
      Answered(v, Failed(BreakpointLimit))
    else
      var id := v.nextId + 1;
      Answered(v.(breakpoints := v.breakpoints + [Entry(id, breakpoint)], nextId := id), Added(id))
  }

  /** What a command does to a session at rest. Continue does nothing at the end; elsewhere
      it runs to a stop. */
  function Respond(cfg: Config, v: View, command: Command): (a: Answered)
    requires InBounds(cfg, v)
    ensures InBounds(cfg, a.view)
  {
    match command
    case Snapshot => Answered(v, Show(v, StatusOf(cfg, v), StopNone))
    case StepInstruction => Stepped(cfg, v, StepOf(cfg, v, command))
    case StepNode => Stepped(cfg, v, StepOf(cfg, v, command))
    case StepOver => Stepped(cfg, v, StepOf(cfg, v, command))
    case Continue => var m := RunToStop(cfg, v); Answered(m.view, ShowStop(cfg, m))
    case Pause =>
      if v.cursor == cfg.count then Answered(v, Show(v, Complete, StopComplete))
      else Answered(v, Show(v, Paused, StopPause))
    case Restart => var w := v.(cursor := 0, checkpoints := []); Answered(w, Show(w, Paused, StopRestart))
    case Replay(target) =>
      if target > cfg.count then
        Answered(v, ShowError(v, StatusOf(cfg, v), StopReplay(0), InvalidSession))
      else
        var w := Replayed(cfg, v, target);
        Answered(w, Show(w, StatusOf(cfg, w), StopReplay(Origin(v, target))))
    case AddBreakpoint(breakpoint) => AddedTo(cfg, v, breakpoint)
    case RemoveBreakpoint(id) =>
      WithoutIsOthers(v.breakpoints, v.nextId, id);
      if Has(v.breakpoints, id) then Answered(v.(breakpoints := Without(v.breakpoints, id)), Removed)
      else Answered(v, Failed(InvalidBreakpoint))
    case Result => Answered(v, if v.cursor == cfg.count then Reduced else Failed(ResultUnavailable))
    case Close => Answered(v, Show(v, Closed, StopNone))
  }

  // ----- what is remembered and what is answered -----

  /** The boundaries up to n that are worth a checkpoint: multiples of the interval, and the end. */
  function Due(cfg: Config, n: nat): seq<nat>
    requires ConfigOk(cfg)
  {
    if n == 0 then [] else Due(cfg, n - 1) + if n % cfg.interval == 0 || n == cfg.count then [n] else []
  }

  /** The last m of a list. */
  function Recent(list: seq<nat>, m: nat): seq<nat> {
    if |list| <= m then list else list[|list| - m..]
  }

  lemma {:induction false} DueIsPast(cfg: Config, n: nat)
    requires ConfigOk(cfg)
    ensures forall c :: c in Due(cfg, n) ==> 0 < c <= n
  {
    if n > 0 {
      DueIsPast(cfg, n - 1);
    }
  }

  lemma RecordedIsRecent(cfg: Config, n: nat)
    requires ConfigOk(cfg)
    ensures Recorded(cfg, Recent(Due(cfg, n), cfg.maximum), n + 1) == Recent(Due(cfg, n + 1), cfg.maximum)
  {
    var due, recent := Due(cfg, n), Recent(Due(cfg, n), cfg.maximum);
    DueIsPast(cfg, n);
    assert forall c :: c in recent ==> c in due;
  }

  /** A straight run remembers the last due boundaries, as many as there is room for. */
  lemma {:induction false} StraightRunRemembers(cfg: Config, v: View, target: nat)
    requires InBounds(cfg, v) && v.cursor <= target <= cfg.count
    requires v.checkpoints == Recent(Due(cfg, v.cursor), cfg.maximum)
    ensures Forward(cfg, v, target).checkpoints == Recent(Due(cfg, target), cfg.maximum)
    decreases target - v.cursor
  {
    hide Recorded, Recent, Due;
    if v.cursor < target {
      RecordedIsRecent(cfg, v.cursor);
      StraightRunRemembers(cfg, Passed(cfg, v), target);
    }
  }

  /** What each command does and answers, said without the functions that do it. */
  predicate Does(cfg: Config, v: View, command: Command, w: View, r: Reply) {
    && (r.Shown? ==> r.cursor == w.cursor && r.checkpoints == |w.checkpoints| && r.status != Running)
    && (r.Failed? ==> w == v)
    && (r.Shown? && r.status == Complete ==> w.cursor == cfg.count)
    && (r.Shown? && r.status == Paused && !command.Restart? ==> w.cursor < cfg.count)
    && (command in {Snapshot, Pause, Result, Close} ==> w == v)
    && (command == Close <==> r.Shown? && r.status == Closed)
    && (command == Result ==> r == if v.cursor == cfg.count then Reduced else Failed(ResultUnavailable))
    && (command == Restart ==> w == View(0, [], v.breakpoints, v.nextId))
    && (command.Replay? && command.target <= cfg.count ==> w.cursor == command.target)
    && (command.Replay? && command.target > cfg.count ==>
          w == v && r.Shown? && r.error == Some(InvalidSession))
    && (command in {StepInstruction, StepNode, StepOver} && v.cursor == cfg.count ==>
          w == v && r.Shown? && r.error == Some(SessionComplete))
    && (command in {StepInstruction, StepNode, StepOver, Continue} && v.cursor < cfg.count ==>
          r.Shown? && r.error == None && r.stop != StopNone && v.cursor < w.cursor)
    && (command == StepInstruction && v.cursor < cfg.count ==> w.cursor == v.cursor + 1)
    && (!command.AddBreakpoint? && !command.RemoveBreakpoint? ==>
          w.breakpoints == v.breakpoints && w.nextId == v.nextId)
  }

  lemma StepsDo(cfg: Config, v: View, command: Command)
    requires InBounds(cfg, v) && command in {StepInstruction, StepNode, StepOver, Continue}
    ensures Does(cfg, v, command, Respond(cfg, v, command).view, Respond(cfg, v, command).reply)
  {
    hide Advance, NodeFrom, OverTo, RunToStop, Greatest, StopsRightly, Replayed, AddedTo, Without;
    if v.cursor < cfg.count {
      var target := Greatest(cfg.mapped(cfg.nodes[v.cursor]), v.cursor + 1);
      AdvanceStops(cfg, v);
      NodeStops(cfg, v);
      OverStops(cfg, v, target);
      RunStops(cfg, v);
      MovesKeep(cfg, v, Advance(cfg, v));
      MovesKeep(cfg, v, NodeFrom(cfg, v, cfg.nodes[v.cursor]));
      MovesKeep(cfg, v, OverTo(cfg, v, target));
      MovesKeep(cfg, v, RunToStop(cfg, v));
    } else {
      RunAtEnd(cfg, v);
    }
  }

  lemma OthersDo(cfg: Config, v: View, command: Command)
    requires InBounds(cfg, v) && command !in {StepInstruction, StepNode, StepOver, Continue}
    ensures Does(cfg, v, command, Respond(cfg, v, command).view, Respond(cfg, v, command).reply)
  {
    hide Advance, NodeFrom, OverTo, RunToStop, Greatest, Forward, UpTo, Without;
    if command.Replay? && command.target <= cfg.count {
      ReplayKeeps(cfg, v, command.target);
    }
  }

  lemma CommandsDo(cfg: Config, v: View, command: Command)
    requires InBounds(cfg, v)
    ensures Does(cfg, v, command, Respond(cfg, v, command).view, Respond(cfg, v, command).reply)
  {
    hide Does, Respond, InBounds;
    if command in {StepInstruction, StepNode, StepOver, Continue} {
      StepsDo(cfg, v, command);
    } else {
      OthersDo(cfg, v, command);
    }
  }

  /** A breakpoint can stand somewhere in the program. */
  ghost predicate CanStand(cfg: Config, b: Breakpoint) {
    exists i :: 1 <= i <= cfg.count && StandsAt(cfg, b, i)
  }

  /** A breakpoint on an instruction or a node is accepted exactly when it can ever stand. */
  lemma AcceptedCanStand(cfg: Config, b: Breakpoint)
    requires b.AtInstruction? || b.AtNode?
    requires forall k :: b.AtNode? && 0 <= k < |cfg.mapped(b.node)| ==> 1 <= cfg.mapped(b.node)[k] <= cfg.count
    ensures ValidBreakpoint(cfg, b) <==> CanStand(cfg, b)
  {
    if b.AtInstruction? {
      assert ValidBreakpoint(cfg, b) ==> StandsAt(cfg, b, b.instruction);
    } else if cfg.mapped(b.node) != [] {
      assert StandsAt(cfg, b, cfg.mapped(b.node)[0]);
    }
  }

  /** Which reason each command gives, and what breakpoint commands answer. */
  lemma CommandsSay(cfg: Config, v: View, command: Command)
    requires InBounds(cfg, v)
    ensures var a := Respond(cfg, v, command); var w, r := a.view, a.reply;
            && (command == Snapshot ==> r.Shown? && r.stop == StopNone)
            && (command == Pause ==> r.Shown? && r.stop == if v.cursor == cfg.count then StopComplete else StopPause)
            && (command == Restart ==> r.Shown? && r.stop == StopRestart)
            && (command.Replay? ==> r.Shown? && r.stop.StopReplay?)
            && (command.AddBreakpoint? ==>
                  && (r.Added? <==> && ValidBreakpoint(cfg, command.breakpoint)
                                    && |v.breakpoints| != cfg.maxBreakpoints && v.nextId != Programs.MAX_UINT32)
                  && (r.Added? ==> && (forall e :: e in v.breakpoints ==> e.id < r.id)
                                   && w.breakpoints == v.breakpoints + [Entry(r.id, command.breakpoint)])
                  && (!r.Added? ==> r.Failed? && w == v))
            && (command.RemoveBreakpoint? ==>
                  && (r == Removed <==> exists e :: e in v.breakpoints && e.id == command.id)
                  && (r != Removed ==> r == Failed(InvalidBreakpoint) && w == v))
  {
    hide Advance, NodeFrom, OverTo, RunToStop, Greatest, StopsRightly, Forward, UpTo, Without, Replayed,
         ValidBreakpoint;
  }

  lemma MovesKeep(cfg: Config, v: View, m: Moved)
    requires StopsRightly(cfg, v, m)
    ensures v.cursor < m.view.cursor && m.view.breakpoints == v.breakpoints && m.view.nextId == v.nextId
    ensures m.stop == StopComplete ==> m.view.cursor == cfg.count
  {
  }

  lemma RunAtEnd(cfg: Config, v: View)
    requires InBounds(cfg, v) && v.cursor == cfg.count
    ensures RunToStop(cfg, v) == Moved(v, StopComplete)
  {
  }

  lemma ReplayKeeps(cfg: Config, v: View, target: nat)
    requires InBounds(cfg, v) && target <= cfg.count
    ensures Replayed(cfg, v, target).breakpoints == v.breakpoints && Replayed(cfg, v, target).nextId == v.nextId
  {
    hide Recorded, Forward, UpTo;
    UpToIsBelow(v.checkpoints, target);
    if target < v.cursor {
      ForwardKeeps(cfg, v.(cursor := Origin(v, target), checkpoints := UpTo(v.checkpoints, target)), target);
    } else {
      ForwardKeeps(cfg, v, target);
    }
  }

  lemma {:induction false} ForwardKeeps(cfg: Config, v: View, target: nat)
    requires InBounds(cfg, v) && target <= cfg.count
    ensures Forward(cfg, v, target).breakpoints == v.breakpoints && Forward(cfg, v, target).nextId == v.nextId
    decreases cfg.count - v.cursor
  {
    hide Recorded;
    if v.cursor < target {
      ForwardKeeps(cfg, Passed(cfg, v), target);
    }
  }
}
