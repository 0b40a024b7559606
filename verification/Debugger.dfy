/** The step debugger: a retained execution that can be rewound, checkpoints of its
    instruction boundaries, and the session operations built on both. */
module Debugger {
  import opened Optional
  import opened Truth
  import opened Programs
  import opened DebugSessions

  /** The operands of a row as the retained slots hold them: row i has slot i + 1. */
  function Held(memory: seq<Cell>, ids: seq<InstructionId>): seq<Cell>
    requires forall k :: 0 <= k < |ids| ==> 1 <= ids[k] <= |memory|
  {
    seq(|ids|, k requires 0 <= k < |ids| => memory[ids[k] - 1])
  }

  /** A straight run has put the values of the first n rows into their slots. */
  ghost predicate RanTo(p: Program, leaf: Payload -> Cell, memory: seq<Cell>, n: nat) {
    && Topological(p) && |memory| == |p.rows| && n <= |p.rows|
    && forall i :: 0 <= i < n ==> memory[i] == Value(p, leaf, i)
  }

  /** Executing the next row extends the straight run, whatever its slot held. */
  lemma RowExtendsRun(p: Program, leaf: Payload -> Cell, memory: seq<Cell>, n: nat)
    requires RanTo(p, leaf, memory, n) && n < |p.rows|
    ensures RowOk(p, n) && forall k :: 0 <= k < |Ops(p, n)| ==> 1 <= Ops(p, n)[k] <= |memory|
    ensures RanTo(p, leaf, memory[n := Combine(p.rows[n].payload, Held(memory, Ops(p, n)), leaf)], n + 1)
  {
    hide Value, Combine, Ops;
    ValueUnfold(p, leaf, n);
    assert Held(memory, Ops(p, n)) == Values(p, leaf, Ops(p, n));
  }

  /** Evaluates one batch in instruction order and keeps every result. `reduce` is the
      final reduction of all instruction results. */
  class RetainedExecutor {
    const reduce: seq<Cell> -> nat
    var program: Program
    var leaf: Payload -> Cell
    var memory: seq<Cell>
    var next: nat
    var active: bool
    var complete: bool
    var result: Option<nat>

    constructor (reduce: seq<Cell> -> nat)
      ensures Valid() && !active && this.reduce == reduce
    {
      this.reduce := reduce;
      program, memory, next := Program([], []), [], 0;
      leaf := _ => Cell(false, false, {});
      active, complete, result := false, false, None;
    }

    /** Everything before the cursor is what a fresh straight run computes, and the
        execution is complete exactly at the end, with the reduction of that run. */
    ghost predicate Valid()
      reads this
    {
      && (active ==>
            && |program.rows| > 0 && RanTo(program, leaf, memory, next)
            && (complete <==> next == |program.rows|)
            && (complete ==> result == Some(reduce(AllValues(program, leaf)))))
      && (!active ==> !complete)
    }

    /** Prepare an execution without running it. `prepared` is whether the executor
        accepts the program and the batch; what it accepts is in order. */
    method Begin(source: Program, batch: Payload -> Cell, prepared: bool) returns (ok: bool)
      requires Valid() && (prepared ==> Topological(source))
      modifies this
      ensures Valid()
      ensures ok <==> 0 < |source.rows| <= MAX_UINT32 && prepared
      ensures ok ==> active && next == 0 && program == source && leaf == batch
    {
      if |source.rows| == 0 || |source.rows| > MAX_UINT32 {
        return false;
      }
      if !prepared {
        active, complete := false, false;
        return false;
      }
      program, leaf, memory := source, batch, seq(|source.rows|, _ => Cell(false, false, {}));
      next, active, complete, result := 0, true, false, None;
      ok := true;
    }

    /** Execute one row; after the last one, reduce the results. */
    method Step() returns (ok: bool, instruction: InstructionId)
      requires Valid()
      modifies this`memory, this`next, this`complete, this`result
      ensures Valid()
      ensures ok <==> old(active && !complete)
      ensures ok ==> next == old(next) + 1 && instruction == next
      ensures !ok ==> next == old(next) && complete == old(complete)
    {
      if !active || complete || next >= |program.rows| {
        return false, 0;
      }
      hide Value, Combine, Ops;
      RowExtendsRun(program, leaf, memory, next);
      memory := memory[next := Combine(program.rows[next].payload, Held(memory, Ops(program, next)), leaf)];
      next := next + 1;
      instruction := next;
      if next == |program.rows| {
        assert memory == AllValues(program, leaf);
        result := Some(reduce(memory));
        complete := true;
      }
      ok := true;
    }

    /** Move back to a boundary already passed. The slots keep their contents. */
    method Rewind(cursor: nat) returns (ok: bool)
      requires Valid()
      modifies this`next, this`complete, this`result
      ensures Valid()
      ensures ok <==> active && cursor <= old(next)
      ensures next == if ok then cursor else old(next)
    {
      if !active || cursor > next {
        return false;
      }
      hide Value;
      next, complete, result := cursor, false, None;
      if cursor == |program.rows| {
        assert memory == AllValues(program, leaf);
        result := Some(reduce(memory));
        complete := true;
      }
      ok := true;
    }
  }

  // ----- checkpoints -----

  predicate Ascending(cursors: seq<nat>) {
    forall i, j :: 0 <= i < j < |cursors| ==> cursors[i] < cursors[j]
  }

  /** The number of elements below a target in an ascending list. */
  method Position(cursors: seq<nat>, target: nat) returns (index: nat, found: bool)
    requires Ascending(cursors)
    ensures index <= |cursors|
    ensures forall i :: 0 <= i < index ==> cursors[i] < target
    ensures forall i :: index <= i < |cursors| ==> target <= cursors[i]
    ensures found <==> target in cursors
    ensures found ==> index < |cursors| && cursors[index] == target
  {
    var low, high := 0, |cursors|;
    while low < high
      invariant 0 <= low <= high <= |cursors|
      invariant forall i :: 0 <= i < low ==> cursors[i] < target
      invariant forall i :: high <= i < |cursors| ==> target <= cursors[i]
    {
      var middle := (low + high) / 2;
      if cursors[middle] < target {
        low := middle + 1;
      } else {
        high := middle;
      }
    }
    index, found := low, low < |cursors| && cursors[low] == target;
  }

  lemma {:induction false} UpToIs(cursors: seq<nat>, target: nat, index: nat)
    requires index <= |cursors| && forall i :: 0 <= i < index ==> cursors[i] <= target
    requires forall i :: index <= i < |cursors| ==> target < cursors[i]
    ensures UpTo(cursors, target) == cursors[..index]
  {
    if index < |cursors| {
      UpToIs(cursors[..|cursors| - 1], target, index);
      assert cursors[..|cursors| - 1][..index] == cursors[..index];
    } else {
      assert cursors[..index] == cursors;
    }
  }

  class CheckpointSet {
    var cursors: seq<nat>
    const interval: nat
    const maximum: nat

    constructor (interval: nat, maximum: nat)
      requires interval > 0 && maximum > 0
      ensures Valid(0) && cursors == []
      ensures this.interval == interval && this.maximum == maximum
    {
      this.interval, this.maximum, cursors := interval, maximum, [];
    }

    /** Ascending, bounded, and none above the cursor. */
    ghost predicate Valid(cursor: nat)
      reads this
    {
      && interval > 0 && maximum > 0
      && Ascending(cursors) && |cursors| <= maximum
      && forall i :: 0 <= i < |cursors| ==> 0 < cursors[i] <= cursor
    }

    lemma Later(cursor: nat, next: nat)
      requires Valid(cursor) && cursor <= next
      ensures Valid(next)
    {
    }

    method Reset()
      requires interval > 0 && maximum > 0
      modifies this
      ensures Valid(0) && cursors == []
    {
      cursors := [];
    }

    /** Remember a boundary at the interval, or the end. A full set forgets its first. */
    method Record(cursor: nat, count: nat)
      requires Valid(cursor)
      modifies this
      ensures Valid(cursor)
      ensures cursors ==
              if cursor == 0 || (cursor != count && cursor % interval != 0) || cursor in old(cursors) then old(cursors)
              else (if |old(cursors)| < maximum then old(cursors) else old(cursors)[1..]) + [cursor]
    {
      if cursor == 0 || (cursor != count && cursor % interval != 0) {
        return;
      }
      var index, found := Position(cursors, cursor);
      assert index < |cursors| ==> cursors[index] == cursor && cursors[index] in cursors;
      if found {
        return;
      }
      if |cursors| < maximum {
        assert cursors[..index] == cursors && cursors[index..] == [];
        cursors := cursors[..index] + [cursor] + cursors[index..];
      } else {
        cursors := cursors[1..] + [cursor];
      }
    }

    /** The greatest checkpoint at or below the target, or the start. */
    method Nearest(target: nat) returns (origin: nat)
      requires Ascending(cursors)
      ensures origin <= target && (origin == 0 || origin in cursors)
      ensures forall i :: 0 <= i < |cursors| && cursors[i] <= target ==> cursors[i] <= origin
      ensures origin == LastOf(UpTo(cursors, target))
    {
      if |cursors| == 0 {
        return 0;
      }
      var index, found := Position(cursors, target);
      UpToIs(cursors, target, if found then index + 1 else index);
      if found {
        return target;
      }
      if index == 0 {
        return 0;
      }
      origin := cursors[index - 1];
    }

    /** Forget the checkpoints above the target. */
    method Truncate(target: nat, ghost cursor: nat)
      requires Valid(cursor)
      modifies this
      ensures Valid(target)
      ensures forall c :: c in cursors <==> c in old(cursors) && c <= target
      ensures cursors == UpTo(old(cursors), target)
    {
      var index, found := Position(cursors, target);
      if found {
        index := index + 1;
      }
      UpToIs(cursors, target, index);
      cursors := cursors[..index];
    }
  }

  // ----- session operations -----

  lemma NodeUnfold(cfg: Config, v: View, node: nat)
    requires InBounds(cfg, v)
    ensures NodeFrom(cfg, v, node) ==
            if v.cursor == cfg.count || cfg.nodes[v.cursor] != node then Moved(v, StopNode)
            else if Advance(cfg, v).stop != StopNone then Advance(cfg, v)
            else NodeFrom(cfg, Advance(cfg, v).view, node)
  {
  }

  lemma OverUnfold(cfg: Config, v: View, target: nat)
    requires InBounds(cfg, v)
    ensures OverTo(cfg, v, target) ==
            if v.cursor == cfg.count || v.cursor >= target then Moved(v, StopOver)
            else if Advance(cfg, v).stop != StopNone then Advance(cfg, v)
            else OverTo(cfg, Advance(cfg, v).view, target)
  {
  }

  lemma RunUnfold(cfg: Config, v: View)
    requires InBounds(cfg, v)
    ensures RunToStop(cfg, v) ==
            if v.cursor == cfg.count then Moved(v, StopComplete)
            else if Advance(cfg, v).stop != StopNone then Advance(cfg, v)
            else RunToStop(cfg, Advance(cfg, v).view)
  {
  }

  /** A run that goes on has not reached the end. */
  lemma GoesOn(cfg: Config, v: View)
    requires InBounds(cfg, v) && v.cursor < cfg.count
    ensures InBounds(cfg, Advance(cfg, v).view) && Advance(cfg, v).view.cursor == v.cursor + 1
    ensures Advance(cfg, v).stop == StopNone ==> v.cursor + 1 < cfg.count
  {
  }

  lemma {:induction false} WithoutAt(entries: seq<Entry>, id: nat, k: nat)
    requires k < |entries| && entries[k].id == id && forall j :: 0 <= j < k ==> entries[j].id != id
    ensures Without(entries, id) == entries[..k] + entries[k + 1..]
  {
    if k > 0 {
      WithoutAt(entries[1..], id, k - 1);
      assert entries[..k] == [entries[0]] + entries[1..][..k - 1];
      assert entries[k + 1..] == entries[1..][k..];
    }
  }

  lemma {:induction false} WithoutNone(entries: seq<Entry>, id: nat)
    requires forall j :: 0 <= j < |entries| ==> entries[j].id != id
    ensures Without(entries, id) == entries
  {
    if entries != [] {
      WithoutNone(entries[1..], id);
    }
  }

  /** The greatest of some instructions and a boundary. */
  method Farthest(ids: seq<nat>, least: nat) returns (target: nat)
    ensures target == Greatest(ids, least)
  {
    target := least;
    for k := 0 to |ids|
      invariant target == Greatest(ids[..k], least)
    {
      assert ids[..k + 1][..k] == ids[..k];
      if ids[k] > target {
        target := ids[k];
      }
    }
    assert ids[..|ids|] == ids;
  }

  lemma ForwardUnfold(cfg: Config, v: View, target: nat)
    requires InBounds(cfg, v) && target <= cfg.count
    ensures Forward(cfg, v, target) == if v.cursor >= target then v else Forward(cfg, Passed(cfg, v), target)
  {
  }

  /** One debugging session, before an actor serialises its commands. */
  class SessionState {
    const program: Program
    const leaf: Payload -> Cell
    const config: Config
    const execution: RetainedExecutor
    const checkpoints: CheckpointSet
    var breakpoints: seq<Entry>
    var nextId: nat

    constructor (program: Program, leaf: Payload -> Cell, config: Config, execution: RetainedExecutor,
                 checkpoints: CheckpointSet)
      requires execution.Valid() && execution.active && execution.next == 0 && execution.program == program
      requires execution.leaf == leaf && ConfigOk(config) && config.count == |program.rows|
      requires checkpoints.Valid(0) && checkpoints.cursors == []
      requires checkpoints.interval == config.interval && checkpoints.maximum == config.maximum
      ensures Valid() && this.execution == execution && this.checkpoints == checkpoints && this.program == program
      ensures this.leaf == leaf && this.config == config && Now() == View(0, [], [], 0)
    {
      this.program, this.leaf, this.config := program, leaf, config;
      this.execution, this.checkpoints := execution, checkpoints;
      breakpoints, nextId := [], 0;
    }

    /** The state before the cursor is that of a fresh straight run of the program, and
        checkpoints are ascending, bounded and not above the cursor. */
    ghost predicate Valid()
      reads this, execution, checkpoints
    {
      && execution.Valid() && execution.active && execution.program == program && execution.leaf == leaf
      && checkpoints.Valid(execution.next)
      && ConfigOk(config) && config.count == |program.rows| && Numbered(breakpoints, nextId)
      && checkpoints.interval == config.interval && checkpoints.maximum == config.maximum
    }

    ghost function Now(): View
      reads this, execution, checkpoints
    {
      View(execution.next, checkpoints.cursors, breakpoints, nextId)
    }

    lemma ExecutionFacts()
      requires Valid()
      ensures execution.next <= |program.rows| == config.count && ConfigOk(config) && InBounds(config, Now())
      ensures execution.complete <==> execution.next == config.count
    {
    }

    /** The first breakpoint that matches an instruction, or 0. */
    method MatchingBreakpoint(instruction: InstructionId) returns (id: nat)
      ensures id == FirstMatch(config, breakpoints, instruction)
      ensures Numbered(breakpoints, nextId) ==> (id == 0 <==> NoneStands(config, breakpoints, instruction))
      ensures Numbered(breakpoints, nextId) && id != 0 ==> NamesFirst(config, breakpoints, instruction, id)
    {
      hide NoneStands, NamesFirst;
      if Numbered(breakpoints, nextId) {
        FirstMatchIs(config, breakpoints, instruction);
      }
      for k := 0 to |breakpoints|
        invariant FirstMatch(config, breakpoints, instruction) == FirstMatch(config, breakpoints[k..], instruction)
      {
        if Fires(config, breakpoints[k].breakpoint, instruction) {
          return breakpoints[k].id;
        }
      }
      id := 0;
    }

    method AddBreakpoint(breakpoint: Breakpoint) returns (reply: Reply)
      requires Valid()
      modifies this`breakpoints, this`nextId
      ensures Valid() && Answered(Now(), reply) == AddedTo(config, old(Now()), breakpoint)
    {
      if !ValidBreakpoint(config, breakpoint) {
        return Failed(InvalidBreakpoint);
      }
      if |breakpoints| == config.maxBreakpoints || nextId == MAX_UINT32 {
        return Failed(BreakpointLimit);
      }
      nextId := nextId + 1;
      breakpoints := breakpoints + [Entry(nextId, breakpoint)];
      reply := Added(nextId);
    }

    method RemoveBreakpoint(id: nat) returns (reply: Reply)
      requires Valid()
      modifies this`breakpoints
      ensures Valid() && nextId == old(nextId)
      ensures breakpoints == Without(old(breakpoints), id)
      ensures reply == if Has(old(breakpoints), id) then Removed else Failed(InvalidBreakpoint)
    {
      for k := 0 to |breakpoints|
        invariant breakpoints == old(breakpoints) && forall j :: 0 <= j < k ==> breakpoints[j].id != id
      {
        if breakpoints[k].id == id {
          WithoutAt(breakpoints, id, k);
          breakpoints := breakpoints[..k] + breakpoints[k + 1..];
          return Removed;
        }
      }
      WithoutNone(breakpoints, id);
      reply := Failed(InvalidBreakpoint);
    }

    /** Execute one instruction, record the boundary and look for a breakpoint. */
    method AdvanceOne() returns (ok: bool, stop: Stop)
      requires Valid()
      modifies execution`memory, execution`next, execution`complete, execution`result, checkpoints
      ensures Valid()
      ensures ok <==> old(execution.next) < config.count
      ensures ok ==> Moved(Now(), stop) == Advance(config, old(Now()))
      ensures !ok ==> Now() == old(Now())
    {
      hide RetainedExecutor.Valid;
      ExecutionFacts();
      var instruction;
      ok, instruction := execution.Step();
      if !ok {
        return false, StopNone;
      }
      checkpoints.Record(execution.next, |program.rows|);
      ExecutionFacts();
      var id := MatchingBreakpoint(instruction);
      stop := if id != 0 then StopBreakpoint(id) else if execution.complete then StopComplete else StopNone;
    }

    /** Execute the run of instructions that belong to the next row's node, up to a
        breakpoint. */
    method StepNode() returns (stop: Stop)
      requires Valid() && execution.next < config.count
      modifies execution`memory, execution`next, execution`complete, execution`result, checkpoints
      ensures Valid() && Moved(Now(), stop) == NodeFrom(config, old(Now()), config.nodes[old(execution.next)])
    {
      hide RetainedExecutor.Valid, CheckpointSet.Valid, Advance, Numbered;
      ExecutionFacts();
      var node := config.nodes[execution.next];
      ghost var whole := NodeFrom(config, Now(), node);
      while execution.next < config.count && config.nodes[execution.next] == node
        invariant Valid() && execution.next <= config.count && InBounds(config, Now())
        invariant NodeFrom(config, Now(), node) == whole
        decreases config.count - execution.next
      {
        var ok;
        NodeUnfold(config, Now(), node);
        GoesOn(config, Now());
        ok, stop := AdvanceOne();
        ExecutionFacts();
        if stop != StopNone {
          return;
        }
      }
      NodeUnfold(config, Now(), node);
      stop := StopNode;
    }

    /** Execute through the last instruction the next row's node maps to, up to a
        breakpoint. */
    method StepOver() returns (stop: Stop)
      requires Valid() && execution.next < config.count
      modifies execution`memory, execution`next, execution`complete, execution`result, checkpoints
      ensures Valid()
      ensures Moved(Now(), stop) ==
              OverTo(config, old(Now()), Greatest(config.mapped(config.nodes[old(execution.next)]),
                                                  old(execution.next) + 1))
    {
      hide RetainedExecutor.Valid, CheckpointSet.Valid, Advance, Numbered;
      ExecutionFacts();
      var target := Farthest(config.mapped(config.nodes[execution.next]), execution.next + 1);
      ghost var whole := OverTo(config, Now(), target);
      while execution.next < target
        invariant Valid() && execution.next <= config.count && InBounds(config, Now())
        invariant OverTo(config, Now(), target) == whole
        invariant execution.next == config.count ==> execution.next >= target
        decreases config.count - execution.next
      {
        var ok;
        OverUnfold(config, Now(), target);
        GoesOn(config, Now());
        ok, stop := AdvanceOne();
        ExecutionFacts();
        if stop != StopNone {
          return;
        }
      }
      OverUnfold(config, Now(), target);
      stop := StopOver;
    }

    /** Execute until a breakpoint or the end stops the run. */
    method Run() returns (stop: Stop)
      requires Valid() && execution.next < config.count
      modifies execution`memory, execution`next, execution`complete, execution`result, checkpoints
      ensures Valid() && Moved(Now(), stop) == RunToStop(config, old(Now()))
    {
      hide RetainedExecutor.Valid, CheckpointSet.Valid, Advance, Numbered;
      ExecutionFacts();
      stop := StopNone;
      ghost var whole := RunToStop(config, Now());
      while stop == StopNone
        invariant Valid() && InBounds(config, Now())
        invariant stop == StopNone ==> execution.next < config.count && RunToStop(config, Now()) == whole
        invariant stop != StopNone ==> Moved(Now(), stop) == whole
        decreases config.count - execution.next
      {
        var ok;
        RunUnfold(config, Now());
        GoesOn(config, Now());
        ok, stop := AdvanceOne();
        ExecutionFacts();
      }
    }

    /** Pass boundaries up to a target. Breakpoints are not consulted. */
    method GoForward(target: nat)
      requires Valid() && target <= config.count
      modifies execution`memory, execution`next, execution`complete, execution`result, checkpoints
      ensures Valid() && InBounds(config, old(Now())) && Now() == Forward(config, old(Now()), target)
    {
      hide RetainedExecutor.Valid, CheckpointSet.Valid, Recorded;
      ExecutionFacts();
      ghost var whole := Forward(config, Now(), target);
      while execution.next < target
        invariant Valid() && InBounds(config, Now()) && Forward(config, Now(), target) == whole
        decreases target - execution.next
      {
        ForwardUnfold(config, Now(), target);
        PassBoundary();
        ExecutionFacts();
      }
      ForwardUnfold(config, Now(), target);
    }

    method PassBoundary()
      requires Valid() && execution.next < config.count
      modifies execution`memory, execution`next, execution`complete, execution`result, checkpoints
      ensures Valid() && Now() == Passed(config, old(Now()))
    {
      hide RetainedExecutor.Valid;
      ExecutionFacts();
      checkpoints.Later(execution.next, execution.next + 1);
      var ok, instruction := execution.Step();
      checkpoints.Record(execution.next, |program.rows|);
    }

    /** Go to an instruction boundary: rewind to the nearest checkpoint if it lies
        behind, then run forward. */
    method Replay(target: nat) returns (ok: bool, origin: nat)
      requires Valid()
      modifies execution`memory, execution`next, execution`complete, execution`result, checkpoints
      ensures Valid() && InBounds(config, old(Now()))
      ensures ok <==> target <= config.count
      ensures ok ==> Now() == Replayed(config, old(Now()), target) && origin == Origin(old(Now()), target)
      ensures !ok ==> Now() == old(Now()) && origin == 0
    {
      hide RetainedExecutor.Valid, CheckpointSet.Valid, Forward;
      ExecutionFacts();
      if target > config.count {
        return false, 0;
      }
      origin := execution.next;
      if target < execution.next {
        origin := GoBack(target);
      }
      GoForward(target);
      ok := true;
    }

    /** Rewind to the nearest checkpoint and forget the later ones. */
    method GoBack(target: nat) returns (origin: nat)
      requires Valid() && target < execution.next
      modifies execution`next, execution`complete, execution`result, checkpoints
      ensures Valid() && origin == Origin(old(Now()), target)
      ensures Now() == old(Now()).(cursor := origin, checkpoints := UpTo(old(Now()).checkpoints, target))
    {
      hide RetainedExecutor.Valid;
      ghost var cursor, before := execution.next, checkpoints.cursors;
      origin := checkpoints.Nearest(target);
      var ok := execution.Rewind(origin);
      checkpoints.Truncate(target, cursor);
      KeptAreBelow(before, target);
    }

    /** Back to the start, with no checkpoints. */
    method Restart()
      requires Valid()
      modifies execution`next, execution`complete, execution`result, checkpoints
      ensures Valid() && Now() == old(Now()).(cursor := 0, checkpoints := [])
    {
      hide RetainedExecutor.Valid;
      var ok := execution.Rewind(0);
      checkpoints.Reset();
    }

    /** A command that steps. */
    method Step(command: Command) returns (reply: Reply)
      requires Valid() && (command.StepInstruction? || command.StepNode? || command.StepOver?)
      modifies execution`memory, execution`next, execution`complete, execution`result, checkpoints
      ensures Valid() && InBounds(config, old(Now()))
      ensures Answered(Now(), reply) == Stepped(config, old(Now()), StepOf(config, old(Now()), command))
    {
      hide RetainedExecutor.Valid, CheckpointSet.Valid, Advance, NodeFrom, OverTo, Greatest;
      ExecutionFacts();
      if execution.next == config.count {
        return ShowError(View(execution.next, checkpoints.cursors, breakpoints, nextId), Complete, StopComplete,
                         SessionComplete);
      }
      var stop, ok;
      if command.StepNode? {
        stop := StepNode();
      } else if command.StepOver? {
        stop := StepOver();
      } else {
        ok, stop := AdvanceOne();
        if stop == StopNone {
          stop := StopInstruction;
        }
      }
      ExecutionFacts();
      var v := View(execution.next, checkpoints.cursors, breakpoints, nextId);
      reply := Show(v, StatusOf(config, v), stop);
    }

    /** Answer a command at rest. */
    method HandlePaused(command: Command) returns (reply: Reply)
      requires Valid()
      modifies this`breakpoints, this`nextId, execution`memory, execution`next, execution`complete, execution`result,
               checkpoints
      ensures Valid() && InBounds(config, old(Now()))
      ensures Answered(Now(), reply) == Respond(config, old(Now()), command)
    {
      hide RetainedExecutor.Valid, CheckpointSet.Valid, RunToStop, StepOf, Stepped, Replayed, Origin, Without, Has,
           AddedTo;
      ExecutionFacts();
      var v := View(execution.next, checkpoints.cursors, breakpoints, nextId);
      match command
      case Snapshot => reply := Show(v, StatusOf(config, v), StopNone);
      case StepInstruction => reply := Step(command);
      case StepNode => reply := Step(command);
      case StepOver => reply := Step(command);
      case Continue =>
        if execution.next == config.count {
          CompleteRuns(config, v);
          return Show(v, Complete, StopComplete);
        }
        var stop := Run();
        var w := View(execution.next, checkpoints.cursors, breakpoints, nextId);
        reply := Show(w, StatusOf(config, w), stop);
      case Pause =>
        reply := if execution.next == config.count then Show(v, Complete, StopComplete) else Show(v, Paused, StopPause);
      case Restart =>
        Restart();
        reply := Show(View(execution.next, checkpoints.cursors, breakpoints, nextId), Paused, StopRestart);
      case Replay(target) =>
        var ok, origin := Replay(target);
        var w := View(execution.next, checkpoints.cursors, breakpoints, nextId);
        reply := if ok then Show(w, StatusOf(config, w), StopReplay(origin))
                 else ShowError(w, StatusOf(config, w), StopReplay(origin), InvalidSession);
      case AddBreakpoint(breakpoint) => reply := AddBreakpoint(breakpoint);
      case RemoveBreakpoint(id) =>
        WithoutSame(breakpoints, id);
        reply := RemoveBreakpoint(id);
      case Result => reply := if execution.next == config.count then Reduced else Failed(ResultUnavailable);
      case Close => reply := Show(v, Closed, StopNone);
    }
  }

  lemma CompleteRuns(cfg: Config, v: View)
    requires InBounds(cfg, v) && v.cursor == cfg.count
    ensures RunToStop(cfg, v) == Moved(v, StopComplete)
  {
  }

  lemma WithoutSame(entries: seq<Entry>, id: nat)
    ensures !Has(entries, id) ==> Without(entries, id) == entries
  {
    if !Has(entries, id) {
      WithoutNone(entries, id);
    }
  }

  lemma KeptAreBelow(cursors: seq<nat>, target: nat)
    requires Ascending(cursors)
    ensures var kept := UpTo(cursors, target);
            Ascending(kept) && forall i :: 0 <= i < |kept| ==> kept[i] <= LastOf(kept)
  {
    UpToPrefix(cursors, target);
  }

  lemma {:induction false} UpToPrefix(cursors: seq<nat>, target: nat)
    ensures UpTo(cursors, target) <= cursors
  {
    if cursors != [] && cursors[|cursors| - 1] > target {
      UpToPrefix(cursors[..|cursors| - 1], target);
    }
  }

  /** Two sessions of the same program and batch that stand at the same boundary show
      the same results, whatever steps led there. */
  lemma SameBoundarySameState(a: SessionState, b: SessionState)
    requires a.Valid() && b.Valid() && a.program == b.program && a.leaf == b.leaf
    requires a.execution.reduce == b.execution.reduce && a.execution.next == b.execution.next
    ensures a.execution.memory[..a.execution.next] == b.execution.memory[..b.execution.next]
    ensures a.execution.complete == b.execution.complete
    ensures a.execution.complete ==> a.execution.result == b.execution.result
  {
    hide Value;
    assert forall i :: 0 <= i < a.execution.next ==> a.execution.memory[i] == b.execution.memory[i];
  }
}
