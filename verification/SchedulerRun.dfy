/** The scheduler loop, and what a whole batch run guarantees. */
module SchedulerRun {
  // `ExecuteCalls` is the loop of the source: slots emptied as calls are taken, a four-slot
  // selection, slot arrays for running calls and their results.  Its contract ties the run
  // to `Rounds` and to `Execute`, the run that the calls and their surroundings determine;
  // the lemmas turn that into conflict serializability, exactly-once results, completion
  // and the order of the events that a terminal sees.

  import opened Wrappers
  import opened Footprint
  import opened Serializability
  import opened Preparation
  import opened Scheduler

  /** A tool call in flight: its atomic step, and its result once it is ready.  A panic
      inside the tool is one more way of being ready. */
  datatype Program = Program(step: Step, outcome: Local -> Option<ToolResult>)

  /** One wake-up of the waiting loop: the steps taken since the last one, by slot. */
  datatype Wakeup = Wakeup(cancelled: bool, slots: seq<nat>)

  datatype RoundScript = RoundScript(cancelled: bool, wakeups: seq<Wakeup>)

  datatype Output = Output(call: nat, result: ToolResult, executed: bool)

  datatype Event = Started(call: nat) | ToolOutput(call: nat, code: string) | Finished(call: nat, ok: bool)

  /** StillRunning is no error of the source: the script shows only the beginning of the run. */
  datatype ScheduleError = Cancelled | NoProgress | StillRunning

  /** One finished round: its calls, their results, and the steps that were taken. */
  datatype Batch = Batch(round: seq<nat>, results: seq<ToolResult>, steps: seq<nat>)

  function StepsOf(programs: seq<Program>): Tools {
    seq(|programs|, i requires 0 <= i < |programs| => programs[i].step)
  }

  function Denied(call: Call): ToolResult {
    ToolResult(call.action.callId, false, "permission_denied")
  }

  /** The result of a call once its private state is final. */
  function ResultOf(call: Call, program: Program, local: Local): Option<ToolResult> {
    if call.preflight.Some? then call.preflight
    else if call.permit.None? then Some(Denied(call))
    else program.outcome(local)
  }

  // ----- What finished rounds amount to -----

  function RoundsOf(batches: seq<Batch>): seq<seq<nat>> {
    if batches == [] then [] else RoundsOf(batches[..|batches| - 1]) + [batches[|batches| - 1].round]
  }

  function WordOf(batches: seq<Batch>): seq<nat> {
    if batches == [] then [] else WordOf(batches[..|batches| - 1]) + batches[|batches| - 1].steps
  }

  function StartedEvents(round: seq<nat>): seq<Event> {
    if round == [] then [] else StartedEvents(round[..|round| - 1]) + [Started(round[|round| - 1])]
  }

  function CompletedEvents(round: seq<nat>, results: seq<ToolResult>): seq<Event>
    requires |round| == |results|
  {
    if round == [] then []
    else
      var n := |round| - 1;
      CompletedEvents(round[..n], results[..n])
      + [ToolOutput(round[n], results[n].code), Finished(round[n], results[n].ok)]
  }

  function RoundOutputs(calls: seq<Call>, round: seq<nat>, results: seq<ToolResult>): seq<Output>
    requires |round| == |results| && InRange(round, |calls|)
  {
    seq(|round|, k requires 0 <= k < |round| => Output(round[k], results[k], calls[round[k]].Executed()))
  }

  predicate InRange(round: seq<nat>, n: nat) {
    forall k :: 0 <= k < |round| ==> round[k] < n
  }

  predicate WellFormed(calls: seq<Call>, batches: seq<Batch>) {
    forall b :: 0 <= b < |batches| ==>
      && |batches[b].round| == |batches[b].results|
      && InRange(batches[b].round, |calls|)
      && (forall x :: x in batches[b].steps ==> x in batches[b].round && x < |calls| && calls[x].Executed())
  }

  function EventsOf(calls: seq<Call>, batches: seq<Batch>): seq<Event>
    requires WellFormed(calls, batches)
  {
    if batches == [] then []
    else
      var last := batches[|batches| - 1];
      EventsOf(calls, batches[..|batches| - 1]) + StartedEvents(last.round) + CompletedEvents(last.round, last.results)
  }

  function OutputsOf(calls: seq<Call>, batches: seq<Batch>): seq<Output>
    requires WellFormed(calls, batches)
  {
    if batches == [] then []
    else
      var last := batches[|batches| - 1];
      OutputsOf(calls, batches[..|batches| - 1]) + RoundOutputs(calls, last.round, last.results)
  }

  // ----- The run that the surroundings determine -----

  datatype Progress = Done | Stopped | Waiting

  datatype WaitEnd = WaitEnd(progress: Progress, end: System, steps: seq<nat>)

  /** The steps that running calls take: a slot without a running call takes none. */
  function Picked(round: seq<nat>, live: set<nat>, slots: seq<nat>): (picked: seq<nat>)
    ensures forall x :: x in picked ==> x in round && x in live
  {
    if slots == [] then []
    else
      var front, slot := Picked(round, live, slots[..|slots| - 1]), slots[|slots| - 1];
      if slot < |round| && round[slot] in live then front + [round[slot]] else front
  }

  function Unready(programs: seq<Program>, live: set<nat>, s: System): set<nat>
    requires |programs| == |s.locals|
  {
    set c | c in live && c < |programs| && programs[c].outcome(s.locals[c]).None?
  }

  /** Waiting for the live calls of a round: at every wake-up they take steps, and those that
      have an outcome leave. */
  function WaitFrom(
    programs: seq<Program>, round: seq<nat>, live: set<nat>, script: seq<Wakeup>, s: System): (w: WaitEnd)
    requires |programs| == |s.locals|
    ensures |w.end.locals| == |s.locals|
  {
    if script == [] then WaitEnd(Waiting, s, [])
    else if script[0].cancelled then WaitEnd(Stopped, s, [])
    else
      var steps := Picked(round, live, script[0].slots);
      var t := Run(StepsOf(programs), steps, s);
      RunKeepsCallCount(StepsOf(programs), steps, s);
      var rest := Unready(programs, live, t);
      if rest == {} then WaitEnd(Done, t, steps)
      else Then(steps, WaitFrom(programs, round, rest, script[1..], t))
  }

  function Then(steps: seq<nat>, w: WaitEnd): WaitEnd {
    w.(steps := steps + w.steps)
  }

  function LiveOf(calls: seq<Call>, round: seq<nat>): set<nat> {
    set x | x in round && x < |calls| && calls[x].Executed()
  }

  /** A run of a batch: the steps of its finished rounds, and those of a round that had begun. */
  datatype Execution = Execution(progress: Progress, turns: seq<seq<nat>>, begun: bool, cut: seq<nat>, end: System)

  function Execute(
    calls: seq<Call>, programs: seq<Program>, script: seq<RoundScript>, pending: set<nat>, s: System): (x: Execution)
    requires |programs| == |s.locals|
    decreases |script|
  {
    if pending == {} then Execution(Done, [], false, [], s)
    else if script == [] then Execution(Waiting, [], false, [], s)
    else if script[0].cancelled then Execution(Stopped, [], false, [], s)
    else
      var round := Selection(calls, pending);
      var w := WaitFrom(programs, round, LiveOf(calls, round), script[0].wakeups, s);
      if w.progress != Done then Execution(w.progress, [], true, w.steps, w.end)
      else After(w.steps, Execute(calls, programs, script[1..], pending - Elements(round), w.end))
  }

  function After(steps: seq<nat>, x: Execution): Execution {
    x.(turns := [steps] + x.turns)
  }

  /** The round that was begun and not finished. */
  function BegunRound(calls: seq<Call>, batches: seq<Batch>, begun: bool): seq<nat> {
    var rounds := Rounds(calls, Below(|calls|));
    if begun && |batches| < |rounds| then rounds[|batches|] else []
  }

  /** All events of a run: those of its finished rounds, then the starts of the one begun. */
  function AllEvents(calls: seq<Call>, batches: seq<Batch>, begun: bool): seq<Event>
    requires WellFormed(calls, batches)
  {
    EventsOf(calls, batches) + StartedEvents(BegunRound(calls, batches, begun))
  }

  function Outcome(progress: Progress, outputs: seq<Output>): Result<seq<Output>, ScheduleError> {
    match progress
    case Done => Success(outputs)
    case Stopped => Failure(ScheduleError.Cancelled)
    case Waiting => Failure(StillRunning)
  }

  // ----- The loops of the source -----

  /** The calls of the next round, written into the selection buffer. */
  method SelectPendingCalls(slots: Slots, ghost calls: seq<Call>, selected: array<nat>) returns (count: nat)
    requires selected.Length == MAX_PARALLEL
    requires SlotsOf(slots, calls)
    modifies selected
    ensures count <= MAX_PARALLEL
    ensures selected[..count] == Selection(calls, PendingOf(slots))
  {
    ghost var pending := PendingOf(slots);
    count := 0;
    var index := 0;
    while index < |slots| && count < MAX_PARALLEL
      invariant 0 <= index <= |slots|
      invariant count <= MAX_PARALLEL
      invariant selected[..count] == ReadyBelow(calls, pending, index)
    {
      var call := slots[index];
      if call.Some? {
        var blocked := BlockedByPendingConflict(index, slots, calls);
        if call.value.permit.None? || !blocked {
          selected[count] := index;
          count := count + 1;
        }
      }
      index := index + 1;
    }
    ReadyBelowGrows(calls, pending, index, |calls|);
  }

  predicate SlotsOf(slots: Slots, calls: seq<Call>) {
    |slots| == |calls| && forall i :: 0 <= i < |slots| && slots[i].Some? ==> slots[i].value == calls[i]
  }

  method BlockedByPendingConflict(index: nat, slots: Slots, ghost calls: seq<Call>) returns (blocked: bool)
    requires index < |slots| && SlotsOf(slots, calls) && slots[index].Some?
    ensures blocked == Blocked(calls, PendingOf(slots), index)
  {
    for prior := 0 to index
      invariant forall p :: 0 <= p < prior && slots[p].Some? ==>
        !Conflicts(calls[index].footprint, calls[p].footprint)
    {
      if slots[prior].Some? && Conflicts(slots[index].value.footprint, slots[prior].value.footprint) {
        return true;
      }
    }
    blocked := false;
  }

  function LiveCalls(round: seq<nat>, futures: seq<bool>): set<nat> {
    set k | 0 <= k < |round| && k < |futures| && futures[k] :: round[k]
  }

  lemma LiveSlot(round: seq<nat>, futures: seq<bool>, slot: nat)
    requires Increasing(round) && slot < |round| <= |futures|
    ensures round[slot] in LiveCalls(round, futures) <==> futures[slot]
  {
  }

  /** Polls the running calls of a round until none is pending, or the turn is cancelled. */
  method WaitForBatch(
    programs: seq<Program>, round: seq<nat>, futures: array<bool>, results: array<Option<ToolResult>>,
    script: seq<Wakeup>, start: System) returns (progress: Progress, end: System, ghost steps: seq<nat>)
    requires futures.Length == results.Length == MAX_PARALLEL && |round| <= MAX_PARALLEL
    requires |start.locals| == |programs| && Increasing(round) && InRange(round, |programs|)
    modifies futures, results
    ensures WaitEnd(progress, end, steps)
      == WaitFrom(programs, round, LiveCalls(round, old(futures[..])), script, start)
    ensures end == Run(StepsOf(programs), steps, start) && |end.locals| == |start.locals|
    ensures forall x :: x in steps ==> exists k :: 0 <= k < |round| && round[k] == x && old(futures[k])
    ensures forall i :: 0 <= i < |programs| && i !in steps ==> end.locals[i] == start.locals[i]
    ensures forall k :: 0 <= k < |round| && !old(futures[k]) ==> results[k] == old(results[k])
    ensures progress == Done ==> forall k :: 0 <= k < |round| && old(futures[k]) ==>
      results[k].Some? && results[k] == programs[round[k]].outcome(end.locals[round[k]])
  {
    hide Run;
    hide WaitFrom;
    end, steps := start, [];
    ghost var whole := WaitFrom(programs, round, LiveCalls(round, futures[..]), script, start);
    var turn := 0;
    assert script[0..] == script;
    RunNothing(programs, start);
    while turn < |script|
      invariant 0 <= turn <= |script|
      invariant Polling(programs, round, futures, results, old(futures[..]), old(results[..]), start, end, steps)
      invariant whole == Then(steps, WaitFrom(programs, round, LiveCalls(round, futures[..]), script[turn..], end))
    {
      hide LiveCalls;
      ghost var live, s := LiveCalls(round, futures[..]), end;
      WaitUnfolds(programs, round, live, script, turn, end);
      if script[turn].cancelled {
        return Stopped, end, steps;
      }
      ghost var before := steps;
      end, steps := TakeSteps(programs, round, futures, results, script[turn].slots,
                              old(futures[..]), old(results[..]), start, end, steps);
      var pending := PollSlots(programs, round, futures, results,
                               old(futures[..]), old(results[..]), start, end, steps);
      if !pending {
        return Done, end, steps;
      }
      ghost var picked := Picked(round, live, script[turn].slots);
      ThenTwice(before, picked, WaitFrom(programs, round, LiveCalls(round, futures[..]), script[turn + 1..], end));
      turn := turn + 1;
    }
    WaitUnfolds(programs, round, LiveCalls(round, futures[..]), script, turn, end);
    progress := Waiting;
  }

  lemma RunNothing(programs: seq<Program>, s: System)
    ensures Run(StepsOf(programs), [], s) == s
  {
  }

  lemma ThenTwice(u: seq<nat>, v: seq<nat>, w: WaitEnd)
    ensures Then(u, Then(v, w)) == Then(u + v, w)
  {
    assert u + (v + w.steps) == (u + v) + w.steps;
  }

  lemma WaitUnfolds(
    programs: seq<Program>, round: seq<nat>, live: set<nat>, script: seq<Wakeup>, turn: nat, s: System)
    requires |programs| == |s.locals| && turn <= |script|
    ensures var w := WaitFrom(programs, round, live, script[turn..], s);
      if turn == |script| then w == WaitEnd(Waiting, s, [])
      else if script[turn].cancelled then w == WaitEnd(Stopped, s, [])
      else
        var steps := Picked(round, live, script[turn].slots);
        var t := Run(StepsOf(programs), steps, s);
        && |t.locals| == |s.locals|
        && var rest := Unready(programs, live, t);
           w == if rest == {} then WaitEnd(Done, t, steps)
                else Then(steps, WaitFrom(programs, round, rest, script[turn + 1..], t))
  {
    if turn < |script| {
      assert script[turn..][1..] == script[turn + 1..];
      RunKeepsCallCount(StepsOf(programs), Picked(round, live, script[turn].slots), s);
    }
  }

  /** Polls every running call once; the ones that are ready give their result and end. */
  method PollSlots(
    programs: seq<Program>, round: seq<nat>, futures: array<bool>, results: array<Option<ToolResult>>,
    ghost live: seq<bool>, ghost given: seq<Option<ToolResult>>, ghost start: System, now: System,
    ghost steps: seq<nat>)
    returns (pending: bool)
    requires Polling(programs, round, futures, results, live, given, start, now, steps) && Increasing(round)
    modifies futures, results
    ensures Polling(programs, round, futures, results, live, given, start, now, steps)
    ensures LiveCalls(round, futures[..]) == Unready(programs, LiveCalls(round, old(futures[..])), now)
    ensures pending <==> LiveCalls(round, futures[..]) != {}
    ensures !pending ==> forall k :: 0 <= k < |round| ==> !futures[k]
  {
    hide Run;
    hide Increasing;
    pending := false;
    for slot := 0 to |round|
      invariant Polling(programs, round, futures, results, live, given, start, now, steps)
      invariant forall k :: slot <= k < |round| ==> futures[k] == old(futures[k])
      invariant forall k :: 0 <= k < slot ==>
        (futures[k] <==> old(futures[k]) && programs[round[k]].outcome(now.locals[round[k]]).None?)
      invariant pending <==> exists k :: 0 <= k < slot && futures[k]
    {
      if futures[slot] {
        var outcome := programs[round[slot]].outcome(now.locals[round[slot]]);
        if outcome.Some? {
          results[slot] := outcome;
          futures[slot] := false;
        } else {
          pending := true;
        }
      }
    }
    LiveAreUnready(programs, round, old(futures[..]), futures[..], now);
  }

  lemma LiveAreUnready(programs: seq<Program>, round: seq<nat>, before: seq<bool>, after: seq<bool>, now: System)
    requires |round| <= |before| == |after| && |programs| == |now.locals| && InRange(round, |programs|)
    requires forall k :: 0 <= k < |round| ==>
      (after[k] <==> before[k] && programs[round[k]].outcome(now.locals[round[k]]).None?)
    ensures LiveCalls(round, after) == Unready(programs, LiveCalls(round, before), now)
    ensures (exists k :: 0 <= k < |round| && after[k]) <==> LiveCalls(round, after) != {}
  {
    if k :| 0 <= k < |round| && after[k] {
      assert round[k] in LiveCalls(round, after);
    }
  }

  /** The invariant of the waiting loop: finished slots hold the outcome of their final state. */
  ghost predicate Polling(
    programs: seq<Program>, round: seq<nat>, futures: array<bool>, results: array<Option<ToolResult>>,
    live: seq<bool>, given: seq<Option<ToolResult>>, start: System, now: System, steps: seq<nat>)
    reads futures, results
  {
    && futures.Length == results.Length == |live| == |given| == MAX_PARALLEL && |round| <= MAX_PARALLEL
    && |now.locals| == |start.locals| == |programs|
    && InRange(round, |programs|)
    && now == Run(StepsOf(programs), steps, start)
    && (forall x :: x in steps ==> exists k :: 0 <= k < |round| && round[k] == x && live[k])
    && (forall i :: 0 <= i < |programs| && i !in steps ==> now.locals[i] == start.locals[i])
    && (forall k :: 0 <= k < |round| && !live[k] ==> !futures[k] && results[k] == given[k])
    && (forall k :: 0 <= k < |round| && live[k] && !futures[k] ==>
          results[k].Some? && results[k] == programs[round[k]].outcome(now.locals[round[k]]))
  }

  /** One step of a running call keeps the invariant. */
  lemma PollingStep(
    programs: seq<Program>, round: seq<nat>, futures: array<bool>, results: array<Option<ToolResult>>,
    live: seq<bool>, given: seq<Option<ToolResult>>, start: System, now: System, steps: seq<nat>, slot: nat)
    requires Polling(programs, round, futures, results, live, given, start, now, steps) && Increasing(round)
    requires slot < |round| && futures[slot]
    ensures Polling(programs, round, futures, results, live, given, start,
                    Apply(StepsOf(programs), round[slot], now), steps + [round[slot]])
  {
    var longer := steps + [round[slot]];
    assert longer[..|longer| - 1] == steps;
    assert round[slot] in round;
  }

  /** The running calls of a round take the given steps; a finished call takes none. */
  method TakeSteps(
    programs: seq<Program>, round: seq<nat>, futures: array<bool>, results: array<Option<ToolResult>>,
    slots: seq<nat>, ghost live: seq<bool>, ghost given: seq<Option<ToolResult>>,
    ghost start: System, before: System, ghost stepsBefore: seq<nat>)
    returns (after: System, ghost steps: seq<nat>)
    requires futures.Length == MAX_PARALLEL && |round| <= MAX_PARALLEL && Increasing(round)
    requires Polling(programs, round, futures, results, live, given, start, before, stepsBefore)
    ensures Polling(programs, round, futures, results, live, given, start, after, steps)
    ensures var picked := Picked(round, LiveCalls(round, futures[..]), slots);
      steps == stepsBefore + picked && after == Run(StepsOf(programs), picked, before)
  {
    hide LiveCalls;
    hide Polling;
    hide Apply;
    after, steps := before, stepsBefore;
    ghost var running := LiveCalls(round, futures[..]);
    for i := 0 to |slots|
      invariant Polling(programs, round, futures, results, live, given, start, after, steps)
      invariant steps == stepsBefore + Picked(round, running, slots[..i])
      invariant after == Run(StepsOf(programs), Picked(round, running, slots[..i]), before)
    {
      var slot := slots[i];
      ghost var picked := Picked(round, running, slots[..i]);
      assert slots[..i + 1][..i] == slots[..i];
      if slot < |round| {
        LiveSlot(round, futures[..], slot);
        if futures[slot] {
          PollingStep(programs, round, futures, results, live, given, start, after, steps, slot);
          assert (picked + [round[slot]])[..|picked|] == picked;
          after := Apply(StepsOf(programs), round[slot], after);
          steps := steps + [round[slot]];
        }
      }
    }
    assert slots[..|slots|] == slots;
  }

  /** Takes the calls of one round out of their slots and starts those that will execute. */
  method LaunchRound(
    ghost calls: seq<Call>, slots: Slots, round: seq<nat>, futures: array<bool>, results: array<Option<ToolResult>>)
    returns (remaining: Slots)
    requires futures.Length == results.Length == MAX_PARALLEL && |round| <= MAX_PARALLEL
    requires SlotsOf(slots, calls) && InRange(round, |calls|) && Increasing(round)
    requires forall x :: x in round ==> x in PendingOf(slots)
    modifies futures, results
    ensures SlotsOf(remaining, calls) && PendingOf(remaining) == PendingOf(slots) - Elements(round)
    ensures forall k :: 0 <= k < |round| ==> futures[k] == calls[round[k]].Executed()
    ensures forall k :: 0 <= k < |round| && calls[round[k]].preflight.Some? ==>
      results[k] == calls[round[k]].preflight
    ensures forall k :: 0 <= k < |round| && calls[round[k]].preflight.None? && calls[round[k]].permit.None? ==>
      results[k] == Some(Denied(calls[round[k]]))
  {
    remaining := slots;
    for slot := 0 to |round|
      invariant |remaining| == |slots|
      invariant forall i :: 0 <= i < |slots| && i !in round ==> remaining[i] == slots[i]
      invariant forall k :: 0 <= k < slot ==> remaining[round[k]] == None
      invariant forall k :: slot <= k < |round| ==> remaining[round[k]] == slots[round[k]]
      invariant Launched(calls, round, slot, futures, results)
    {
      var index := round[slot];
      assert index in round;
      var call := remaining[index].value;
      remaining := remaining[index := None];
      LaunchCall(calls, round, slot, call, futures, results);
    }
    TakenSlotsAreEmpty(calls, slots, remaining, round);
  }

  /** The first calls of a round have a future, or the result they have without running. */
  ghost predicate Launched(
    calls: seq<Call>, round: seq<nat>, upTo: nat, futures: array<bool>, results: array<Option<ToolResult>>)
    reads futures, results
  {
    && futures.Length == results.Length == MAX_PARALLEL && upTo <= |round| <= MAX_PARALLEL && InRange(round, |calls|)
    && forall k :: 0 <= k < upTo ==>
        && futures[k] == calls[round[k]].Executed()
        && (calls[round[k]].preflight.Some? ==> results[k] == calls[round[k]].preflight)
        && (calls[round[k]].preflight.None? && calls[round[k]].permit.None? ==>
              results[k] == Some(Denied(calls[round[k]])))
  }

  method LaunchCall(
    ghost calls: seq<Call>, ghost round: seq<nat>, slot: nat, call: Call,
    futures: array<bool>, results: array<Option<ToolResult>>)
    requires slot < |round| && Launched(calls, round, slot, futures, results) && call == calls[round[slot]]
    modifies futures, results
    ensures Launched(calls, round, slot + 1, futures, results)
  {
    futures[slot] := false;
    if call.preflight.Some? {
      results[slot] := call.preflight;
    } else if call.permit.None? {
      results[slot] := Some(Denied(call));
    } else {
      futures[slot] := true;
    }
  }

  lemma TakenSlotsAreEmpty(calls: seq<Call>, slots: Slots, remaining: Slots, round: seq<nat>)
    requires SlotsOf(slots, calls) && InRange(round, |calls|) && |remaining| == |slots|
    requires forall i :: 0 <= i < |slots| && i !in round ==> remaining[i] == slots[i]
    requires forall k :: 0 <= k < |round| ==> remaining[round[k]] == None
    ensures SlotsOf(remaining, calls) && PendingOf(remaining) == PendingOf(slots) - Elements(round)
  {
    forall i | 0 <= i < |slots| && i in round ensures remaining[i] == None {
      var k :| 0 <= k < |round| && round[k] == i;
    }
  }

  lemma LaunchedAreLive(calls: seq<Call>, round: seq<nat>, futures: seq<bool>)
    requires InRange(round, |calls|) && |round| <= |futures|
    requires forall k :: 0 <= k < |round| ==> futures[k] == calls[round[k]].Executed()
    ensures LiveCalls(round, futures) == LiveOf(calls, round)
  {
  }

  /** Runs the calls of one round to completion. */
  method RunRound(
    calls: seq<Call>, programs: seq<Program>, slots: Slots, round: seq<nat>, wakeups: seq<Wakeup>, before: System)
    returns (progress: Progress, remaining: Slots, results: seq<ToolResult>, after: System, ghost steps: seq<nat>)
    requires |programs| == |calls| == |before.locals| && SlotsOf(slots, calls)
    requires InRange(round, |calls|) && Increasing(round) && |round| <= MAX_PARALLEL
    requires forall x :: x in round ==> x in PendingOf(slots)
    ensures SlotsOf(remaining, calls) && PendingOf(remaining) == PendingOf(slots) - Elements(round)
    ensures WaitEnd(progress, after, steps) == WaitFrom(programs, round, LiveOf(calls, round), wakeups, before)
    ensures after == Run(StepsOf(programs), steps, before) && |after.locals| == |before.locals|
    ensures forall x :: x in steps ==> x in round && x < |calls| && calls[x].Executed()
    ensures forall i :: 0 <= i < |programs| && i !in steps ==> after.locals[i] == before.locals[i]
    ensures progress == Done ==> |results| == |round| && HoldResults(calls, programs, round, results, after)
  {
    hide Run;
    hide WaitFrom;
    hide LiveOf;
    hide LiveCalls;
    hide PendingOf;
    hide SlotsOf;
    var futures := new bool[MAX_PARALLEL](i => false);
    var slotResults := new Option<ToolResult>[MAX_PARALLEL](i => None);
    remaining := LaunchRound(calls, slots, round, futures, slotResults);
    LaunchedAreLive(calls, round, futures[..]);
    progress, after, steps := WaitForBatch(programs, round, futures, slotResults, wakeups, before);
    results := [];
    if progress == Done {
      for slot := 0 to |round|
        invariant |results| == slot
        invariant forall k :: 0 <= k < slot ==> slotResults[k] == Some(results[k])
        invariant forall k :: 0 <= k < |round| ==> slotResults[k].Some?
      {
        results := results + [slotResults[slot].value];
      }
    }
  }

  /** Every call of the round has the result that its final private state gives. */
  predicate HoldResults(
    calls: seq<Call>, programs: seq<Program>, round: seq<nat>, results: seq<ToolResult>, s: System)
  {
    && |programs| == |calls| == |s.locals| && |results| == |round| && InRange(round, |calls|)
    && forall k :: 0 <= k < |round| ==>
        Some(results[k]) == ResultOf(calls[round[k]], programs[round[k]], s.locals[round[k]])
  }

  predicate BatchesHoldResults(calls: seq<Call>, programs: seq<Program>, batches: seq<Batch>, s: System) {
    forall b :: 0 <= b < |batches| ==> HoldResults(calls, programs, batches[b].round, batches[b].results, s)
  }

  /** The steps of an interrupted round belong to executed calls of the round that comes next. */
  predicate CutFollows(calls: seq<Call>, batches: seq<Batch>, cut: seq<nat>) {
    var rounds := Rounds(calls, Below(|calls|));
    cut != [] ==>
      && |RoundsOf(batches)| < |rounds|
      && forall x :: x in cut ==> x in rounds[|RoundsOf(batches)|] && x < |calls| && calls[x].Executed()
  }

  /** What the finished rounds and the interrupted one record of a run x: its events and steps,
      and every result as its call's final private state gives it. */
  ghost predicate Accounts(
    calls: seq<Call>, programs: seq<Program>, batches: seq<Batch>, cut: seq<nat>, events: seq<Event>, start: System,
    x: Execution)
  {
    && WellFormed(calls, batches) && BatchesHoldResults(calls, programs, batches, x.end)
    && StepsOfRounds(batches) == x.turns && cut == x.cut
    && x.end == Run(StepsOf(programs), WordOf(batches) + cut, start)
    && RoundsOf(batches) <= Rounds(calls, Below(|calls|)) && CutFollows(calls, batches, cut)
    && (x.progress == Done ==> RoundsOf(batches) == Rounds(calls, Below(|calls|)) && cut == [] && !x.begun)
    && events == AllEvents(calls, batches, x.begun)
  }

  /** Runs a batch of calls.  `batches` records the finished rounds and `cut` the steps of a
      round that was begun and not finished. */
  method ExecuteCalls(calls: seq<Call>, programs: seq<Program>, script: seq<RoundScript>, start: System)
    returns (outcome: Result<seq<Output>, ScheduleError>, events: seq<Event>, end: System,
             ghost batches: seq<Batch>, ghost cut: seq<nat>)
    requires |programs| == |calls| == |start.locals|
    ensures end == Execute(calls, programs, script, Below(|calls|), start).end
    ensures outcome.Success? <==> Execute(calls, programs, script, Below(|calls|), start).progress == Done
    ensures var x := Execute(calls, programs, script, Below(|calls|), start);
      && Accounts(calls, programs, batches, cut, events, start, x)
      && outcome == Outcome(x.progress, OutputsOf(calls, batches))
  {
    hide Accounts;
    hide Tracked;
    hide Selection;
    hide Run;
    hide HoldResults;
    hide Execute;
    hide WaitFrom;
    hide StartedEvents;
    hide CompletedEvents;
    hide RoundOutputs;
    var slots: Slots := seq(|calls|, i requires 0 <= i < |calls| => Some(calls[i]));
    assert PendingOf(slots) == Below(|calls|);
    var selected := new nat[MAX_PARALLEL](i => 0);
    var completed := 0;
    var outputs := [];
    var turn := 0;
    events, end, batches, cut := [], start, [], [];
    ghost var x := Execute(calls, programs, script, Below(|calls|), start);
    NothingRunYet(calls, programs, script, slots, start);
    while completed < |calls|
      invariant 0 <= turn <= |script| && completed + |PendingOf(slots)| == |calls| && cut == []
      invariant SlotsOf(slots, calls) && |end.locals| == |calls|
      invariant Tracked(calls, programs, script, turn, slots, batches, outputs, events, start, end, x)
    {
      if turn == |script| || script[turn].cancelled {
        RunStops(calls, programs, script, turn, slots, batches, outputs, events, start, end, x);
        return Failure(if turn == |script| then StillRunning else ScheduleError.Cancelled), events, end, batches, cut;
      }
      var count := SelectPendingCalls(slots, calls, selected);
      FirstRoundShrinks(calls, PendingOf(slots));
      if count == 0 {
        return Failure(NoProgress), events, end, batches, cut;
      }
      var round := selected[..count];
      RoundIsPending(calls, PendingOf(slots), round);
      var announced := AnnounceRound(events, round);
      var progress, remaining, results, after;
      ghost var steps;
      progress, remaining, results, after, steps := RunRound(calls, programs, slots, round, script[turn].wakeups, end);
      if progress != Done {
        RoundIsCut(calls, programs, script, turn, slots, batches, outputs, events, start, end, x,
                   WaitEnd(progress, after, steps));
        var error := if progress == Waiting then StillRunning else ScheduleError.Cancelled;
        return Failure(error), announced, after, batches, steps;
      }
      RoundCompletes(calls, programs, script, turn, slots, remaining, batches, outputs, events, start, end, x,
                     Batch(round, results, steps), after);
      RoundSize(PendingOf(slots), round);
      events, outputs := ReportRound(calls, round, results, announced, outputs);
      completed := completed + |round|;
      batches := batches + [Batch(round, results, steps)];
      slots, end, turn := remaining, after, turn + 1;
    }
    assert PendingOf(slots) == {};
    RunEnds(calls, programs, script, turn, slots, batches, outputs, events, start, end, x);
    outcome := Success(outputs);
  }

  /** The invariant of the scheduler loop. */
  ghost predicate Running(
    calls: seq<Call>, programs: seq<Program>, slots: Slots, batches: seq<Batch>, start: System, end: System)
  {
    && |programs| == |calls| == |end.locals| && SlotsOf(slots, calls)
    && WellFormed(calls, batches) && BatchesHoldResults(calls, programs, batches, end)
    && (forall b, x :: 0 <= b < |batches| && x in batches[b].round ==> x !in PendingOf(slots))
    && end == Run(StepsOf(programs), WordOf(batches), start)
    && RoundsOf(batches) + Rounds(calls, PendingOf(slots)) == Rounds(calls, Below(|calls|))
  }

  /** The same, with what was reported so far and what is left of the whole run x. */
  ghost predicate Tracked(
    calls: seq<Call>, programs: seq<Program>, script: seq<RoundScript>, turn: nat, slots: Slots, batches: seq<Batch>,
    outputs: seq<Output>, events: seq<Event>, start: System, end: System, x: Execution)
  {
    && turn <= |script| && Running(calls, programs, slots, batches, start, end)
    && outputs == OutputsOf(calls, batches) && events == EventsOf(calls, batches)
    && x == AfterAll(StepsOfRounds(batches), Execute(calls, programs, script[turn..], PendingOf(slots), end))
  }

  lemma NothingRunYet(calls: seq<Call>, programs: seq<Program>, script: seq<RoundScript>, slots: Slots, start: System)
    requires |programs| == |calls| == |start.locals| && SlotsOf(slots, calls) && PendingOf(slots) == Below(|calls|)
    ensures Tracked(calls, programs, script, 0, slots, [], [], [], start, start,
                    Execute(calls, programs, script, Below(|calls|), start))
  {
    hide Selection;
    hide Rounds;
    hide Conflicts;
    hide Execute;
    assert script[0..] == script;
    AfterNothing(Execute(calls, programs, script, Below(|calls|), start));
  }

  /** The script ends, or the turn is cancelled, between two rounds. */
  lemma RunStops(
    calls: seq<Call>, programs: seq<Program>, script: seq<RoundScript>, turn: nat, slots: Slots, batches: seq<Batch>,
    outputs: seq<Output>, events: seq<Event>, start: System, end: System, x: Execution)
    requires Tracked(calls, programs, script, turn, slots, batches, outputs, events, start, end, x)
    requires PendingOf(slots) != {} && (turn == |script| || script[turn].cancelled)
    ensures Accounts(calls, programs, batches, [], events, start, x) && x.end == end
    ensures x.progress == if turn == |script| then Waiting else Stopped
  {
    hide Execute;
    hide Rounds;
    hide HoldResults;
    hide Run;
    ExecuteUnfolds(calls, programs, script, turn, PendingOf(slots), end);
    NothingLeft(batches, x.progress, end);
    assert WordOf(batches) + [] == WordOf(batches);
  }

  lemma RunEnds(
    calls: seq<Call>, programs: seq<Program>, script: seq<RoundScript>, turn: nat, slots: Slots, batches: seq<Batch>,
    outputs: seq<Output>, events: seq<Event>, start: System, end: System, x: Execution)
    requires Tracked(calls, programs, script, turn, slots, batches, outputs, events, start, end, x)
    requires PendingOf(slots) == {}
    ensures Accounts(calls, programs, batches, [], events, start, x) && x.end == end && x.progress == Done
    ensures outputs == OutputsOf(calls, batches)
  {
    hide Execute;
    hide Rounds;
    hide HoldResults;
    hide Run;
    ExecuteUnfolds(calls, programs, script, turn, PendingOf(slots), end);
    NothingLeft(batches, Done, end);
    NoRoundsLeft(calls);
    assert WordOf(batches) + [] == WordOf(batches);
  }

  /** The next round is begun and not finished. */
  lemma RoundIsCut(
    calls: seq<Call>, programs: seq<Program>, script: seq<RoundScript>, turn: nat, slots: Slots, batches: seq<Batch>,
    outputs: seq<Output>, events: seq<Event>, start: System, end: System, x: Execution, w: WaitEnd)
    requires Tracked(calls, programs, script, turn, slots, batches, outputs, events, start, end, x)
    requires PendingOf(slots) != {} && turn < |script| && !script[turn].cancelled && w.progress != Done
    requires var round := Selection(calls, PendingOf(slots));
      && w == WaitFrom(programs, round, LiveOf(calls, round), script[turn].wakeups, end)
      && w.end == Run(StepsOf(programs), w.steps, end)
      && (forall y :: y in w.steps ==> y in round && y < |calls| && calls[y].Executed())
      && (forall i :: 0 <= i < |programs| && i !in w.steps ==> w.end.locals[i] == end.locals[i])
    ensures var round := Selection(calls, PendingOf(slots));
      Accounts(calls, programs, batches, w.steps, events + StartedEvents(round), start, x)
    ensures x.end == w.end && x.progress == w.progress
  {
    hide Execute;
    hide Rounds;
    hide Run;
    hide Selection;
    hide WaitFrom;
    hide HoldResults;
    hide StartedEvents;
    var pending := PendingOf(slots);
    var round := Selection(calls, pending);
    ExecuteUnfolds(calls, programs, script, turn, pending, end);
    AfterBegun(batches, w.progress, w.steps, w.end);
    RoundIsPending(calls, pending, round);
    KeepsEarlierResults(calls, programs, batches, round, w.steps, pending, end, w.end);
    RunConcat(StepsOf(programs), WordOf(batches), w.steps, start);
    RoundBegun(calls, batches, pending);
    NextRound(calls, batches, pending);
  }

  function StepsOfRounds(batches: seq<Batch>): (turns: seq<seq<nat>>)
    ensures |turns| == |batches| && forall b :: 0 <= b < |batches| ==> turns[b] == batches[b].steps
  {
    seq(|batches|, b requires 0 <= b < |batches| => batches[b].steps)
  }

  function AfterAll(turns: seq<seq<nat>>, x: Execution): Execution {
    x.(turns := turns + x.turns)
  }

  lemma AfterTwice(batches: seq<Batch>, batch: Batch, x: Execution)
    ensures AfterAll(StepsOfRounds(batches), After(batch.steps, x)) == AfterAll(StepsOfRounds(batches + [batch]), x)
  {
    assert StepsOfRounds(batches + [batch]) == StepsOfRounds(batches) + [batch.steps];
  }

  lemma AfterNothing(x: Execution)
    ensures AfterAll(StepsOfRounds([]), x) == x
  {
    assert StepsOfRounds([]) + x.turns == x.turns;
  }

  lemma AfterBegun(batches: seq<Batch>, progress: Progress, cut: seq<nat>, end: System)
    ensures AfterAll(StepsOfRounds(batches), Execution(progress, [], true, cut, end))
      == Execution(progress, StepsOfRounds(batches), true, cut, end)
  {
  }

  lemma NothingLeft(batches: seq<Batch>, progress: Progress, end: System)
    ensures AfterAll(StepsOfRounds(batches), Execution(progress, [], false, [], end))
      == Execution(progress, StepsOfRounds(batches), false, [], end)
  {
  }

  lemma RoundBegun(calls: seq<Call>, batches: seq<Batch>, pending: set<nat>)
    requires WellFormed(calls, batches) && pending != {} && forall i :: i in pending ==> i < |calls|
    requires RoundsOf(batches) + Rounds(calls, pending) == Rounds(calls, Below(|calls|))
    ensures AllEvents(calls, batches, true) == EventsOf(calls, batches) + StartedEvents(Selection(calls, pending))
  {
    hide Selection;
    NextRound(calls, batches, pending);
    RoundsOfIndex(batches);
  }

  lemma {:induction false} RoundsOfIndex(batches: seq<Batch>)
    ensures |RoundsOf(batches)| == |batches|
    ensures forall b :: 0 <= b < |batches| ==> RoundsOf(batches)[b] == batches[b].round
  {
    if batches != [] {
      RoundsOfIndex(batches[..|batches| - 1]);
    }
  }

  lemma ExecuteUnfolds(
    calls: seq<Call>, programs: seq<Program>, script: seq<RoundScript>, turn: nat, pending: set<nat>, s: System)
    requires |programs| == |s.locals| && turn <= |script|
    ensures var x := Execute(calls, programs, script[turn..], pending, s);
      if pending == {} then x == Execution(Done, [], false, [], s)
      else if turn == |script| then x == Execution(Waiting, [], false, [], s)
      else if script[turn].cancelled then x == Execution(Stopped, [], false, [], s)
      else
        var round := Selection(calls, pending);
        var w := WaitFrom(programs, round, LiveOf(calls, round), script[turn].wakeups, s);
        x == if w.progress != Done then Execution(w.progress, [], true, w.steps, w.end)
             else After(w.steps, Execute(calls, programs, script[turn + 1..], pending - Elements(round), w.end))
  {
    if turn < |script| {
      assert script[turn..][1..] == script[turn + 1..];
    }
  }

  lemma NoRoundsLeft(calls: seq<Call>)
    ensures Rounds(calls, {}) == []
  {
  }

  /** The next round is finished. */
  lemma RoundCompletes(
    calls: seq<Call>, programs: seq<Program>, script: seq<RoundScript>, turn: nat, slots: Slots, remaining: Slots,
    batches: seq<Batch>, outputs: seq<Output>, events: seq<Event>, start: System, end: System, x: Execution,
    batch: Batch, after: System)
    requires Tracked(calls, programs, script, turn, slots, batches, outputs, events, start, end, x)
    requires PendingOf(slots) != {} && turn < |script| && !script[turn].cancelled
    requires batch.round == Selection(calls, PendingOf(slots))
    requires WaitEnd(Done, after, batch.steps)
      == WaitFrom(programs, batch.round, LiveOf(calls, batch.round), script[turn].wakeups, end)
    requires SlotsOf(remaining, calls) && PendingOf(remaining) == PendingOf(slots) - Elements(batch.round)
    requires forall y :: y in batch.steps ==> y in batch.round && y < |calls| && calls[y].Executed()
    requires forall i :: 0 <= i < |programs| && i !in batch.steps ==> after.locals[i] == end.locals[i]
    requires after == Run(StepsOf(programs), batch.steps, end)
    requires HoldResults(calls, programs, batch.round, batch.results, after)
    ensures Tracked(calls, programs, script, turn + 1, remaining, batches + [batch],
                    outputs + RoundOutputs(calls, batch.round, batch.results),
                    events + StartedEvents(batch.round) + CompletedEvents(batch.round, batch.results), start, after, x)
  {
    hide Execute;
    hide Rounds;
    hide Run;
    hide Selection;
    hide WaitFrom;
    hide HoldResults;
    hide EventsOf;
    hide OutputsOf;
    RoundIsPending(calls, PendingOf(slots), batch.round);
    RoundKeepsRunning(calls, programs, slots, remaining, batches, batch, start, end, after);
    AppendBatch(calls, batches, batch);
    ExecuteUnfolds(calls, programs, script, turn, PendingOf(slots), end);
    AfterTwice(batches, batch, Execute(calls, programs, script[turn + 1..], PendingOf(remaining), after));
  }

  lemma RoundKeepsRunning(
    calls: seq<Call>, programs: seq<Program>, slots: Slots, remaining: Slots, batches: seq<Batch>, batch: Batch,
    start: System, before: System, after: System)
    requires Running(calls, programs, slots, batches, start, before) && PendingOf(slots) != {}
    requires batch.round == Selection(calls, PendingOf(slots)) && InRange(batch.round, |calls|)
    requires SlotsOf(remaining, calls) && PendingOf(remaining) == PendingOf(slots) - Elements(batch.round)
    requires forall x :: x in batch.round ==> x in PendingOf(slots)
    requires forall x :: x in batch.steps ==> x in batch.round && x < |calls| && calls[x].Executed()
    requires HoldResults(calls, programs, batch.round, batch.results, after)
    requires forall i :: 0 <= i < |programs| && i !in batch.steps ==> after.locals[i] == before.locals[i]
    requires after == Run(StepsOf(programs), batch.steps, before)
    ensures Running(calls, programs, remaining, batches + [batch], start, after)
  {
    hide Selection;
    hide Rounds;
    hide Run;
    var longer := batches + [batch];
    KeepsEarlierResults(calls, programs, batches, batch.round, batch.steps, PendingOf(slots), before, after);
    RunConcat(StepsOf(programs), WordOf(batches), batch.steps, start);
    OneMoreBatch(batches, batch);
    NextRound(calls, batches, PendingOf(slots));
    forall b, x | 0 <= b < |longer| && x in longer[b].round ensures x !in PendingOf(remaining) {
      if b == |batches| {
        assert x in Elements(batch.round);
      }
    }
  }

  lemma OneMoreBatch(batches: seq<Batch>, batch: Batch)
    ensures RoundsOf(batches + [batch]) == RoundsOf(batches) + [batch.round]
    ensures WordOf(batches + [batch]) == WordOf(batches) + batch.steps
  {
    var longer := batches + [batch];
    assert longer[..|longer| - 1] == batches;
  }

  lemma AppendBatch(calls: seq<Call>, batches: seq<Batch>, batch: Batch)
    requires WellFormed(calls, batches) && WellFormed(calls, batches + [batch])
    requires |batch.round| == |batch.results| && InRange(batch.round, |calls|)
    ensures EventsOf(calls, batches + [batch])
      == EventsOf(calls, batches) + StartedEvents(batch.round) + CompletedEvents(batch.round, batch.results)
    ensures OutputsOf(calls, batches + [batch])
      == OutputsOf(calls, batches) + RoundOutputs(calls, batch.round, batch.results)
  {
    var longer := batches + [batch];
    assert longer[..|longer| - 1] == batches && longer[|longer| - 1] == batch;
  }

  lemma RoundIsPending(calls: seq<Call>, pending: set<nat>, round: seq<nat>)
    requires round == Selection(calls, pending)
    ensures InRange(round, |calls|) && Increasing(round) && |round| <= MAX_PARALLEL
    ensures forall x :: x in round ==> x in pending
  {
    SelectionMembers(calls, pending);
    forall k | 0 <= k < |round| ensures round[k] < |calls| {
      assert round[k] in round;
    }
  }

  method AnnounceRound(events: seq<Event>, round: seq<nat>) returns (after: seq<Event>)
    ensures after == events + StartedEvents(round)
  {
    after := events;
    for slot := 0 to |round|
      invariant after == events + StartedEvents(round[..slot])
    {
      after := after + [Started(round[slot])];
      assert round[..slot + 1][..slot] == round[..slot];
    }
    assert round[..|round|] == round;
  }

  method ReportRound(
    calls: seq<Call>, round: seq<nat>, results: seq<ToolResult>, events: seq<Event>, outputs: seq<Output>)
    returns (eventsAfter: seq<Event>, outputsAfter: seq<Output>)
    requires |round| == |results| && InRange(round, |calls|)
    ensures eventsAfter == events + CompletedEvents(round, results)
    ensures outputsAfter == outputs + RoundOutputs(calls, round, results)
  {
    eventsAfter, outputsAfter := events, outputs;
    for slot := 0 to |round|
      invariant eventsAfter == events + CompletedEvents(round[..slot], results[..slot])
      invariant outputsAfter == outputs + RoundOutputs(calls, round[..slot], results[..slot])
    {
      assert round[..slot + 1][..slot] == round[..slot] && results[..slot + 1][..slot] == results[..slot];
      eventsAfter := eventsAfter
        + [ToolOutput(round[slot], results[slot].code), Finished(round[slot], results[slot].ok)];
      outputsAfter := outputsAfter + [Output(round[slot], results[slot], calls[round[slot]].Executed())];
    }
    assert round[..|round|] == round && results[..|round|] == results;
  }

  lemma NextRound(calls: seq<Call>, batches: seq<Batch>, pending: set<nat>)
    requires forall i :: i in pending ==> i < |calls|
    requires pending != {}
    requires RoundsOf(batches) + Rounds(calls, pending) == Rounds(calls, Below(|calls|))
    ensures var rounds, n := Rounds(calls, Below(|calls|)), |RoundsOf(batches)|;
      && n < |rounds| && rounds[n] == Selection(calls, pending)
      && RoundsOf(batches) + [rounds[n]] + Rounds(calls, pending - Elements(rounds[n])) == rounds
  {
    hide RoundsOf;
    hide Elements;
    hide Selection;
    FirstRoundShrinks(calls, pending);
    var round := Selection(calls, pending);
    var rest := Rounds(calls, pending - Elements(round));
    assert Rounds(calls, pending) == [round] + rest;
    assert RoundsOf(batches) + ([round] + rest) == RoundsOf(batches) + [round] + rest;
  }

  lemma RoundSize(pending: set<nat>, round: seq<nat>)
    requires Increasing(round) && forall x :: x in round ==> x in pending
    ensures |pending - Elements(round)| + |round| == |pending|
  {
    IncreasingIsSet(round);
    assert |multiset(round)| == |round|;
    assert |Elements(round)| == |multiset(Elements(round))|;
    assert pending == (pending - Elements(round)) + Elements(round);
  }

  /** The steps of a later round leave the private states of finished calls alone. */
  lemma KeepsEarlierResults(
    calls: seq<Call>, programs: seq<Program>, batches: seq<Batch>, round: seq<nat>, steps: seq<nat>,
    pending: set<nat>, before: System, after: System)
    requires BatchesHoldResults(calls, programs, batches, before) && |after.locals| == |before.locals| == |programs|
    requires |calls| == |programs|
    requires forall b, x :: 0 <= b < |batches| && x in batches[b].round ==> x !in pending
    requires forall x :: x in round ==> x in pending
    requires forall x :: x in steps ==> x in round
    requires forall i :: 0 <= i < |programs| && i !in steps ==> after.locals[i] == before.locals[i]
    ensures BatchesHoldResults(calls, programs, batches, after)
  {
    forall b | 0 <= b < |batches|
      ensures HoldResults(calls, programs, batches[b].round, batches[b].results, after)
    {
      forall k | 0 <= k < |batches[b].round|
        ensures after.locals[batches[b].round[k]] == before.locals[batches[b].round[k]]
      {
        assert batches[b].round[k] in batches[b].round;
      }
    }
  }
}
