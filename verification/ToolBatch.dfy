/** One whole batch of tool calls. */
module ToolBatch {
  // From the model's request to the results: permission, gate, rounds.  This is where the pieces
  // meet.

  import opened Wrappers
  import opened Footprint
  import opened Serializability
  import opened Permission
  import opened Preparation
  import opened Scheduler
  import opened SchedulerProgress
  import opened SchedulerRun
  import opened SchedulerTheorems

  datatype BatchError = NotPrepared(prepareError: PrepareError) | NotScheduled(scheduleError: ScheduleError)

  function Programs(launch: Action -> Program, calls: seq<Call>): seq<Program> {
    seq(|calls|, i requires 0 <= i < |calls| => launch(calls[i].action))
  }

  /** A tool touches only what the footprint of its action declares. */
  ghost predicate HonestTools(launch: Action -> Program) {
    forall a :: Respects(launch(a).step, a.effects)
  }

  predicate Fails(outcome: Result<seq<Output>, BatchError>, e: BatchError) {
    outcome == Failure(e)
  }

  predicate StoppedInPreparation(outcome: Result<seq<Output>, BatchError>) {
    outcome.Failure? && outcome.error.NotPrepared?
  }

  /** Every call is prepared from its own question, and is executed exactly when its action may
      run; h0 is the broker's history when the batch began, h the history now. */
  ghost predicate AllAuthorized(
    h0: seq<Permission.Event>, h: seq<Permission.Event>, begun: seq<nat>, gate: Gate, prepared: seq<Action>,
    waits: seq<Wait>, calls: seq<Call>)
  {
    && |calls| == |prepared| && AllPrepared(h0, h, AllForMode(gate.mode, prepared), waits, gate, calls, begun)
    && forall i :: 0 <= i < |calls| ==>
        && (calls[i].Executed() <==> MayRun(h, begun[i], gate, prepared[i]))
        && (calls[i].Executed() ==> calls[i].action == prepared[i])
  }

  function Start(world: World, idle: Local, n: nat): System {
    System(world, seq(n, i => idle))
  }

  /** The batch ran as its calls and surroundings determine, and everything it reported is so. */
  ghost predicate RanAs(
    calls: seq<Call>, programs: seq<Program>, script: seq<RoundScript>, start: System, batches: seq<Batch>,
    cut: seq<nat>, events: seq<SchedulerRun.Event>, end: System, completed: bool)
  {
    && |programs| == |calls| == |start.locals|
    && var x := Execute(calls, programs, script, Below(|calls|), start);
       Accounts(calls, programs, batches, cut, events, start, x) && end == x.end && (completed <==> x.progress == Done)
  }

  /** The current round was cancelled, or the script ends before it, or it is unsettled. */
  predicate CancelledNow(script: seq<RoundScript>, batches: seq<Batch>) {
    |batches| < |script| && CancelledIn(script[|batches|])
  }

  predicate UnsettledNow(
    calls: seq<Call>, programs: seq<Program>, script: seq<RoundScript>, batches: seq<Batch>, end: System)
    requires |programs| == |end.locals|
  {
    |batches| < |script| ==> Unsettled(calls, programs, BegunRound(calls, batches, true), script[|batches|], end)
  }

  lemma RunIsAccounted(
    calls: seq<Call>, programs: seq<Program>, script: seq<RoundScript>, start: System, batches: seq<Batch>,
    cut: seq<nat>, events: seq<SchedulerRun.Event>, x: Execution)
    requires |programs| == |calls| == |start.locals| && x == Execute(calls, programs, script, Below(|calls|), start)
    requires Accounts(calls, programs, batches, cut, events, start, x)
    ensures RanAs(calls, programs, script, start, batches, cut, events, x.end, x.progress == Done)
    ensures |x.end.locals| == |calls| && WellFormed(calls, batches)
    ensures BatchesHoldResults(calls, programs, batches, x.end)
    ensures x.end == Run(StepsOf(programs), WordOf(batches) + cut, start)
    ensures RoundsOf(batches) <= Rounds(calls, Below(|calls|)) && CutFollows(calls, batches, cut)
    ensures x.progress == Done ==> RoundsOf(batches) == Rounds(calls, Below(|calls|))
    ensures x.progress == Stopped ==> CancelledNow(script, batches)
    ensures x.progress == Waiting ==> UnsettledNow(calls, programs, script, batches, x.end)
  {
    hide Execute;
    hide Run;
    hide HoldResults;
    hide Rounds;
    hide Unsettled;
    RunIsExplained(calls, programs, script, Below(|calls|), start);
  }

  // ----- What a batch guarantees -----

  /** What the model asks for in one pass, and what everybody else does meanwhile. */
  datatype BatchInput = BatchInput(prepared: seq<Action>, waits: seq<Wait>, gate: Gate, script: seq<RoundScript>)

  /** One batch as it ran: from which history and world, with which calls, rounds and events, to
      which outcome, history and state.  `cut` holds the steps of an interrupted round. */
  datatype BatchRun = BatchRun(
    before: seq<Permission.Event>, world: World, calls: seq<Call>, begun: seq<nat>, batches: seq<Batch>,
    cut: seq<nat>, events: seq<SchedulerRun.Event>, outcome: Result<seq<Output>, BatchError>,
    after: seq<Permission.Event>, end: System)

  /** The batch is refused exactly when it is too long, and cancelled before it runs exactly when
      one of its preparations is; otherwise no call runs whose request the user had not allowed. */
  ghost predicate PreparationIsRight(input: BatchInput, run: BatchRun) {
    var actions := AllForMode(input.gate.mode, input.prepared);
    && run.before <= run.after
    && (Fails(run.outcome, NotPrepared(TooManyCalls)) <==> |input.prepared| > MAX_TOOL_CALLS_PER_STEP)
    && (Fails(run.outcome, NotPrepared(PrepareError.Cancelled)) <==>
          |input.prepared| <= MAX_TOOL_CALLS_PER_STEP && SomeInterrupted(run.before, actions, input.waits))
    && (!StoppedInPreparation(run.outcome) ==>
          && NoneCancelled(actions, input.waits)
          && AllAuthorized(run.before, run.after, run.begun, input.gate, input.prepared, input.waits, run.calls))
  }

  /** The calls ran as they and their surroundings determine, and all events are those of the
      run; nothing ran if the batch was stopped while it was prepared. */
  ghost predicate ExecutionIsRight(launch: Action -> Program, idle: Local, input: BatchInput, run: BatchRun) {
    if StoppedInPreparation(run.outcome)
    then
      && run.calls == [] && run.batches == [] && run.cut == [] && run.events == []
      && run.end == Start(run.world, idle, 0)
    else RanAs(
      run.calls, Programs(launch, run.calls), input.script, Start(run.world, idle, |run.calls|), run.batches, run.cut,
      run.events, run.end, run.outcome.Success?)
  }

  /** The result of an action that may run is the outcome of its tool in its final private state,
      that of any other action its refusal. */
  ghost predicate AnswerHolds(launch: Action -> Program, input: BatchInput, run: BatchRun, o: Output) {
    o.call < |input.prepared| && o.call < |run.begun| && o.call < |run.end.locals| &&
    var action, k := input.prepared[o.call], run.begun[o.call];
    if MayRun(run.after, k, input.gate, action)
    then o.executed && Some(o.result) == launch(action).outcome(run.end.locals[o.call])
    else !o.executed && o.result == RefusalOf(run.after, k, input.gate, action)
  }

  /** A batch that ran has one result for each call, the right one, unless it was cancelled, or some
      call of its current round has no outcome yet. */
  ghost predicate OutcomeIsRight(launch: Action -> Program, input: BatchInput, run: BatchRun) {
    var programs := Programs(launch, run.calls);
    && (Fails(run.outcome, NotScheduled(ScheduleError.Cancelled)) ==> CancelledNow(input.script, run.batches))
    && (Fails(run.outcome, NotScheduled(StillRunning)) ==>
          && |run.end.locals| == |run.calls|
          && UnsettledNow(run.calls, programs, input.script, run.batches, run.end))
    && !Fails(run.outcome, NotScheduled(NoProgress))
    && (run.outcome.Success? ==>
          && WellFormed(run.calls, run.batches) && run.outcome.value == OutputsOf(run.calls, run.batches)
          && (forall o :: o in run.outcome.value ==> AnswerHolds(launch, input, run, o))
          && multiset(CallsOf(run.outcome.value)) == multiset(Below(|input.prepared|)))
  }

  /** The steps of the batch, sorted by call. */
  ghost predicate SerialOf(run: BatchRun, serial: seq<nat>) {
    Sorted(serial) && multiset(serial) == multiset(WordOf(run.batches) + run.cut)
  }

  function SerialEnd(launch: Action -> Program, idle: Local, calls: seq<Call>, serial: seq<nat>, world: World): System {
    Run(StepsOf(Programs(launch, calls)), serial, Start(world, idle, |calls|))
  }

  /** The batch ends in the state of running its executed calls one after another in model order. */
  ghost predicate IsSerial(launch: Action -> Program, idle: Local, run: BatchRun) {
    forall serial: seq<nat> :: SerialOf(run, serial) ==>
      run.end == SerialEnd(launch, idle, run.calls, serial, run.world)
  }

  ghost predicate RunIsRight(launch: Action -> Program, idle: Local, input: BatchInput, run: BatchRun) {
    && PreparationIsRight(input, run) && ExecutionIsRight(launch, idle, input, run)
    && OutcomeIsRight(launch, input, run) && IsSerial(launch, idle, run)
  }

  /** Every step of a batch is one of a call that was to be executed. */
  lemma StepsAreExecuted(launch: Action -> Program, idle: Local, input: BatchInput, run: BatchRun, x: nat)
    requires RunIsRight(launch, idle, input, run) && x in WordOf(run.batches) + run.cut
    ensures x < |run.calls| && run.calls[x].Executed() && !StoppedInPreparation(run.outcome)
  {
    hide PreparationIsRight;
    hide OutcomeIsRight;
    hide IsSerial;
    hide Execute;
    hide Rounds;
    hide Run;
    if x in WordOf(run.batches) {
      WordIsExecuted(run.calls, run.batches, x);
    }
  }

  lemma {:induction false} WordIsExecuted(calls: seq<Call>, batches: seq<Batch>, x: nat)
    requires WellFormed(calls, batches) && x in WordOf(batches)
    ensures x < |calls| && calls[x].Executed()
  {
    var n := |batches| - 1;
    if x !in batches[n].steps {
      WordIsExecuted(calls, batches[..n], x);
    }
  }

  lemma StoppedIsSerial(launch: Action -> Program, idle: Local, run: BatchRun)
    requires run.calls == [] && run.batches == [] && run.cut == [] && run.end == Start(run.world, idle, 0)
    ensures IsSerial(launch, idle, run)
  {
    forall serial: seq<nat> | SerialOf(run, serial)
      ensures run.end == SerialEnd(launch, idle, run.calls, serial, run.world) {
      assert WordOf(run.batches) + run.cut == [];
      assert |multiset(serial)| == 0;
    }
  }

  // ----- The batch -----

  lemma StoppedIsRight(launch: Action -> Program, idle: Local, input: BatchInput, run: BatchRun, e: PrepareError)
    requires run.before <= run.after && run.outcome == Failure(NotPrepared(e))
    requires run.calls == [] && run.batches == [] && run.cut == [] && run.events == []
    requires run.end == Start(run.world, idle, 0)
    requires e == TooManyCalls <==> |input.prepared| > MAX_TOOL_CALLS_PER_STEP
    requires e == PrepareError.Cancelled <==>
      && |input.prepared| <= MAX_TOOL_CALLS_PER_STEP
      && SomeInterrupted(run.before, AllForMode(input.gate.mode, input.prepared), input.waits)
    ensures RunIsRight(launch, idle, input, run)
  {
    hide SomeInterrupted;
    hide IsSerial;
    StoppedIsSerial(launch, idle, run);
  }

  lemma PreparedIsRight(input: BatchInput, run: BatchRun)
    requires run.before <= run.after && !StoppedInPreparation(run.outcome)
    requires |run.calls| == |input.prepared| <= MAX_TOOL_CALLS_PER_STEP
    requires var actions := AllForMode(input.gate.mode, input.prepared);
      && !SomeInterrupted(run.before, actions, input.waits) && NoneCancelled(actions, input.waits)
      && AllPrepared(run.before, run.after, actions, input.waits, input.gate, run.calls, run.begun)
    ensures PreparationIsRight(input, run)
    ensures |run.begun| == |run.calls| && forall i :: 0 <= i < |run.calls| ==> ExecutedAsAllowed(input, run, i)
  {
    hide SomeInterrupted;
    hide NoneCancelled;
    hide ExecutedAsAllowed;
    hide AllAuthorized;
    hide AllPrepared;
    CallsAreAllowed(input, run);
  }

  lemma CallsAreAllowed(input: BatchInput, run: BatchRun)
    requires |run.calls| == |input.prepared|
    requires AllPrepared(
      run.before, run.after, AllForMode(input.gate.mode, input.prepared), input.waits, input.gate, run.calls, run.begun)
    ensures AllAuthorized(run.before, run.after, run.begun, input.gate, input.prepared, input.waits, run.calls)
    ensures |run.begun| == |run.calls| && forall i :: 0 <= i < |run.calls| ==> ExecutedAsAllowed(input, run, i)
  {
    hide ExecutedAsAllowed;
    hide BeginOf;
    hide InterruptedAt;
    hide PreparedFrom;
    hide MayRun;
    forall i | 0 <= i < |run.calls| ensures ExecutedAsAllowed(input, run, i)
      ensures run.calls[i].Executed() <==> MayRun(run.after, run.begun[i], input.gate, input.prepared[i])
      ensures run.calls[i].Executed() ==> run.calls[i].action == input.prepared[i]
    {
      assert PreparedFrom(
        run.after, run.begun[i], input.gate, ForMode(input.gate.mode, input.prepared[i]), run.calls[i]);
      CallIsAllowed(input, run, i);
    }
  }

  /** Call i is executed exactly when its action may run, and otherwise carries its refusal. */
  ghost predicate ExecutedAsAllowed(input: BatchInput, run: BatchRun, i: nat)
    requires i < |run.calls| == |input.prepared| && i < |run.begun|
  {
    var c, k, a := run.calls[i], run.begun[i], input.prepared[i];
    && (c.Executed() <==> MayRun(run.after, k, input.gate, a))
    && (if c.Executed() then c.action == a
        else if c.permit.None? then Denied(c) == RefusalOf(run.after, k, input.gate, a)
        else c.preflight == Some(RefusalOf(run.after, k, input.gate, a)))
    && (c.permit.None? ==> c.preflight.None?)
  }

  lemma CallIsAllowed(input: BatchInput, run: BatchRun, i: nat)
    requires i < |run.calls| == |input.prepared| && i < |run.begun|
    requires PreparedFrom(
      run.after, run.begun[i], input.gate, ForMode(input.gate.mode, input.prepared[i]), run.calls[i])
    ensures ExecutedAsAllowed(input, run, i)
    ensures run.calls[i].Executed() <==> MayRun(run.after, run.begun[i], input.gate, input.prepared[i])
    ensures run.calls[i].Executed() ==> run.calls[i].action == input.prepared[i]
  {
    hide Authorized;
    hide Refused;
    ExecutedIff(run.after, run.begun[i], input.gate, input.prepared[i], run.calls[i]);
  }

  lemma AnswersHold(launch: Action -> Program, input: BatchInput, run: BatchRun, outputs: seq<Output>)
    requires |run.begun| == |run.calls| == |input.prepared|
    requires forall i :: 0 <= i < |run.calls| ==> ExecutedAsAllowed(input, run, i)
    requires OutputsHold(run.calls, Programs(launch, run.calls), outputs, run.end)
    ensures forall o :: o in outputs ==> AnswerHolds(launch, input, run, o)
  {
    hide MayRun;
    hide RefusalOf;
    forall o | o in outputs ensures AnswerHolds(launch, input, run, o) {
      assert OutputHolds(run.calls, Programs(launch, run.calls), o, run.end);
      assert ExecutedAsAllowed(input, run, o.call);
    }
  }

  /** The outcome of a batch whose run has made this progress. */
  function OutcomeOf(progress: Progress, outputs: seq<Output>): Result<seq<Output>, BatchError> {
    var result := Outcome(progress, outputs);
    if result.Failure? then Failure(NotScheduled(result.error)) else Success(result.value)
  }

  lemma RanIsRight(launch: Action -> Program, idle: Local, input: BatchInput, run: BatchRun, x: Execution)
    requires HonestTools(launch) && KeepsEffects(run.calls) && PreparationIsRight(input, run)
    requires |run.begun| == |run.calls| == |input.prepared|
    requires forall i :: 0 <= i < |run.calls| ==> ExecutedAsAllowed(input, run, i)
    requires var programs, start := Programs(launch, run.calls), Start(run.world, idle, |run.calls|);
      && x == Execute(run.calls, programs, input.script, Below(|run.calls|), start)
      && Accounts(run.calls, programs, run.batches, run.cut, run.events, start, x)
      && run.outcome == OutcomeOf(x.progress, OutputsOf(run.calls, run.batches)) && run.end == x.end
    ensures RunIsRight(launch, idle, input, run)
  {
    hide PreparationIsRight;
    hide Execute;
    hide Run;
    hide Rounds;
    hide RanAs;
    hide UnsettledNow;
    hide CancelledNow;
    hide Accounts;
    hide BatchesHoldResults;
    hide OutputsHold;
    hide AnswerHolds;
    hide ExecutedAsAllowed;
    hide IsSerial;
    var programs, start := Programs(launch, run.calls), Start(run.world, idle, |run.calls|);
    RunIsAccounted(run.calls, programs, input.script, start, run.batches, run.cut, run.events, x);
    RunIsSerial(launch, idle, run);
    if x.progress == Done {
      OneOutputPerCall(run.calls, run.batches);
      OutputsAreResults(run.calls, programs, run.batches, run.end);
      AnswersHold(launch, input, run, OutputsOf(run.calls, run.batches));
    }
  }

  /** Prepares and runs a batch of tools that keep to their declared footprints. */
  method ExecutePreparedToolCalls(
    input: BatchInput, broker: SessionPermissionBroker, launch: Action -> Program, world: World, idle: Local)
    returns (outcome: Result<seq<Output>, BatchError>, events: seq<SchedulerRun.Event>, end: System,
             ghost run: BatchRun)
    requires broker.Valid() && |input.waits| >= |input.prepared| && HonestTools(launch)
    modifies broker
    ensures broker.Valid()
    ensures run.before == old(broker.history) && run.after == broker.history && run.world == world
    ensures run.outcome == outcome && run.events == events && run.end == end
    ensures RunIsRight(launch, idle, input, run)
  {
    hide Authorized;
    hide AllPrepared;
    hide SomeInterrupted;
    hide NoneCancelled;
    hide Execute;
    hide Accounts;
    hide PreparationIsRight;
    hide RunIsRight;
    var step;
    ghost var begun;
    step, begun := PrepareTurnCalls(input.prepared, input.waits, broker, input.gate);
    if step.Failure? {
      outcome, events, end := Failure(NotPrepared(step.error)), [], Start(world, idle, 0);
      run := BatchRun(old(broker.history), world, [], [], [], [], [], outcome, broker.history, end);
      StoppedIsRight(launch, idle, input, run, step.error);
      return;
    }
    var programs, start := Programs(launch, step.value), Start(world, idle, |step.value|);
    var result;
    ghost var batches, cut;
    result, events, end, batches, cut := ExecuteCalls(step.value, programs, input.script, start);
    outcome := if result.Failure? then Failure(NotScheduled(result.error)) else Success(result.value);
    run := BatchRun(old(broker.history), world, step.value, begun, batches, cut, events, outcome, broker.history, end);
    PreparedIsRight(input, run);
    RanIsRight(launch, idle, input, run, Execute(step.value, programs, input.script, Below(|step.value|), start));
  }

  lemma RunIsSerial(launch: Action -> Program, idle: Local, run: BatchRun)
    requires HonestTools(launch) && KeepsEffects(run.calls) && WellFormed(run.calls, run.batches)
    requires RoundsOf(run.batches) <= Rounds(run.calls, Below(|run.calls|))
    requires CutFollows(run.calls, run.batches, run.cut)
    requires run.end == SerialEnd(launch, idle, run.calls, WordOf(run.batches) + run.cut, run.world)
    ensures IsSerial(launch, idle, run)
  {
    var programs := Programs(launch, run.calls);
    forall serial: seq<nat> | SerialOf(run, serial)
      ensures run.end == SerialEnd(launch, idle, run.calls, serial, run.world) {
      BatchRunIsSerializable(
        run.calls, programs, run.batches, run.cut, serial, Start(run.world, idle, |run.calls|));
    }
  }
}
