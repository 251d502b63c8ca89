/** All batches of tool calls of one turn. */
module TurnBatches {
  // The batches of a turn run one after another, with one broker and on one world, on which
  // others act in between.  What the batches guarantee one by one adds up to guarantees of the
  // turn.

  import opened Wrappers
  import opened Footprint
  import opened Serializability
  import opened Permission
  import opened Preparation
  import opened SchedulerRun
  import opened ToolBatch

  /** One batch of a turn, and what others do to broker and world before it. */
  datatype TurnStep = TurnStep(meanwhile: seq<Permission.Event>, edit: World -> World, input: BatchInput)

  predicate EnoughWaits(steps: seq<TurnStep>) {
    forall b :: 0 <= b < |steps| ==> |steps[b].input.waits| >= |steps[b].input.prepared|
  }

  function HistoryAfter(runs: seq<BatchRun>, h: seq<Permission.Event>): seq<Permission.Event> {
    if runs == [] then h else runs[|runs| - 1].after
  }

  function WorldAfter(runs: seq<BatchRun>, w: World): World {
    if runs == [] then w else runs[|runs| - 1].end.world
  }

  /** Each batch goes on from where the one before it ended, the first from h and w. */
  ghost predicate Chained(steps: seq<TurnStep>, runs: seq<BatchRun>, h: seq<Permission.Event>, w: World) {
    |runs| <= |steps| && (runs == [] || (
      var n := |runs| - 1;
      && runs[n].before == HistoryAfter(runs[..n], h) + steps[n].meanwhile
      && runs[n].world == steps[n].edit(WorldAfter(runs[..n], w))
      && Chained(steps, runs[..n], h, w)))
  }

  /** Every batch has the guarantees of a batch. */
  ghost predicate AllRight(launch: Action -> Program, idle: Local, steps: seq<TurnStep>, runs: seq<BatchRun>) {
    |runs| <= |steps| && forall b :: 0 <= b < |runs| ==> RunIsRight(launch, idle, steps[b].input, runs[b])
  }

  /** The turn went on until a batch failed, which is the last one that ran. */
  predicate EndsWhereItFails(steps: seq<TurnStep>, runs: seq<BatchRun>) {
    && (forall b :: 0 <= b < |runs| - 1 ==> runs[b].outcome.Success?)
    && |runs| <= |steps| && (|runs| < |steps| ==> runs != [] && runs[|runs| - 1].outcome.Failure?)
  }

  // ----- What the turn guarantees -----

  lemma RunGrows(launch: Action -> Program, idle: Local, input: BatchInput, run: BatchRun)
    requires RunIsRight(launch, idle, input, run)
    ensures run.before <= run.after
  {
    hide ExecutionIsRight;
    hide OutcomeIsRight;
    hide IsSerial;
    hide AllAuthorized;
    hide SomeInterrupted;
  }

  lemma {:induction false} RunIsInHistory(
    launch: Action -> Program, idle: Local, steps: seq<TurnStep>, runs: seq<BatchRun>, h: seq<Permission.Event>,
    w: World, b: nat)
    requires AllRight(launch, idle, steps, runs) && Chained(steps, runs, h, w) && b < |runs|
    ensures h <= runs[b].before <= runs[b].after <= HistoryAfter(runs, h)
  {
    hide RunIsRight;
    var n := |runs| - 1;
    RunGrows(launch, idle, steps[n].input, runs[n]);
    if b < n {
      RunIsInHistory(launch, idle, steps, runs[..n], h, w, b);
    } else if n > 0 {
      RunIsInHistory(launch, idle, steps, runs[..n], h, w, n - 1);
    }
  }

  lemma {:induction false} RunsAreInOrder(
    launch: Action -> Program, idle: Local, steps: seq<TurnStep>, runs: seq<BatchRun>, h: seq<Permission.Event>,
    w: World, b: nat, c: nat)
    requires AllRight(launch, idle, steps, runs) && Chained(steps, runs, h, w) && b < c < |runs|
    ensures runs[b].after <= runs[c].before
  {
    hide RunIsRight;
    var n := |runs| - 1;
    if c < n {
      RunsAreInOrder(launch, idle, steps, runs[..n], h, w, b, c);
    } else {
      RunIsInHistory(launch, idle, steps, runs[..n], h, w, b);
    }
  }

  lemma ExecutedIsAllowed(launch: Action -> Program, idle: Local, input: BatchInput, run: BatchRun, i: nat)
    requires RunIsRight(launch, idle, input, run) && i < |run.calls| && run.calls[i].Executed()
    ensures i < |input.prepared| && i < |run.begun|
    ensures var action := input.prepared[i];
      && run.calls[i].action == action
      && (action.request.Some? ==> Authorized(run.after, run.begun[i], action.request.value))
      && (input.gate.mode == ExternalResearch ==> action.tool in RESEARCH_TOOLS)
  {
    hide RanAs;
    hide OutcomeIsRight;
    hide IsSerial;
    hide SomeInterrupted;
    hide NoneCancelled;
    hide Authorized;
    hide PreparedFrom;
    hide BeganAt;
    hide BeginOf;
    hide InterruptedAt;
  }

  /** In the whole turn no call was executed whose action asked for permission, unless the user
      allowed it: in answer to the call's own question, or by a session grant given before it.  A
      research turn executed research tools alone. */
  lemma EveryExecutedCallWasAllowed(
    launch: Action -> Program, idle: Local, steps: seq<TurnStep>, runs: seq<BatchRun>, h: seq<Permission.Event>,
    w: World, b: nat, i: nat)
    requires AllRight(launch, idle, steps, runs) && Chained(steps, runs, h, w)
    requires b < |runs| && i < |runs[b].calls| && runs[b].calls[i].Executed()
    ensures i < |steps[b].input.prepared| && i < |runs[b].begun|
    ensures var action := steps[b].input.prepared[i];
      && runs[b].calls[i].action == action
      && (action.request.Some? ==> Authorized(HistoryAfter(runs, h), runs[b].begun[i], action.request.value))
      && (steps[b].input.gate.mode == ExternalResearch ==> action.tool in RESEARCH_TOOLS)
  {
    hide RunIsRight;
    hide Authorized;
    hide Chained;
    RunIsInHistory(launch, idle, steps, runs, h, w, b);
    var run, later := runs[b], HistoryAfter(runs, h);
    ExecutedIsAllowed(launch, idle, steps[b].input, run, i);
    var action := steps[b].input.prepared[i];
    if action.request.Some? {
      assert later == run.after + later[|run.after|..];
      AuthorizedExtends(run.after, later[|run.after|..], run.begun[i], action.request.value);
    }
  }

  /** And only such calls touch the world: every step of every batch is one of an executed call. */
  lemma OnlyAllowedCallsAct(
    launch: Action -> Program, idle: Local, steps: seq<TurnStep>, runs: seq<BatchRun>, h: seq<Permission.Event>,
    w: World, b: nat, x: nat)
    requires AllRight(launch, idle, steps, runs) && Chained(steps, runs, h, w)
    requires b < |runs| && x in WordOf(runs[b].batches) + runs[b].cut
    ensures x < |runs[b].calls| && runs[b].calls[x].Executed()
    ensures x < |steps[b].input.prepared| && x < |runs[b].begun|
    ensures var action := steps[b].input.prepared[x];
      && runs[b].calls[x].action == action
      && (action.request.Some? ==> Authorized(HistoryAfter(runs, h), runs[b].begun[x], action.request.value))
      && (steps[b].input.gate.mode == ExternalResearch ==> action.tool in RESEARCH_TOOLS)
  {
    hide RunIsRight;
    hide Authorized;
    hide Chained;
    StepsAreExecuted(launch, idle, steps[b].input, runs[b], x);
    EveryExecutedCallWasAllowed(launch, idle, steps, runs, h, w, b, x);
  }

  lemma QuestionIsInItsBatch(launch: Action -> Program, idle: Local, input: BatchInput, run: BatchRun, i: nat)
    requires RunIsRight(launch, idle, input, run) && i < |run.calls|
    ensures i < |run.begun| == |run.calls| && |run.before| <= run.begun[i]
    ensures run.calls[i].action.request.Some? ==> run.begun[i] < |run.after|
    ensures forall j :: i < j < |run.calls| && run.calls[i].action.request.Some? ==> run.begun[i] < run.begun[j]
  {
    hide OutcomeIsRight;
    hide IsSerial;
    hide RanAs;
    hide SomeInterrupted;
    hide NoneCancelled;
    hide Authorized;
    hide BeginOf;
    hide InterruptedAt;
    assert PreparedFrom(
      run.after, run.begun[i], input.gate, AllForMode(input.gate.mode, input.prepared)[i], run.calls[i]);
  }

  /** The question of a call is its own in the whole turn: two calls with questions, of one batch
      or of two, were asked at different times, so no answer serves both. */
  lemma QuestionsAreDistinct(
    launch: Action -> Program, idle: Local, steps: seq<TurnStep>, runs: seq<BatchRun>, h: seq<Permission.Event>,
    w: World, b: nat, i: nat, c: nat, j: nat)
    requires AllRight(launch, idle, steps, runs) && Chained(steps, runs, h, w)
    requires b < |runs| && i < |runs[b].calls| && c < |runs| && j < |runs[c].calls| && (b < c || (b == c && i < j))
    ensures i < |runs[b].begun| && j < |runs[c].begun|
    ensures runs[b].calls[i].action.request.Some? ==> runs[b].begun[i] < runs[c].begun[j]
  {
    hide RunIsRight;
    hide Chained;
    if b < c {
      RunsAreInOrder(launch, idle, steps, runs, h, w, b, c);
    }
    QuestionIsInItsBatch(launch, idle, steps[b].input, runs[b], i);
    QuestionIsInItsBatch(launch, idle, steps[c].input, runs[c], j);
  }

  /** Running all batches of a turn, each one's steps call by call, with what others do between. */
  function Serially(
    launch: Action -> Program, idle: Local, steps: seq<TurnStep>, runs: seq<BatchRun>, serials: seq<seq<nat>>, w: World)
    : World
    requires |serials| == |runs| <= |steps|
  {
    if runs == [] then w
    else
      var n := |runs| - 1;
      var before := Serially(launch, idle, steps, runs[..n], serials[..n], w);
      SerialEnd(launch, idle, runs[n].calls, serials[n], steps[n].edit(before)).world
  }

  /** The world after the turn is that of running its steps call by call, batch after batch and in
      model order, and every one of these calls was executed. */
  lemma {:induction false} TurnIsSerial(
    launch: Action -> Program, idle: Local, steps: seq<TurnStep>, runs: seq<BatchRun>, serials: seq<seq<nat>>,
    h: seq<Permission.Event>, w: World)
    requires AllRight(launch, idle, steps, runs) && Chained(steps, runs, h, w) && |serials| == |runs|
    requires forall b :: 0 <= b < |runs| ==> SerialOf(runs[b], serials[b])
    ensures WorldAfter(runs, w) == Serially(launch, idle, steps, runs, serials, w)
    ensures forall b, x :: 0 <= b < |runs| && x in serials[b] ==> x < |runs[b].calls| && runs[b].calls[x].Executed()
  {
    hide RunIsRight;
    hide SerialOf;
    hide SerialEnd;
    if runs != [] {
      var n := |runs| - 1;
      var front := runs[..n];
      forall b | 0 <= b < n ensures SerialOf(front[b], serials[..n][b]) {
        assert serials[..n][b] == serials[b];
      }
      TurnIsSerial(launch, idle, steps, front, serials[..n], h, w);
      BatchEndsSerially(launch, idle, steps[n].input, runs[n], serials[n]);
      forall b, x | 0 <= b < n && x in serials[b] ensures x < |runs[b].calls| && runs[b].calls[x].Executed() {
        assert serials[..n][b] == serials[b] && front[b] == runs[b];
      }
    }
  }

  lemma BatchEndsSerially(
    launch: Action -> Program, idle: Local, input: BatchInput, run: BatchRun, serial: seq<nat>)
    requires RunIsRight(launch, idle, input, run) && SerialOf(run, serial)
    ensures run.end == SerialEnd(launch, idle, run.calls, serial, run.world)
    ensures forall x :: x in serial ==> x < |run.calls| && run.calls[x].Executed()
  {
    hide PreparationIsRight;
    hide ExecutionIsRight;
    hide OutcomeIsRight;
    forall x | x in serial ensures x < |run.calls| && run.calls[x].Executed() {
      assert x in multiset(serial);
      assert x in WordOf(run.batches) + run.cut;
      StepsAreExecuted(launch, idle, input, run, x);
    }
  }

  // ----- The batches of a turn -----

  /** What the other users of the broker do between two batches. */
  method LetOthersAct(broker: SessionPermissionBroker, events: seq<Permission.Event>)
    requires broker.Valid()
    modifies broker
    ensures broker.Valid() && broker.history == old(broker.history) + events
  {
    for i := 0 to |events|
      invariant broker.Valid() && broker.history == old(broker.history) + events[..i]
    {
      assert events[..i + 1] == events[..i] + [events[i]];
      var _ := LetAct(broker, events[i], "");
    }
    assert events[..|events|] == events;
  }

  lemma OneMoreChained(steps: seq<TurnStep>, runs: seq<BatchRun>, run: BatchRun, h: seq<Permission.Event>, w: World)
    requires Chained(steps, runs, h, w) && |runs| < |steps|
    requires run.before == HistoryAfter(runs, h) + steps[|runs|].meanwhile
    requires run.world == steps[|runs|].edit(WorldAfter(runs, w))
    ensures Chained(steps, runs + [run], h, w)
    ensures HistoryAfter(runs + [run], h) == run.after && WorldAfter(runs + [run], w) == run.end.world
  {
    assert (runs + [run])[..|runs|] == runs;
  }

  /** Runs the batches of a turn until one fails, which ends the turn. */
  method ExecuteTurnBatches(
    steps: seq<TurnStep>, broker: SessionPermissionBroker, launch: Action -> Program, world: World, idle: Local)
    returns (outputs: seq<seq<Output>>, events: seq<seq<SchedulerRun.Event>>, failure: Option<BatchError>, end: World,
             ghost runs: seq<BatchRun>)
    requires broker.Valid() && HonestTools(launch) && EnoughWaits(steps)
    modifies broker
    ensures broker.Valid()
    ensures AllRight(launch, idle, steps, runs) && Chained(steps, runs, old(broker.history), world)
    ensures broker.history == HistoryAfter(runs, old(broker.history)) && end == WorldAfter(runs, world)
    ensures EndsWhereItFails(steps, runs)
    ensures failure == (if runs != [] && runs[|runs| - 1].outcome.Failure?
                        then Some(runs[|runs| - 1].outcome.error) else None)
    ensures |outputs| == |runs| - (if failure.Some? then 1 else 0)
    ensures forall b :: 0 <= b < |outputs| ==> runs[b].outcome == Success(outputs[b])
    ensures |events| == |runs| && forall b :: 0 <= b < |runs| ==> runs[b].events == events[b]
  {
    hide RunIsRight;
    hide Chained;
    hide HistoryAfter;
    hide WorldAfter;
    outputs, events, failure, end, runs := [], [], None, world, [];
    NoneChained(steps, broker.history, world);
    for b := 0 to |steps|
      invariant broker.Valid() && |outputs| == |events| == |runs| == b && AllRight(launch, idle, steps, runs)
      invariant Chained(steps, runs, old(broker.history), world)
      invariant broker.history == HistoryAfter(runs, old(broker.history)) && end == WorldAfter(runs, world)
      invariant forall c :: 0 <= c < b ==> runs[c].outcome == Success(outputs[c]) && runs[c].events == events[c]
    {
      LetOthersAct(broker, steps[b].meanwhile);
      var outcome, shown, state, run := ExecutePreparedToolCalls(
        steps[b].input, broker, launch, steps[b].edit(end), idle);
      OneMoreChained(steps, runs, run, old(broker.history), world);
      end, events, runs := state.world, events + [shown], runs + [run];
      if outcome.Failure? {
        failure := Some(outcome.error);
        return;
      }
      outputs := outputs + [outcome.value];
    }
  }

  lemma NoneChained(steps: seq<TurnStep>, h: seq<Permission.Event>, w: World)
    ensures Chained(steps, [], h, w) && HistoryAfter([], h) == h && WorldAfter([], w) == w
  {
  }
}
