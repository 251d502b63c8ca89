/** The guarantees of a batch run. */
module SchedulerTheorems {
  // For every batch, every environment script and every point at which the run may be
  // cancelled.

  import opened Wrappers
  import opened Footprint
  import opened Serializability
  import opened Preparation
  import opened Scheduler
  import opened SchedulerRun

  // ----- Which round a step belongs to -----

  /** The batch that holds letter p of the word; the batch count for letters after them. */
  function BatchOfStep(batches: seq<Batch>, p: nat): nat {
    var n := |batches|;
    if n == 0 || p >= |WordOf(batches)| then n
    else if p >= |WordOf(batches[..n - 1])| then n - 1
    else BatchOfStep(batches[..n - 1], p)
  }

  lemma {:induction false} StepIsInItsBatch(batches: seq<Batch>, p: nat)
    ensures p < |WordOf(batches)| ==>
      BatchOfStep(batches, p) < |batches| && WordOf(batches)[p] in batches[BatchOfStep(batches, p)].steps
    ensures p >= |WordOf(batches)| ==> BatchOfStep(batches, p) == |batches|
  {
    var n := |batches|;
    if n > 0 && p < |WordOf(batches)| {
      var front, steps := batches[..n - 1], batches[n - 1].steps;
      StepIsInItsBatch(front, p);
      if p >= |WordOf(front)| {
        assert WordOf(batches)[p] == steps[p - |WordOf(front)|];
      }
    }
  }

  lemma {:induction false} BatchOfStepIsMonotone(batches: seq<Batch>, p: nat, q: nat)
    requires p <= q
    ensures BatchOfStep(batches, p) <= BatchOfStep(batches, q) <= |batches|
  {
    var n := |batches|;
    if n > 0 {
      BatchOfStepIsMonotone(batches[..n - 1], p, q);
    }
  }

  // ----- Conflict serializability -----

  function Footprints(calls: seq<Call>): seq<Footprint> {
    seq(|calls|, i requires 0 <= i < |calls| => calls[i].action.effects)
  }

  lemma StepBelongsToRound(calls: seq<Call>, batches: seq<Batch>, cut: seq<nat>, p: nat)
    requires WellFormed(calls, batches)
    requires RoundsOf(batches) <= Rounds(calls, Below(|calls|)) && CutFollows(calls, batches, cut)
    requires p < |WordOf(batches) + cut|
    ensures var x, b := (WordOf(batches) + cut)[p], BatchOfStep(batches, p);
      && b < |Rounds(calls, Below(|calls|))| && x in Rounds(calls, Below(|calls|))[b]
      && x < |calls| && calls[x].Executed()
  {
    hide Rounds;
    hide Below;
    hide RoundsOf;
    hide WordOf;
    RoundsOfIndex(batches);
    StepIsInItsBatch(batches, p);
    if p >= |WordOf(batches)| {
      assert (WordOf(batches) + cut)[p] == cut[p - |WordOf(batches)|];
    }
  }

  /** No step of a later call precedes a step of an earlier call it conflicts with. */
  lemma BatchWordIsConflictOrdered(calls: seq<Call>, batches: seq<Batch>, cut: seq<nat>)
    requires KeepsEffects(calls) && WellFormed(calls, batches)
    requires RoundsOf(batches) <= Rounds(calls, Below(|calls|)) && CutFollows(calls, batches, cut)
    ensures ConflictOrdered(WordOf(batches) + cut, Footprints(calls))
  {
    var word := WordOf(batches) + cut;
    forall p, q | 0 <= p < q < |word| && word[q] < word[p] < |calls|
      ensures !Conflicts(calls[word[p]].action.effects, calls[word[q]].action.effects)
    {
      StepBelongsToRound(calls, batches, cut, p);
      StepBelongsToRound(calls, batches, cut, q);
      BatchOfStepIsMonotone(batches, p, q);
      RoundsRespectConflicts(
        calls, Below(|calls|), BatchOfStep(batches, p), BatchOfStep(batches, q), word[q], word[p]);
    }
  }

  /** Conflict serializability of the scheduler.  Whatever the calls are, however their steps
      interleave and wherever the run stops, the world and every call's result are those of
      running the same steps one call after the other in model order. */
  lemma BatchRunIsSerializable(
    calls: seq<Call>, programs: seq<Program>, batches: seq<Batch>, cut: seq<nat>, serial: seq<nat>, start: System)
    requires |programs| == |calls| && ToolsRespect(StepsOf(programs), Footprints(calls))
    requires KeepsEffects(calls) && WellFormed(calls, batches)
    requires RoundsOf(batches) <= Rounds(calls, Below(|calls|)) && CutFollows(calls, batches, cut)
    requires Sorted(serial) && multiset(serial) == multiset(WordOf(batches) + cut)
    ensures Run(StepsOf(programs), WordOf(batches) + cut, start) == Run(StepsOf(programs), serial, start)
  {
    BatchWordIsConflictOrdered(calls, batches, cut);
    ConflictSerializable(StepsOf(programs), Footprints(calls), WordOf(batches) + cut, serial, start);
  }

  // ----- Exactly one result for every call -----

  function CallsOf(outputs: seq<Output>): seq<nat> {
    seq(|outputs|, k requires 0 <= k < |outputs| => outputs[k].call)
  }

  lemma {:induction false} FlattenSnoc(words: seq<seq<nat>>, w: seq<nat>)
    ensures Flatten(words + [w]) == Flatten(words) + w
  {
    if words == [] {
      assert Flatten([w]) == w + Flatten([]);
    } else {
      FlattenSnoc(words[1..], w);
      assert (words + [w])[1..] == words[1..] + [w];
    }
  }

  lemma {:induction false} OutputsFollowRounds(calls: seq<Call>, batches: seq<Batch>)
    requires WellFormed(calls, batches)
    ensures CallsOf(OutputsOf(calls, batches)) == Flatten(RoundsOf(batches))
  {
    if batches != [] {
      var front, last := batches[..|batches| - 1], batches[|batches| - 1];
      OutputsFollowRounds(calls, front);
      FlattenSnoc(RoundsOf(front), last.round);
      assert CallsOf(RoundOutputs(calls, last.round, last.results)) == last.round;
      assert CallsOf(OutputsOf(calls, batches)) == CallsOf(OutputsOf(calls, front)) + last.round;
    }
  }

  /** A finished batch has exactly one output per call. */
  lemma OneOutputPerCall(calls: seq<Call>, batches: seq<Batch>)
    requires WellFormed(calls, batches) && RoundsOf(batches) == Rounds(calls, Below(|calls|))
    ensures multiset(CallsOf(OutputsOf(calls, batches))) == multiset(Below(|calls|))
  {
    OutputsFollowRounds(calls, batches);
    RoundsPartition(calls, Below(|calls|));
  }

  /** Each output is the result that its call's final private state gives. */
  ghost predicate OutputsHold(calls: seq<Call>, programs: seq<Program>, outputs: seq<Output>, end: System) {
    |programs| == |calls| == |end.locals| && forall o :: o in outputs ==> OutputHolds(calls, programs, o, end)
  }

  predicate OutputHolds(calls: seq<Call>, programs: seq<Program>, o: Output, end: System)
    requires |programs| == |calls| == |end.locals|
  {
    && o.call < |calls|
    && Some(o.result) == ResultOf(calls[o.call], programs[o.call], end.locals[o.call])
    && (o.executed <==> calls[o.call].Executed())
  }

  lemma {:induction false} OutputsAreResults(
    calls: seq<Call>, programs: seq<Program>, batches: seq<Batch>, end: System)
    requires |programs| == |calls| == |end.locals|
    requires WellFormed(calls, batches) && BatchesHoldResults(calls, programs, batches, end)
    ensures OutputsHold(calls, programs, OutputsOf(calls, batches), end)
  {
    if batches != [] {
      var front, last := batches[..|batches| - 1], batches[|batches| - 1];
      OutputsAreResults(calls, programs, front, end);
      assert HoldResults(calls, programs, last.round, last.results, end);
      forall o | o in RoundOutputs(calls, last.round, last.results) ensures OutputHolds(calls, programs, o, end) {
        var k :| 0 <= k < |last.round| && RoundOutputs(calls, last.round, last.results)[k] == o;
        assert last.round[k] < |calls|;
      }
    }
  }

  // ----- The order of events -----

  function BatchOfEvent(calls: seq<Call>, batches: seq<Batch>, p: nat): nat
    requires WellFormed(calls, batches)
  {
    var n := |batches|;
    if n == 0 then 0
    else if p >= |EventsOf(calls, batches[..n - 1])| then n - 1
    else BatchOfEvent(calls, batches[..n - 1], p)
  }

  lemma {:induction false} StartedEventsList(round: seq<nat>)
    ensures |StartedEvents(round)| == |round|
    ensures forall k :: 0 <= k < |round| ==> StartedEvents(round)[k] == Started(round[k])
  {
    if round != [] {
      StartedEventsList(round[..|round| - 1]);
    }
  }

  lemma {:induction false} CompletedEventsList(round: seq<nat>, results: seq<ToolResult>)
    requires |round| == |results|
    ensures |CompletedEvents(round, results)| == 2 * |round|
    ensures forall k :: 0 <= k < |round| ==>
      && CompletedEvents(round, results)[2 * k] == ToolOutput(round[k], results[k].code)
      && CompletedEvents(round, results)[2 * k + 1] == Finished(round[k], results[k].ok)
  {
    if round != [] {
      var n := |round| - 1;
      CompletedEventsList(round[..n], results[..n]);
    }
  }

  /** Event p is about a call of its batch; within a batch all starts come first. */
  lemma {:induction false} EventIsInItsBatch(calls: seq<Call>, batches: seq<Batch>, p: nat)
    requires WellFormed(calls, batches) && p < |EventsOf(calls, batches)|
    ensures BatchOfEvent(calls, batches, p) < |batches|
    ensures EventsOf(calls, batches)[p].call in batches[BatchOfEvent(calls, batches, p)].round
  {
    var n := |batches| - 1;
    var front, last := batches[..n], batches[n];
    var before := |EventsOf(calls, front)|;
    if p < before {
      EventIsInItsBatch(calls, front, p);
    } else {
      StartedEventsList(last.round);
      CompletedEventsList(last.round, last.results);
      var k := p - before;
      if k < |last.round| {
        assert EventsOf(calls, batches)[p] == StartedEvents(last.round)[k];
      } else {
        var m := k - |last.round|;
        assert EventsOf(calls, batches)[p] == CompletedEvents(last.round, last.results)[m];
        assert m == 2 * (m / 2) || m == 2 * (m / 2) + 1;
        assert last.round[m / 2] in last.round;
      }
    }
  }

  lemma {:induction false} BatchOfEventIsMonotone(calls: seq<Call>, batches: seq<Batch>, p: nat, q: nat)
    requires WellFormed(calls, batches) && p <= q
    ensures BatchOfEvent(calls, batches, p) <= BatchOfEvent(calls, batches, q)
    ensures batches != [] ==> BatchOfEvent(calls, batches, q) < |batches|
  {
    var n := |batches|;
    if n > 0 {
      BatchOfEventIsMonotone(calls, batches[..n - 1], p, q);
    }
  }

  /** An event of a run is one of a finished round, or a start of the round begun last. */
  lemma EventIsFinishedOrBegun(calls: seq<Call>, batches: seq<Batch>, begun: bool, p: nat)
    requires WellFormed(calls, batches) && p < |AllEvents(calls, batches, begun)|
    ensures var events, done := AllEvents(calls, batches, begun), EventsOf(calls, batches);
      && done <= events
      && (p < |done| ==> events[p] == done[p])
      && (p >= |done| ==> events[p].Started? && events[p].call in BegunRound(calls, batches, begun))
  {
    hide EventsOf;
    hide BegunRound;
    var done, round := EventsOf(calls, batches), BegunRound(calls, batches, begun);
    StartedEventsList(round);
    if p >= |done| {
      assert AllEvents(calls, batches, begun)[p] == StartedEvents(round)[p - |done|];
    }
  }

  /** The round of event p, which holds its call. */
  lemma EventHasRound(calls: seq<Call>, batches: seq<Batch>, begun: bool, p: nat)
    requires WellFormed(calls, batches) && RoundsOf(batches) <= Rounds(calls, Below(|calls|))
    requires p < |AllEvents(calls, batches, begun)|
    ensures var b := if p < |EventsOf(calls, batches)| then BatchOfEvent(calls, batches, p) else |batches|;
      var rounds := Rounds(calls, Below(|calls|));
      b < |rounds| && b <= |batches| && AllEvents(calls, batches, begun)[p].call in rounds[b]
  {
    hide EventsOf;
    hide Rounds;
    hide AllEvents;
    EventIsFinishedOrBegun(calls, batches, begun, p);
    RoundsOfIndex(batches);
    if p < |EventsOf(calls, batches)| {
      EventIsInItsBatch(calls, batches, p);
    }
  }

  /** The terminal sees an earlier conflicting call finish before the later one starts. */
  lemma ConflictingCallsDoNotOverlap(calls: seq<Call>, batches: seq<Batch>, begun: bool, p: nat, q: nat)
    requires WellFormed(calls, batches) && RoundsOf(batches) <= Rounds(calls, Below(|calls|))
    requires var events := AllEvents(calls, batches, begun);
      p < |events| && q < |events| && events[p].Started? && events[q].Finished?
      && events[q].call < events[p].call
    requires var late := AllEvents(calls, batches, begun)[p].call;
      var early := AllEvents(calls, batches, begun)[q].call;
      late < |calls| && calls[late].permit.Some? && Conflicts(calls[late].footprint, calls[early].footprint)
    ensures q < p
  {
    hide AllEvents;
    hide EventsOf;
    EventIsFinishedOrBegun(calls, batches, begun, q);
    EventIsFinishedOrBegun(calls, batches, begun, p);
    EventHasRound(calls, batches, begun, p);
    EventHasRound(calls, batches, begun, q);
    if p <= q {
      BatchOfEventIsMonotone(calls, batches, p, q);
      RoundsRespectConflicts(
        calls, Below(|calls|), BatchOfEvent(calls, batches, p), BatchOfEvent(calls, batches, q),
        AllEvents(calls, batches, begun)[q].call, AllEvents(calls, batches, begun)[p].call);
      assert false;
    }
  }

  /** When a call starts, every earlier call that it conflicts with has finished already. */
  lemma EarlierCallHasFinished(calls: seq<Call>, batches: seq<Batch>, begun: bool, p: nat, early: nat)
    requires WellFormed(calls, batches) && RoundsOf(batches) <= Rounds(calls, Below(|calls|))
    requires p < |AllEvents(calls, batches, begun)| && AllEvents(calls, batches, begun)[p].Started?
    requires var late := AllEvents(calls, batches, begun)[p].call;
      early < late < |calls| && calls[late].permit.Some? && Conflicts(calls[late].footprint, calls[early].footprint)
    ensures exists q :: 0 <= q < p && IsFinish(AllEvents(calls, batches, begun)[q], early)
  {
    hide AllEvents;
    hide EventsOf;
    hide Rounds;
    var rounds, late := Rounds(calls, Below(|calls|)), AllEvents(calls, batches, begun)[p].call;
    var b := if p < |EventsOf(calls, batches)| then BatchOfEvent(calls, batches, p) else |batches|;
    EventHasRound(calls, batches, begun, p);
    CallLeavesByItsNumber(calls, early);
    var a :| 0 <= a < |rounds| && early in rounds[a];
    if b <= a {
      RoundsRespectConflicts(calls, Below(|calls|), b, a, early, late);
      assert false;
    }
    RoundsOfIndex(batches);
    assert rounds[a] == RoundsOf(batches)[a];
    FinishIsListed(calls, batches, a, early);
    var q :| 0 <= q < |EventsOf(calls, batches)| && IsFinish(EventsOf(calls, batches)[q], early);
    EventIsFinishedOrBegun(calls, batches, begun, p);
    EventIsFinishedOrBegun(calls, batches, begun, q);
    if p <= q {
      ConflictingCallsDoNotOverlap(calls, batches, begun, p, q);
    }
  }

  predicate IsFinish(e: Event, call: nat) {
    e.Finished? && e.call == call
  }

  /** Every call of a finished round has its finish among the events. */
  lemma {:induction false} FinishIsListed(calls: seq<Call>, batches: seq<Batch>, b: nat, call: nat)
    requires WellFormed(calls, batches) && b < |batches| && call in batches[b].round
    ensures exists q :: 0 <= q < |EventsOf(calls, batches)| && IsFinish(EventsOf(calls, batches)[q], call)
  {
    hide StartedEvents;
    hide CompletedEvents;
    var n := |batches| - 1;
    var front, last := batches[..n], batches[n];
    var before := EventsOf(calls, front);
    if b < n {
      FinishIsListed(calls, front, b, call);
      var q :| 0 <= q < |before| && IsFinish(before[q], call);
      assert EventsOf(calls, batches)[q] == before[q];
    } else {
      var k :| 0 <= k < |last.round| && last.round[k] == call;
      StartedEventsList(last.round);
      CompletedEventsList(last.round, last.results);
      var q := |before| + |last.round| + (2 * k + 1);
      assert EventsOf(calls, batches)[q] == CompletedEvents(last.round, last.results)[2 * k + 1];
      assert IsFinish(EventsOf(calls, batches)[q], call);
    }
  }

  /** In every run, interrupted ones included, each output follows the start of its call and is
      directly followed by its finish. */
  lemma LifecycleOrder(calls: seq<Call>, batches: seq<Batch>, begun: bool, q: nat)
    requires WellFormed(calls, batches)
    requires q < |AllEvents(calls, batches, begun)| && AllEvents(calls, batches, begun)[q].ToolOutput?
    ensures var events := AllEvents(calls, batches, begun);
      && Started(events[q].call) in events[..q]
      && q + 1 < |events| && events[q + 1].Finished? && events[q + 1].call == events[q].call
  {
    hide AllEvents;
    hide EventsOf;
    EventIsFinishedOrBegun(calls, batches, begun, q);
    FinishedLifecycle(calls, batches, q);
    var events, done := AllEvents(calls, batches, begun), EventsOf(calls, batches);
    assert done[..q] == events[..q] && done[q + 1] == events[q + 1];
  }

  lemma {:induction false} FinishedLifecycle(calls: seq<Call>, batches: seq<Batch>, q: nat)
    requires WellFormed(calls, batches)
    requires q < |EventsOf(calls, batches)| && EventsOf(calls, batches)[q].ToolOutput?
    ensures var events := EventsOf(calls, batches);
      && Started(events[q].call) in events[..q]
      && q + 1 < |events| && events[q + 1].Finished? && events[q + 1].call == events[q].call
  {
    var n := |batches| - 1;
    var front, last := batches[..n], batches[n];
    var events, before := EventsOf(calls, batches), EventsOf(calls, front);
    assert before <= events;
    if q < |before| {
      FinishedLifecycle(calls, front, q);
      assert before[..q] == events[..q];
    } else {
      LifecycleInRound(before, last.round, last.results, q);
    }
  }

  lemma LifecycleInRound(before: seq<Event>, round: seq<nat>, results: seq<ToolResult>, q: nat)
    requires |round| == |results|
    requires var events := before + StartedEvents(round) + CompletedEvents(round, results);
      |before| <= q < |events| && events[q].ToolOutput?
    ensures var events := before + StartedEvents(round) + CompletedEvents(round, results);
      && Started(events[q].call) in events[..q]
      && q + 1 < |events| && events[q + 1].Finished? && events[q + 1].call == events[q].call
  {
    hide StartedEvents;
    hide CompletedEvents;
    StartedEventsList(round);
    CompletedEventsList(round, results);
    var starts, completed := StartedEvents(round), CompletedEvents(round, results);
    var events := before + starts + completed;
    forall i | 0 <= i < |starts| ensures events[|before| + i] == starts[i] && !starts[i].ToolOutput? {
    }
    assert q >= |before| + |starts| by {
      assert events[|before| + (q - |before|)] == events[q];
    }
    var m := q - |before| - |starts|;
    var k := m / 2;
    assert m == 2 * k || m == 2 * k + 1;
    assert events[q] == completed[m] && events[q + 1] == completed[m + 1];
    assert events[..q][|before| + k] == starts[k];
  }

  // ----- Results in model order: not in general -----

  /** A round takes a call although an earlier pending call is held back. */
  predicate Overtakes(calls: seq<Call>, pending: set<nat>) {
    var round := Selection(calls, pending);
    exists x, y :: x in round && y in pending && y !in round && y < x
  }

  predicate NeverOvertakes(calls: seq<Call>, pending: set<nat>)
    requires forall i :: i in pending ==> i < |calls|
    decreases |pending|
  {
    pending == {} ||
    (FirstRoundShrinks(calls, pending);
     !Overtakes(calls, pending) && NeverOvertakes(calls, pending - Elements(Selection(calls, pending))))
  }

  /** Results come out in model order exactly when no round overtakes a held-back call. */
  lemma {:induction false} ResultsInModelOrder(calls: seq<Call>, pending: set<nat>)
    requires forall i :: i in pending ==> i < |calls|
    ensures Sorted(Flatten(Rounds(calls, pending))) <==> NeverOvertakes(calls, pending)
    decreases |pending|
  {
    if pending == {} {
      assert Flatten([]) == [];
    } else {
      FirstRoundShrinks(calls, pending);
      ResultsInModelOrder(calls, pending - Elements(Selection(calls, pending)));
      FirstRoundThenRest(calls, pending);
    }
  }

  lemma FirstRoundThenRest(calls: seq<Call>, pending: set<nat>)
    requires forall i :: i in pending ==> i < |calls|
    requires pending != {}
    ensures var rest := pending - Elements(Selection(calls, pending));
      Sorted(Flatten(Rounds(calls, pending))) <==>
        Sorted(Flatten(Rounds(calls, rest))) && !Overtakes(calls, pending)
  {
    var round := Selection(calls, pending);
    var rest := pending - Elements(round);
    var tail := Flatten(Rounds(calls, rest));
    SelectionMembers(calls, pending);
    FirstRoundShrinks(calls, pending);
    RoundsPartition(calls, rest);
    forall y ensures y in tail <==> y in pending && y !in round {
      assert y in tail <==> y in multiset(tail);
    }
    assert Rounds(calls, pending) == [round] + Rounds(calls, rest);
    assert Flatten(Rounds(calls, pending)) == round + tail;
    SortedConcat(round, tail);
    assert Overtakes(calls, pending) <==> exists x, y :: x in round && y in tail && y < x;
  }

  lemma SortedConcat(u: seq<nat>, v: seq<nat>)
    ensures Sorted(u + v) <==> Sorted(u) && Sorted(v) && forall x, y :: x in u && y in v ==> x <= y
  {
    if Sorted(u) && Sorted(v) && forall x, y :: x in u && y in v ==> x <= y {
      forall p, q | 0 <= p < q < |u + v| ensures (u + v)[p] <= (u + v)[q] {
        if p < |u| <= q {
          assert (u + v)[p] in u && (u + v)[q] in v;
        }
      }
    }
    if Sorted(u + v) {
      forall p, q | 0 <= p < q < |v| ensures v[p] <= v[q] {
        assert (u + v)[|u| + p] == v[p] && (u + v)[|u| + q] == v[q];
      }
      forall p, q | 0 <= p < q < |u| ensures u[p] <= u[q] {
        assert (u + v)[p] == u[p] && (u + v)[q] == u[q];
      }
      forall x, y | x in u && y in v ensures x <= y {
        var p :| 0 <= p < |u| && u[p] == x;
        var q :| 0 <= q < |v| && v[q] == y;
        assert (u + v)[p] == x && (u + v)[|u| + q] == y;
      }
    }
  }

  // Whether that happens can be read off the calls: a block of calls that do not wait for each
  // other is followed only by calls that wait for one of the block or after it, or it is full.

  /** Call j has to wait for one of the calls from s on. */
  predicate HeldBack(calls: seq<Call>, s: nat, j: nat)
    requires j < |calls|
  {
    calls[j].permit.Some? && exists i :: s <= i < j && Conflicts(calls[j].footprint, calls[i].footprint)
  }

  /** Where the block of calls that starts at s ends, if it goes at least up to e. */
  function BlockEnd(calls: seq<Call>, s: nat, e: nat): (end: nat)
    requires s < e <= |calls| && e - s <= MAX_PARALLEL
    ensures e <= end <= |calls| && end - s <= MAX_PARALLEL
    decreases |calls| - e
  {
    if e == |calls| || e - s == MAX_PARALLEL || HeldBack(calls, s, e) then e else BlockEnd(calls, s, e + 1)
  }

  predicate BlockIsClosed(calls: seq<Call>, s: nat, e: nat) {
    e - s == MAX_PARALLEL || forall j :: e <= j < |calls| ==> HeldBack(calls, s, j)
  }

  predicate BlocksAreClosed(calls: seq<Call>, s: nat)
    requires s <= |calls|
    decreases |calls| - s
  {
    s == |calls| ||
    (var e := BlockEnd(calls, s, s + 1);
     BlockIsClosed(calls, s, e) && BlocksAreClosed(calls, e))
  }

  function From(calls: seq<Call>, s: nat): (pending: set<nat>)
    ensures forall i :: i in pending <==> s <= i < |calls|
  {
    Below(|calls|) - Below(s)
  }

  lemma ReadyIsNotHeldBack(calls: seq<Call>, s: nat, j: nat)
    requires s <= j < |calls|
    ensures Ready(calls, From(calls, s), j) <==> !HeldBack(calls, s, j)
  {
    hide Conflicts;
  }

  lemma {:induction false} BlockIsReady(calls: seq<Call>, s: nat, e: nat)
    requires s < e <= |calls| && e - s <= MAX_PARALLEL
    ensures var end := BlockEnd(calls, s, e);
      && (forall j :: e <= j < end ==> !HeldBack(calls, s, j))
      && (end == |calls| || end - s == MAX_PARALLEL || HeldBack(calls, s, end))
    decreases |calls| - e
  {
    hide HeldBack;
    if e == |calls| || e - s == MAX_PARALLEL || HeldBack(calls, s, e) {
    } else {
      BlockIsReady(calls, s, e + 1);
    }
  }

  lemma {:induction false} ReadyBlock(calls: seq<Call>, s: nat, e: nat)
    requires s <= e <= |calls| && forall j :: s <= j < e ==> !HeldBack(calls, s, j)
    ensures ReadyBelow(calls, From(calls, s), e) == seq(e - s, i => s + i)
  {
    hide HeldBack;
    if e == s {
      NoneReady(calls, From(calls, s), 0, s);
    } else {
      ReadyBlock(calls, s, e - 1);
      ReadyIsNotHeldBack(calls, s, e - 1);
    }
  }

  lemma {:induction false} NoneReady(calls: seq<Call>, pending: set<nat>, e: nat, j: nat)
    requires e <= j && forall i :: e <= i < j ==> !Ready(calls, pending, i)
    ensures ReadyBelow(calls, pending, j) == ReadyBelow(calls, pending, e)
  {
    hide Ready;
    if e < j {
      NoneReady(calls, pending, e, j - 1);
    }
  }

  lemma FirstReadyIsTaken(calls: seq<Call>, pending: set<nat>, e: nat, j: nat)
    requires e <= j < |calls| && |ReadyBelow(calls, pending, e)| < MAX_PARALLEL
    requires Ready(calls, pending, j) && forall i :: e <= i < j ==> !Ready(calls, pending, i)
    ensures j in Selection(calls, pending)
  {
    NoneReady(calls, pending, e, j);
    ReadyBelowGrows(calls, pending, j + 1, |calls|);
    var k := |ReadyBelow(calls, pending, e)|;
    assert ReadyBelow(calls, pending, j + 1)[k] == j;
    assert Selection(calls, pending)[k] == j;
  }

  lemma ClosedRound(calls: seq<Call>, s: nat, e: nat)
    requires s < e <= |calls| && e - s <= MAX_PARALLEL && BlockIsClosed(calls, s, e)
    requires forall j :: s <= j < e ==> !HeldBack(calls, s, j)
    ensures Selection(calls, From(calls, s)) == seq(e - s, i => s + i)
  {
    hide HeldBack;
    hide Ready;
    var pending := From(calls, s);
    ReadyBlock(calls, s, e);
    ReadyBelowGrows(calls, pending, e, |calls|);
    if e - s < MAX_PARALLEL {
      forall j | e <= j < |calls| ensures !Ready(calls, pending, j) {
        ReadyIsNotHeldBack(calls, s, j);
      }
      NoneReady(calls, pending, e, |calls|);
    }
  }

  lemma ClosedRoundLeaves(calls: seq<Call>, s: nat, e: nat)
    requires s < e <= |calls| && Selection(calls, From(calls, s)) == seq(e - s, i => s + i)
    ensures !Overtakes(calls, From(calls, s))
    ensures From(calls, s) - Elements(Selection(calls, From(calls, s))) == From(calls, e)
  {
    hide Selection;
    var round := Selection(calls, From(calls, s));
    forall x ensures x in round <==> s <= x < e {
      if s <= x < e {
        assert round[x - s] == x;
      }
    }
  }

  lemma OpenRound(calls: seq<Call>, s: nat, e: nat)
    requires s < e < |calls| && e - s <= MAX_PARALLEL && !BlockIsClosed(calls, s, e) && HeldBack(calls, s, e)
    requires forall j :: s <= j < e ==> !HeldBack(calls, s, j)
    ensures Overtakes(calls, From(calls, s))
  {
    hide HeldBack;
    hide Ready;
    hide Selection;
    var pending := From(calls, s);
    ReadyBlock(calls, s, e);
    var ready: set<nat> := set j: nat | j in pending && e <= j && !HeldBack(calls, s, j);
    var j :| e <= j < |calls| && !HeldBack(calls, s, j);
    assert j in ready;
    LeastExists(ready);
    var first: nat :| Least(ready, first);
    forall i | e <= i <= first ensures Ready(calls, pending, i) <==> i == first {
      ReadyIsNotHeldBack(calls, s, i);
      assert i in pending && (i in ready <==> i == first);
    }
    FirstReadyIsTaken(calls, pending, e, first);
    SelectionMembers(calls, pending);
    assert e in pending && e !in Selection(calls, pending) && e < first;
  }

  /** One round over the calls from s on. */
  lemma RoundIsBlock(calls: seq<Call>, s: nat)
    requires s < |calls|
    ensures var e, pending := BlockEnd(calls, s, s + 1), From(calls, s);
      && (Overtakes(calls, pending) <==> !BlockIsClosed(calls, s, e))
      && (BlockIsClosed(calls, s, e) ==> pending - Elements(Selection(calls, pending)) == From(calls, e))
  {
    hide HeldBack;
    hide Overtakes;
    hide Selection;
    hide BlockIsClosed;
    hide From;
    var e, pending := BlockEnd(calls, s, s + 1), From(calls, s);
    BlockIsReady(calls, s, s + 1);
    StartIsReady(calls, s);
    if BlockIsClosed(calls, s, e) {
      ClosedRound(calls, s, e);
      ClosedRoundLeaves(calls, s, e);
    } else {
      if e == |calls| || e - s == MAX_PARALLEL {
        FullIsClosed(calls, s, e);
      }
      OpenRound(calls, s, e);
    }
  }

  lemma FullIsClosed(calls: seq<Call>, s: nat, e: nat)
    requires e == |calls| || e - s == MAX_PARALLEL
    ensures BlockIsClosed(calls, s, e)
  {
  }

  lemma StartIsReady(calls: seq<Call>, s: nat)
    requires s < |calls|
    ensures !HeldBack(calls, s, s)
  {
  }

  lemma {:induction false} NeverOvertakesIff(calls: seq<Call>, s: nat)
    requires s <= |calls|
    ensures NeverOvertakes(calls, From(calls, s)) <==> BlocksAreClosed(calls, s)
    decreases |calls| - s
  {
    hide Overtakes;
    hide BlockIsClosed;
    if s == |calls| {
      assert From(calls, s) == {};
    } else {
      assert s in From(calls, s);
      RoundIsBlock(calls, s);
      NeverOvertakesIff(calls, BlockEnd(calls, s, s + 1));
    }
  }

  /** The results of a batch come out in model order exactly when its blocks are closed. */
  lemma ModelOrderIff(calls: seq<Call>)
    ensures Sorted(Flatten(Rounds(calls, Below(|calls|)))) <==> BlocksAreClosed(calls, 0)
  {
    hide Rounds;
    hide NeverOvertakes;
    hide BlocksAreClosed;
    ResultsInModelOrder(calls, Below(|calls|));
    NeverOvertakesIff(calls, 0);
    assert From(calls, 0) == Below(|calls|);
  }

  function Writing(id: string, path: string): Call {
    var a := Action(id, "write", Permission.WorkspaceWrite, None, Footprint([Write(WorkspacePath([path]))], false));
    Call(a, Some(Permit(id, "write", Permission.WorkspaceWrite)), None, a.effects)
  }

  /** Three writes of which the first two share a file: the third result precedes the second. */
  lemma ResultsCanOvertake()
    ensures var calls := [Writing("a", "f"), Writing("b", "f"), Writing("c", "g")];
      Overtakes(calls, Below(3)) && !Sorted(Flatten(Rounds(calls, Below(3))))
  {
    var calls := [Writing("a", "f"), Writing("b", "f"), Writing("c", "g")];
    var pending := Below(3);
    assert Conflicts(calls[1].footprint, calls[0].footprint) by {
      assert Write(WorkspacePath(["f"])) in calls[1].footprint.effects;
    }
    assert !Conflicts(calls[2].footprint, calls[0].footprint) && !Conflicts(calls[2].footprint, calls[1].footprint) by {
      assert ["f"][0] != ["g"][0];
    }
    assert Blocked(calls, pending, 1) && !Blocked(calls, pending, 2) && !Blocked(calls, pending, 0);
    assert ReadyBelow(calls, pending, 1) == [0];
    assert ReadyBelow(calls, pending, 2) == [0];
    assert ReadyBelow(calls, pending, 3) == [0, 2];
    assert Selection(calls, pending) == [0, 2];
    assert 2 in Selection(calls, pending) && 1 in pending;
    ResultsInModelOrder(calls, pending);
  }
}
