/** One turn of the agent. */
module TurnLoop {
  // Requests to the model, tool execution and completion, as a loop over whatever the model,
  // the tools, the workspace and the user do.

  import opened Evidence
  import opened EvidenceEngine
  import opened TurnTrace
  import opened Wrappers
  import Excerpts

  // ----- The stream -----

  /** Why reading a stream to its end fails; None when it is drained. */
  function StreamError(p: Pass): Option<AgentError>
    requires p.backend.Stream?
  {
    if !p.channelOpen && Speaks(p.backend.items) then Some(ChannelClosed)
    else
      match p.backend.end
      case Closed => None
      case Broken => Some(BackendError)
      case CancelledMidway => Some(Cancelled)
  }

  /** Reads a stream to its end, passing text and usage on. */
  method Drain(p: Pass, before: bool) returns (error: Option<AgentError>, calls: nat, continuation: bool)
    requires p.backend.Stream?
    ensures error == StreamError(p)
    ensures error.None? ==>
      calls == ToolCalls(p.backend.items) && continuation == LastContinuation(p.backend.items, before)
  {
    var items := p.backend.items;
    calls, continuation := 0, before;
    for i := 0 to |items|
      invariant calls == ToolCalls(items[..i]) && continuation == LastContinuation(items[..i], before)
      invariant p.channelOpen || forall j :: 0 <= j < i ==> items[j].ToolCall? || items[j].Done?
    {
      assert items[..i + 1][..i] == items[..i];
      match items[i] {
        case ToolCall => calls := calls + 1;
        case Done(next) => continuation := next;
        case _ =>
          if !p.channelOpen {
            return Some(ChannelClosed), calls, continuation;
          }
      }
    }
    assert items[..|items|] == items;
    match p.backend.end {
      case Closed => error := None;
      case Broken => error := Some(BackendError);
      case CancelledMidway => error := Some(Cancelled);
    }
  }

  // ----- One pass -----

  /** Everything a turn carries from pass to pass. */
  datatype State = State(
    context: Context, steps: nat, reconstructed: bool, continuation: bool, blocked: nat, trace: Trace)

  datatype Flow = Continue(state: State) | Return(outcome: Outcome, state: State)

  function Shown(s: State, step: Step): State {
    s.(trace := s.trace + [step])
  }

  predicate Refreshes(s: State, p: Pass) {
    s.context.root != "" && p.rootIsDir
  }

  function AfterRefresh(r: Rules, s: State, p: Pass): State {
    if !Refreshes(s, p) then s
    else
      var w := Workspace(s.context.root, p.files);
      Shown(s, RefreshedFrom(w, p.dirty)).(context := AtCompletion(r, s.context, w, p.dirty))
  }

  /** A drained stream without tool calls: the turn is complete, or its completion is refused. */
  function CompletePass(r: Rules, request: Request, p: Pass, s: State): Flow {
    if request.mode == Repository && Refreshes(s, p) && p.cancelledAtRefresh then Return(Failed(Cancelled), s)
    else
      var t := if request.mode == Repository then AfterRefresh(r, s, p) else s;
      if request.mode == Repository && !Finishes(r, t.context, p.gate) then
        if s.blocked + 1 >= MAX_BLOCKED_COMPLETIONS then Return(Failed(CompletionBlocked), t)
        else Continue(t.(blocked := s.blocked + 1))
      else if !p.channelOpen then Return(Failed(ChannelClosed), t)
      else Return(Completed(t.steps), Shown(t, DoneSent))
  }

  function ObserveSeq(r: Rules, c: Context, os: seq<Observation>): Context {
    if os == [] then c else Observe(r, ObserveSeq(r, c, os[..|os| - 1]), os[|os| - 1])
  }

  /** A failed batch never claims that completion was blocked. */
  function ToolFailure(e: AgentError): AgentError {
    if e == CompletionBlocked then ToolError else e
  }

  /** A drained stream with tool calls: they run, unless the batch fails. */
  function ToolsPass(r: Rules, p: Pass, s: State): Flow {
    if p.tools.ToolsFailed? then Return(Failed(ToolFailure(p.tools.error)), s)
    else
      var c := ObserveSeq(r, s.context, p.tools.observations);
      var t := Shown(s, Executed(p.tools.observations)).(context := c, blocked := 0);
      if p.tools.noProgress < MAX_NO_PROGRESS then Continue(t)
      else Return(Failed(StepLimit), if p.channelOpen then Shown(t, ErrorSent) else t)
  }

  /** The first request failed because its continuation was unusable. */
  predicate Restarts(p: Pass, s: State) {
    p.backend.InvalidContinuation? && s.steps == 1 && !s.reconstructed && s.continuation
  }

  function AnswerPass(r: Rules, request: Request, p: Pass, s: State): Flow
    requires s.steps > 0
  {
    if p.backend.CancelledWaiting? then Return(Failed(Cancelled), s)
    else if Restarts(p, s) then
      if p.channelOpen then Continue(s.(continuation := false, reconstructed := true, steps := s.steps - 1))
      else Return(Failed(ChannelClosed), s)
    else if !p.backend.Stream? then Return(Failed(BackendError), s)
    else if StreamError(p).Some? then Return(Failed(StreamError(p).value), s)
    else
      var calls := ToolCalls(p.backend.items);
      var t := Shown(s, Drained(calls)).(continuation := LastContinuation(p.backend.items, s.continuation));
      if calls == 0 then CompletePass(r, request, p, t) else ToolsPass(r, p, t)
  }

  function RunPass(r: Rules, request: Request, p: Pass, s: State): Flow {
    if p.cancelled || s.steps >= request.maxSteps then
      Return(Failed(if p.cancelled then Cancelled else StepLimit), if p.channelOpen then Shown(s, ErrorSent) else s)
    else AnswerPass(r, request, p, Shown(s, Requested(s.continuation)).(steps := s.steps + 1))
  }

  /** Every pass that continues uses up the reconstruction or a step. */
  lemma PassUsesUp(r: Rules, request: Request, p: Pass, s: State)
    requires RunPass(r, request, p, s).Continue?
    ensures var t := RunPass(r, request, p, s).state;
      && t.steps <= request.maxSteps
      && (if t.reconstructed == s.reconstructed then t.steps == s.steps + 1
          else t.reconstructed && !s.reconstructed && t.steps == s.steps)
  {
    hide Refresh;
    hide ObserveSeq;
    hide Finishes;
  }

  /** A whole turn, from pass number i on. */
  function Turn(r: Rules, request: Request, passes: nat -> Pass, i: nat, s: State): (end: Flow)
    ensures end.Return?
    decreases if s.reconstructed then 0 else 1, request.maxSteps - s.steps
  {
    var flow := RunPass(r, request, passes(i), s);
    if flow.Return? then flow
    else
      PassUsesUp(r, request, passes(i), s);
      Turn(r, request, passes, i + 1, flow.state)
  }

  /** The number of the pass in which a turn returns. */
  function LastPass(r: Rules, request: Request, passes: nat -> Pass, i: nat, s: State): nat
    decreases if s.reconstructed then 0 else 1, request.maxSteps - s.steps
  {
    var flow := RunPass(r, request, passes(i), s);
    if flow.Return? then i
    else
      PassUsesUp(r, request, passes(i), s);
      LastPass(r, request, passes, i + 1, flow.state)
  }

  lemma TurnUnfolds(r: Rules, request: Request, passes: nat -> Pass, i: nat, s: State)
    ensures var flow := RunPass(r, request, passes(i), s);
      Turn(r, request, passes, i, s) == if flow.Return? then flow else Turn(r, request, passes, i + 1, flow.state)
  {
  }

  function Beginning(request: Request, c: Context): State {
    State(c, 0, false, request.continuation, 0, [])
  }

  // ----- What every turn guarantees -----

  /** What a turn completed in pass p leaves.  With a live root its last step before Done is a
      refresh from the files of that moment, which found every recorded file present and with
      the recorded hash. */
  ghost predicate CompletedWithEvidence(r: Rules, p: Pass, s: Context, t: Trace) {
    && |t| >= 2 && t[|t| - 1] == DoneSent
    && !s.workspaceChanged && !AnyStale(s)
    && (s.root != "" && p.rootIsDir ==>
          var w := Workspace(s.root, p.files);
          t[|t| - 2] == RefreshedFrom(w, p.dirty) && forall f :: f in s.inspected ==> !f.stale && Fresh(r, w, f))
  }

  /** The state between two passes. */
  ghost predicate Between(request: Request, s: State) {
    && s.steps <= request.maxSteps && s.blocked < MAX_BLOCKED_COMPLETIONS && Good(s.context)
    && Requests(s.trace) == s.steps + (if s.reconstructed then 1 else 0)
    && SilentAnswers(s.trace) == s.blocked
    && Unfinished(s.trace) && ExecutesAfterDrain(s.trace) && RepeatsOnlyFirst(s.trace)
    && (s.steps == 0 && !s.reconstructed ==> s.trace == [])
    && (s.steps == 0 && s.reconstructed ==> s.trace == [Requested(true)] && !s.continuation)
    && (s.steps > 0 ==> s.trace != [] && !s.trace[|s.trace| - 1].Requested?)
  }

  /** However a turn ends: one request more than the step limit at most, tools only after a
      drained stream that asked for them, Done only as the last step of a completed turn, a
      completed repository turn only with current evidence, and a blocked one only after three
      silent answers in a row.  The last pass is p. */
  ghost predicate Guaranteed(r: Rules, request: Request, p: Pass, outcome: Outcome, s: State) {
    && Good(s.context)
    && Requests(s.trace) <= request.maxSteps + 1
    && ExecutesAfterDrain(s.trace) && RepeatsOnlyFirst(s.trace)
    && (outcome.Failed? ==> Unfinished(s.trace))
    && (outcome.Completed? ==>
          && s.trace != [] && s.trace[|s.trace| - 1] == DoneSent && Unfinished(s.trace[..|s.trace| - 1])
          && outcome.steps <= request.maxSteps
          && (request.mode == Repository ==> CompletedWithEvidence(r, p, s.context, s.trace)))
    && (outcome == Failed(CompletionBlocked) ==> SilentAnswers(s.trace) == MAX_BLOCKED_COMPLETIONS)
  }

  /** The state right after a stream was drained. */
  ghost predicate Answered(request: Request, s: State, calls: nat) {
    && Good(s.context) && 0 < s.steps <= request.maxSteps && s.blocked < MAX_BLOCKED_COMPLETIONS
    && s.trace != [] && s.trace[|s.trace| - 1] == Drained(calls)
    && Requests(s.trace) == s.steps + (if s.reconstructed then 1 else 0)
    && SilentAnswers(s.trace) == s.blocked + (if calls == 0 then 1 else 0)
    && Unfinished(s.trace) && ExecutesAfterDrain(s.trace) && RepeatsOnlyFirst(s.trace)
  }

  ghost predicate FlowIsRight(r: Rules, request: Request, p: Pass, flow: Flow) {
    match flow
    case Continue(s) => Between(request, s)
    case Return(outcome, s) => Guaranteed(r, request, p, outcome, s)
  }

  lemma RefreshIsShown(r: Rules, request: Request, s: State, p: Pass)
    requires Answered(request, s, 0)
    ensures var t := AfterRefresh(r, s, p);
      && Good(t.context) && t.trace != [] && !t.trace[|t.trace| - 1].Requested?
      && Requests(t.trace) == Requests(s.trace) && SilentAnswers(t.trace) == s.blocked + 1
      && Unfinished(t.trace) && ExecutesAfterDrain(t.trace) && RepeatsOnlyFirst(t.trace)
  {
    hide Refresh;
    hide Good;
    hide Requests;
    hide SilentAnswers;
    hide Unfinished;
    hide ExecutesAfterDrain;
    hide RepeatsOnlyFirst;
    var w := Workspace(s.context.root, p.files);
    ApplyIsGood(r, s.context, Refreshed(w));
    RecordUserKeeps(r, Refresh(r, s.context, w), p.dirty);
    SameIsGood(Refresh(r, s.context, w), AtCompletion(r, s.context, w, p.dirty));
    OneMore(s.trace, RefreshedFrom(w, p.dirty));
  }

  lemma DoneHasEvidence(r: Rules, request: Request, s: State, p: Pass)
    requires Answered(request, s, 0) && Finishes(r, AfterRefresh(r, s, p).context, p.gate)
    ensures CompletedWithEvidence(r, p, AfterRefresh(r, s, p).context, Shown(AfterRefresh(r, s, p), DoneSent).trace)
  {
    hide Good;
    var t := AfterRefresh(r, s, p);
    var done := Shown(t, DoneSent).trace;
    assert done[|done| - 2] == t.trace[|t.trace| - 1];
    if Refreshes(s, p) {
      var w := Workspace(s.context.root, p.files);
      CompletionMeansFresh(r, s.context, w, p.dirty, p.gate);
      RecordUserKeeps(r, Refresh(r, s.context, w), p.dirty);
    }
  }

  lemma CompletePassIsRight(r: Rules, request: Request, p: Pass, s: State)
    requires Answered(request, s, 0)
    ensures FlowIsRight(r, request, p, CompletePass(r, request, p, s))
  {
    hide AfterRefresh;
    hide Good;
    hide Finishes;
    hide Requests;
    hide SilentAnswers;
    hide Unfinished;
    hide ExecutesAfterDrain;
    hide RepeatsOnlyFirst;
    hide CompletedWithEvidence;
    RefreshIsShown(r, request, s, p);
    AfterRefreshKeeps(r, s, p);
    var t := if request.mode == Repository then AfterRefresh(r, s, p) else s;
    OneMore(t.trace, DoneSent);
    assert (t.trace + [DoneSent])[..|t.trace|] == t.trace;
    if request.mode == Repository && Finishes(r, t.context, p.gate) {
      DoneHasEvidence(r, request, s, p);
    }
  }

  lemma AfterRefreshKeeps(r: Rules, s: State, p: Pass)
    ensures var t := AfterRefresh(r, s, p);
      && t.steps == s.steps && t.reconstructed == s.reconstructed
      && t.continuation == s.continuation && t.blocked == s.blocked
  {
  }

  lemma {:induction false} ObserveSeqIsGood(r: Rules, c: Context, os: seq<Observation>)
    requires Good(c)
    ensures Good(ObserveSeq(r, c, os))
  {
    hide Good;
    if os != [] {
      ObserveSeqIsGood(r, c, os[..|os| - 1]);
      ApplyIsGood(r, ObserveSeq(r, c, os[..|os| - 1]), Observed(os[|os| - 1]));
    }
  }

  lemma ToolsPassIsRight(r: Rules, request: Request, p: Pass, s: State, calls: nat)
    requires Answered(request, s, calls) && calls > 0
    ensures FlowIsRight(r, request, p, ToolsPass(r, p, s))
  {
    hide ObserveSeq;
    hide Good;
    hide Requests;
    hide SilentAnswers;
    hide Unfinished;
    hide ExecutesAfterDrain;
    hide RepeatsOnlyFirst;
    if p.tools.Ran? {
      ObserveSeqIsGood(r, s.context, p.tools.observations);
      OneMore(s.trace, Executed(p.tools.observations));
      OneMore(s.trace + [Executed(p.tools.observations)], ErrorSent);
    }
  }

  lemma PassIsRight(r: Rules, request: Request, p: Pass, s: State)
    requires Between(request, s)
    ensures FlowIsRight(r, request, p, RunPass(r, request, p, s))
  {
    hide Good;
    hide Requests;
    hide SilentAnswers;
    hide Unfinished;
    hide ExecutesAfterDrain;
    hide RepeatsOnlyFirst;
    hide CompletePass;
    hide ToolsPass;
    OneMore(s.trace, ErrorSent);
    OneMore(s.trace, Requested(s.continuation));
    if !p.cancelled && s.steps < request.maxSteps {
      var t := Shown(s, Requested(s.continuation)).(steps := s.steps + 1);
      if p.backend.Stream? && StreamError(p).None? {
        var calls := ToolCalls(p.backend.items);
        OneMore(t.trace, Drained(calls));
        var u := Shown(t, Drained(calls)).(continuation := LastContinuation(p.backend.items, t.continuation));
        assert Answered(request, u, calls);
        if calls == 0 {
          CompletePassIsRight(r, request, p, u);
        } else {
          ToolsPassIsRight(r, request, p, u, calls);
        }
      }
    }
  }

  lemma {:induction false} ObserveSeqKeepsRoot(r: Rules, c: Context, os: seq<Observation>)
    ensures ObserveSeq(r, c, os).root == c.root
  {
    hide Observe;
    if os != [] {
      ObserveSeqKeepsRoot(r, c, os[..|os| - 1]);
      ObserveKeepsRoot(r, ObserveSeq(r, c, os[..|os| - 1]), os[|os| - 1]);
    }
  }

  lemma AtCompletionRoot(r: Rules, s: Context, w: Workspace, dirty: seq<Excerpts.Path>)
    ensures AtCompletion(r, s, w, dirty).root == w.root
  {
    RecordUserKeeps(r, Refresh(r, s, w), dirty);
  }

  lemma PassKeepsRoot(r: Rules, request: Request, p: Pass, s: State)
    ensures RunPass(r, request, p, s).state.context.root == s.context.root
  {
    hide ObserveSeq;
    hide Finishes;
    hide AtCompletion;
    hide StreamError;
    hide ToolCalls;
    hide LastContinuation;
    if p.tools.Ran? {
      ObserveSeqKeepsRoot(r, s.context, p.tools.observations);
    }
    AtCompletionRoot(r, s.context, Workspace(s.context.root, p.files), p.dirty);
  }

  /** Every turn, whatever the model, the tools, the workspace and the user do. */
  lemma {:induction false} TurnIsRight(r: Rules, request: Request, passes: nat -> Pass, i: nat, s: State)
    requires Between(request, s)
    ensures var end := Turn(r, request, passes, i, s);
      && Guaranteed(r, request, passes(LastPass(r, request, passes, i, s)), end.outcome, end.state)
      && end.state.context.root == s.context.root
    decreases if s.reconstructed then 0 else 1, request.maxSteps - s.steps
  {
    hide Between;
    hide Guaranteed;
    hide RunPass;
    PassIsRight(r, request, passes(i), s);
    PassKeepsRoot(r, request, passes(i), s);
    var flow := RunPass(r, request, passes(i), s);
    if flow.Continue? {
      PassUsesUp(r, request, passes(i), s);
      TurnIsRight(r, request, passes, i + 1, flow.state);
    }
  }

  // ----- The steps of every turn are accounted for -----

  lemma {:induction false} ObservationsReplay(r: Rules, c: Context, os: seq<Observation>)
    ensures Replay(r, c, OpsOf(Executed(os))) == ObserveSeq(r, c, os)
  {
    hide Observe;
    if os != [] {
      var ops, n := OpsOf(Executed(os)), |os| - 1;
      assert ops[..n] == OpsOf(Executed(os[..n]));
      ObservationsReplay(r, c, os[..n]);
    }
  }

  lemma RefreshReplays(r: Rules, c: Context, w: Workspace, dirty: seq<Excerpts.Path>)
    ensures Replay(r, c, OpsOf(RefreshedFrom(w, dirty))) == AtCompletion(r, c, w, dirty)
  {
    hide Refresh;
    hide RecordUserAll;
    var ops := OpsOf(RefreshedFrom(w, dirty));
    assert ops[..1] == [Refreshed(w)] && ops[..1][..0] == [];
    assert Replay(r, c, ops[..1]) == Refresh(r, c, w);
  }

  /** The steps so far follow each other, and the evidence is what they leave. */
  ghost predicate Accounted(g: Setting, s: State) {
    AllFollow(g, s.trace) && s.context == ContextAfter(g.rules, g.start, s.trace) && s.context.root == g.start.root
  }

  /** The state in which pass number i begins. */
  ghost predicate Head(g: Setting, i: nat, s: State) {
    && Accounted(g, s) && BetweenPasses(g, s.trace) && i == Requests(s.trace)
    && s.continuation == NextContinuation(g, s.trace) && s.reconstructed == Repeated(s.trace)
  }

  /** The state after pass number i has requested an answer. */
  ghost predicate Asked(g: Setting, i: nat, s: State) {
    && Accounted(g, s) && s.trace != [] && Requests(s.trace) == i + 1
    && s.continuation == Carried(g, s.trace) && (s.reconstructed <==> |s.trace| > 1 && Repeated(s.trace))
  }

  ghost predicate FlowIsExplained(g: Setting, i: nat, flow: Flow) {
    match flow
    case Continue(s) => Head(g, i + 1, s)
    case Return(outcome, s) => Explained(g, s.trace, outcome) && s.context == ContextAfter(g.rules, g.start, s.trace)
  }

  /** A step that leaves the evidence alone is accounted for when it follows. */
  lemma ShownIsAccounted(g: Setting, s: State, step: Step)
    requires Accounted(g, s) && Follows(g, s.trace, step) && OpsOf(step) == []
    ensures Accounted(g, Shown(s, step))
  {
    hide Follows;
    hide AllFollow;
    OneMoreFollows(g, s.trace, step);
    OneMoreOp(g.rules, g.start, s.trace, step);
  }

  lemma FinishesIffReady(g: Setting, s: State)
    requires g.request.mode == Repository && s.context == ContextAfter(g.rules, g.start, s.trace)
    ensures Finishes(g.rules, s.context, Current(g, s.trace).gate) <==> Ready(g, s.trace)
  {
    hide ContextAfter;
    var c := s.context;
    assert UserChangesPreserved(g.rules, c) <==>
      forall p, q :: p in c.userModified && q in c.modified ==> !g.rules.overlap(p, q);
    assert AnyStale(c) <==> exists f :: f in c.inspected && f.stale;
  }

  lemma RequestIsExplained(g: Setting, i: nat, s: State)
    requires Head(g, i, s) && !Stops(g, s.trace)
    ensures Asked(g, i, Shown(s, Requested(s.continuation)))
    ensures Current(g, Shown(s, Requested(s.continuation)).trace) == g.passes(i)
  {
    hide AllFollow;
    hide ContextAfter;
    hide BetweenPasses;
    hide Stops;
    var step := Requested(s.continuation);
    ShownIsAccounted(g, s, step);
    OneMore(s.trace, step);
    OneMoreCarried(g, s.trace, step);
  }

  /** A step that follows within the pass, with what it does to the evidence. */
  lemma StepIsExplained(g: Setting, i: nat, s: State, step: Step, c: Context)
    requires Asked(g, i, s) && |s.trace| > 1 && Follows(g, s.trace, step) && !step.Requested? && !step.Drained?
    requires c == Replay(g.rules, s.context, OpsOf(step)) && c.root == s.context.root
    ensures Asked(g, i, Shown(s, step).(context := c))
    ensures SilentAnswers(s.trace + [step]) == if step.Executed? then 0 else SilentAnswers(s.trace)
  {
    hide Follows;
    hide AllFollow;
    hide ContextAfter;
    hide Replay;
    OneMore(s.trace, step);
    OneMoreCarried(g, s.trace, step);
    OneMoreFollows(g, s.trace, step);
    OneMoreOp(g.rules, g.start, s.trace, step);
  }

  lemma GoesOnExplained(g: Setting, i: nat, s: State)
    requires Asked(g, i, s) && |s.trace| > 1 && !s.trace[|s.trace| - 1].Requested? && BetweenPasses(g, s.trace)
    ensures Head(g, i + 1, s)
  {
    hide AllFollow;
    hide ContextAfter;
    hide BetweenPasses;
  }

  lemma FailsExplained(g: Setting, s: State, e: AgentError, said: bool)
    requires Accounted(g, s) && FailsAfter(g, s.trace, e, said) && (said ==> Follows(g, s.trace, ErrorSent))
    ensures var t := if said then Shown(s, ErrorSent) else s;
      Explained(g, t.trace, Failed(e)) && t.context == ContextAfter(g.rules, g.start, t.trace)
  {
    hide FailsAfter;
    hide Follows;
    hide AllFollow;
    hide ContextAfter;
    if said {
      ShownIsAccounted(g, s, ErrorSent);
      assert (s.trace + [ErrorSent])[..|s.trace|] == s.trace;
    }
  }

  lemma SilentEndIsNoRequest(g: Setting, t: Trace)
    requires SilentEnd(g, t)
    ensures t != [] && !t[|t| - 1].Requested?
  {
  }

  lemma ReplayNothing(r: Rules, c: Context)
    ensures Replay(r, c, []) == c
  {
  }

  lemma NoRefresh(g: Setting, s: State, p: Pass)
    requires s.context.root == g.start.root && !Live(g, p)
    ensures g.request.mode == Repository ==> AfterRefresh(g.rules, s, p) == s
  {
  }

  lemma DrainsIsStream(p: Pass)
    requires Drains(p)
    ensures p.backend.Stream?
  {
  }

  /** A silent answer, once the evidence is refreshed if it is to be. */
  lemma SilentEndIsExplained(g: Setting, i: nat, s: State)
    requires Asked(g, i, s) && |s.trace| > 1 && SilentEnd(g, s.trace)
    requires Requests(s.trace) == s.steps + (if s.reconstructed then 1 else 0)
    requires SilentAnswers(s.trace) == s.blocked + 1
    ensures
      if Ready(g, s.trace) then
        if g.passes(i).channelOpen then FlowIsExplained(g, i, Return(Completed(s.steps), Shown(s, DoneSent)))
        else FlowIsExplained(g, i, Return(Failed(ChannelClosed), s))
      else if s.blocked + 1 >= MAX_BLOCKED_COMPLETIONS then FlowIsExplained(g, i, Return(Failed(CompletionBlocked), s))
      else FlowIsExplained(g, i, Continue(s.(blocked := s.blocked + 1)))
  {
    hide AllFollow;
    hide ContextAfter;
    hide Ready;
    hide SilentEnd;
    hide Replay;
    SilentEndIsNoRequest(g, s.trace);
    assert Current(g, s.trace) == g.passes(i);
    if Ready(g, s.trace) {
      if g.passes(i).channelOpen {
        ReplayNothing(g.rules, s.context);
        StepIsExplained(g, i, s, DoneSent, s.context);
        OneMore(s.trace, DoneSent);
      } else {
        FailsExplained(g, s, ChannelClosed, false);
      }
    } else if s.blocked + 1 >= MAX_BLOCKED_COMPLETIONS {
      FailsExplained(g, s, CompletionBlocked, false);
    } else {
      GoesOnExplained(g, i, s.(blocked := s.blocked + 1));
    }
  }

  lemma RefreshIsExplained(g: Setting, i: nat, s: State)
    requires Asked(g, i, s) && s.trace[|s.trace| - 1] == Drained(0) && |s.trace| > 1
    requires Live(g, g.passes(i)) && !g.passes(i).cancelledAtRefresh
    ensures var t := AfterRefresh(g.rules, s, g.passes(i));
      && Asked(g, i, t) && |t.trace| > 1 && SilentEnd(g, t.trace)
      && Requests(t.trace) == Requests(s.trace) && SilentAnswers(t.trace) == SilentAnswers(s.trace)
  {
    hide AllFollow;
    hide ContextAfter;
    hide AtCompletion;
    hide Replay;
    var p := g.passes(i);
    var w := Workspace(g.start.root, p.files);
    assert Current(g, s.trace) == p;
    RefreshReplays(g.rules, s.context, w, p.dirty);
    AtCompletionRoot(g.rules, s.context, w, p.dirty);
    StepIsExplained(g, i, s, RefreshedFrom(w, p.dirty), AfterRefresh(g.rules, s, p).context);
    OneMore(s.trace, RefreshedFrom(w, p.dirty));
  }

  lemma SilenceIsExplained(g: Setting, i: nat, s: State)
    requires Asked(g, i, s) && s.trace[|s.trace| - 1] == Drained(0) && |s.trace| > 1
    requires Requests(s.trace) == s.steps + (if s.reconstructed then 1 else 0)
    requires SilentAnswers(s.trace) == s.blocked + 1
    ensures FlowIsExplained(g, i, CompletePass(g.rules, g.request, g.passes(i), s))
  {
    hide AllFollow;
    hide ContextAfter;
    hide Ready;
    hide Finishes;
    hide AfterRefresh;
    var p := g.passes(i);
    assert Current(g, s.trace) == p && s.context.root == g.start.root;
    if Live(g, p) && p.cancelledAtRefresh {
      FailsExplained(g, s, Cancelled, false);
    } else {
      var t := if g.request.mode == Repository then AfterRefresh(g.rules, s, p) else s;
      if Live(g, p) {
        RefreshIsExplained(g, i, s);
      }
      if !Live(g, p) {
        NoRefresh(g, s, p);
      }
      AfterRefreshKeeps(g.rules, s, p);
      CompletionIsExplained(g, i, t);
    }
  }

  /** The end of a pass with a silent answer, after the refresh if there was one. */
  lemma CompletionIsExplained(g: Setting, i: nat, t: State)
    requires Asked(g, i, t) && |t.trace| > 1 && SilentEnd(g, t.trace)
    requires Requests(t.trace) == t.steps + (if t.reconstructed then 1 else 0)
    requires SilentAnswers(t.trace) == t.blocked + 1
    ensures var p := g.passes(i);
      var flow :=
        if g.request.mode == Repository && !Finishes(g.rules, t.context, p.gate) then
          if t.blocked + 1 >= MAX_BLOCKED_COMPLETIONS then Return(Failed(CompletionBlocked), t)
          else Continue(t.(blocked := t.blocked + 1))
        else if !p.channelOpen then Return(Failed(ChannelClosed), t)
        else Return(Completed(t.steps), Shown(t, DoneSent));
      FlowIsExplained(g, i, flow)
  {
    hide AllFollow;
    hide ContextAfter;
    hide Finishes;
    hide FlowIsExplained;
    hide SilentEnd;
    assert Current(g, t.trace) == g.passes(i);
    if g.request.mode == Repository {
      FinishesIffReady(g, t);
    }
    SilentEndIsExplained(g, i, t);
  }

  lemma ToolsAreExplained(g: Setting, i: nat, s: State)
    requires Asked(g, i, s) && s.trace[|s.trace| - 1].Drained? && s.trace[|s.trace| - 1].toolCalls > 0 && |s.trace| > 1
    ensures FlowIsExplained(g, i, ToolsPass(g.rules, g.passes(i), s))
  {
    hide ObserveSeq;
    hide ContextAfter;
    hide Replay;
    hide AllFollow;
    var p := g.passes(i);
    assert Current(g, s.trace) == p;
    if p.tools.ToolsFailed? {
      FailsExplained(g, s, ToolFailure(p.tools.error), false);
    } else {
      var step := Executed(p.tools.observations);
      var c := ObserveSeq(g.rules, s.context, p.tools.observations);
      var t := Shown(s, step).(context := c, blocked := 0);
      ObservationsReplay(g.rules, s.context, p.tools.observations);
      ObserveSeqKeepsRoot(g.rules, s.context, p.tools.observations);
      StepIsExplained(g, i, s, step, c);
      assert t.trace[|t.trace| - 1] == step && Current(g, t.trace) == p;
      if p.tools.noProgress >= MAX_NO_PROGRESS {
        FailsExplained(g, t, StepLimit, p.channelOpen);
      } else {
        GoesOnExplained(g, i, t);
      }
    }
  }

  lemma StoppedIsExplained(g: Setting, i: nat, s: State)
    requires Head(g, i, s) && Stops(g, s.trace) && StepsTaken(s.trace) == s.steps
    ensures FlowIsExplained(g, i, RunPass(g.rules, g.request, g.passes(i), s))
  {
    hide AllFollow;
    hide ContextAfter;
    hide BetweenPasses;
    var p := g.passes(i);
    FailsExplained(g, s, if p.cancelled then Cancelled else StepLimit, p.channelOpen);
  }

  /** The answer to the request of pass number i is awaited. */
  ghost predicate Awaits(g: Setting, i: nat, s: State) {
    && Asked(g, i, s) && s.trace[|s.trace| - 1] == Requested(s.continuation) && s.steps > 0
    && Requests(s.trace) == s.steps + (if s.reconstructed then 1 else 0) && SilentAnswers(s.trace) == s.blocked
    && (|s.trace| == 1 <==> s.steps == 1 && !s.reconstructed)
  }

  lemma DrainFollows(g: Setting, i: nat, s: State)
    requires Awaits(g, i, s) && Drains(g.passes(i))
    ensures Current(g, s.trace) == g.passes(i)
    ensures Follows(g, s.trace, Drained(ToolCalls(g.passes(i).backend.items)))
  {
    hide AllFollow;
    hide ContextAfter;
    hide ToolCalls;
    hide LastContinuation;
    hide Drains;
    DrainsIsStream(g.passes(i));
  }

  lemma DrainIsExplained(g: Setting, i: nat, s: State)
    requires Awaits(g, i, s) && Drains(g.passes(i))
    ensures var p := g.passes(i);
      var calls := ToolCalls(p.backend.items);
      var t := Shown(s, Drained(calls)).(continuation := LastContinuation(p.backend.items, s.continuation));
      && Asked(g, i, t) && Requests(t.trace) == Requests(s.trace)
      && SilentAnswers(t.trace) == s.blocked + if calls == 0 then 1 else 0
  {
    hide AllFollow;
    hide ContextAfter;
    hide ToolCalls;
    hide LastContinuation;
    hide Follows;
    hide Drains;
    DrainFollows(g, i, s);
    DrainsIsStream(g.passes(i));
    var step := Drained(ToolCalls(g.passes(i).backend.items));
    ShownIsAccounted(g, s, step);
    OneMore(s.trace, step);
    OneMoreCarried(g, s.trace, step);
  }

  lemma RestartIsExplained(g: Setting, i: nat, s: State)
    requires Awaits(g, i, s) && Restarts(g.passes(i), s) && g.passes(i).channelOpen
    ensures Head(g, i + 1, s.(continuation := false, reconstructed := true, steps := s.steps - 1))
  {
    hide AllFollow;
    hide ContextAfter;
    assert s.trace == [Requested(true)] && Current(g, s.trace) == g.passes(i);
    assert Reconstructs(g, s.trace);
  }

  lemma UnreadIsExplained(g: Setting, i: nat, s: State)
    requires Awaits(g, i, s) && !Drains(g.passes(i)) && !(Restarts(g.passes(i), s) && g.passes(i).channelOpen)
    ensures FlowIsExplained(g, i, Return(Failed(AnswerError(g, s.trace)), s))
    ensures AnswerPass(g.rules, g.request, g.passes(i), s) == Return(Failed(AnswerError(g, s.trace)), s)
  {
    hide AllFollow;
    hide ContextAfter;
    hide CompletePass;
    hide ToolsPass;
    assert Current(g, s.trace) == g.passes(i);
    assert Restarts(g.passes(i), s) <==> g.passes(i).backend.InvalidContinuation? && s.trace == [Requested(true)];
    FailsExplained(g, s, AnswerError(g, s.trace), false);
  }

  /** The answer to the request of pass number i. */
  lemma AnswerIsExplained(g: Setting, i: nat, s: State)
    requires Awaits(g, i, s)
    ensures FlowIsExplained(g, i, AnswerPass(g.rules, g.request, g.passes(i), s))
  {
    hide AllFollow;
    hide ContextAfter;
    hide CompletePass;
    hide ToolsPass;
    hide ToolCalls;
    hide LastContinuation;
    hide Head;
    hide Explained;
    var p := g.passes(i);
    if Drains(p) {
      var t := Shown(s, Drained(ToolCalls(p.backend.items))).(
        continuation := LastContinuation(p.backend.items, s.continuation));
      DrainIsExplained(g, i, s);
      if ToolCalls(p.backend.items) == 0 {
        SilenceIsExplained(g, i, t);
      } else {
        ToolsAreExplained(g, i, t);
      }
    } else if Restarts(p, s) && p.channelOpen {
      RestartIsExplained(g, i, s);
    } else {
      UnreadIsExplained(g, i, s);
    }
  }

  lemma PassIsExplained(g: Setting, i: nat, s: State)
    requires Head(g, i, s) && Between(g.request, s)
    ensures FlowIsExplained(g, i, RunPass(g.rules, g.request, g.passes(i), s))
  {
    hide AllFollow;
    hide ContextAfter;
    hide BetweenPasses;
    hide AnswerPass;
    hide FlowIsExplained;
    if Stops(g, s.trace) {
      StoppedIsExplained(g, i, s);
    } else {
      var step := Requested(s.continuation);
      var t := Shown(s, step).(steps := s.steps + 1);
      RequestIsExplained(g, i, s);
      OneMore(s.trace, step);
      AnswerIsExplained(g, i, t);
    }
  }

  /** Every turn from pass number i on is accounted for, and leaves the evidence that its steps
      leave. */
  lemma {:induction false} TurnIsExplained(g: Setting, i: nat, s: State)
    requires Head(g, i, s) && Between(g.request, s)
    ensures var end := Turn(g.rules, g.request, g.passes, i, s);
      && Explained(g, end.state.trace, end.outcome)
      && end.state.context == ContextAfter(g.rules, g.start, end.state.trace)
    decreases if s.reconstructed then 0 else 1, g.request.maxSteps - s.steps
  {
    hide Head;
    hide Between;
    hide RunPass;
    hide Explained;
    hide ContextAfter;
    PassIsExplained(g, i, s);
    PassIsRight(g.rules, g.request, g.passes(i), s);
    var flow := RunPass(g.rules, g.request, g.passes(i), s);
    if flow.Continue? {
      PassUsesUp(g.rules, g.request, g.passes(i), s);
      TurnIsExplained(g, i + 1, flow.state);
    }
  }

  lemma BeginningIsHead(g: Setting)
    ensures Head(g, 0, Beginning(g.request, g.start))
  {
  }

  lemma BeginningIsBetween(request: Request, c: Context)
    requires Good(c)
    ensures Between(request, Beginning(request, c))
  {
  }

  // ----- The loop -----

  /** Refreshes the evidence and the user's changes before completion, if the session has a root
      that is a directory. */
  method RefreshBeforeCompletion(engine: ContextEngine, p: Pass, t: Trace) returns (cancelled: bool, after: Trace)
    modifies engine
    ensures cancelled <==> old(engine.root) != "" && p.rootIsDir && p.cancelledAtRefresh
    ensures cancelled ==> after == t && engine.State() == old(engine.State())
    ensures !cancelled ==>
      if old(engine.root) == "" || !p.rootIsDir
      then after == t && engine.State() == old(engine.State())
      else var w := Workspace(old(engine.root), p.files);
        && after == t + [RefreshedFrom(w, p.dirty)]
        && engine.State() == AtCompletion(engine.rules, old(engine.State()), w, p.dirty)
  {
    hide Refresh;
    cancelled, after := false, t;
    if engine.root == "" || !p.rootIsDir {
      return;
    }
    if p.cancelledAtRefresh {
      cancelled := true;
      return;
    }
    var w := Workspace(engine.root, p.files);
    var _ := engine.RefreshAgainstWorkspace(w);
    engine.RecordUserModified(p.dirty);
    after := t + [RefreshedFrom(w, p.dirty)];
  }

  method ObserveAll(engine: ContextEngine, observations: seq<Observation>)
    requires Canonical(engine.rules)
    modifies engine
    ensures engine.State() == ObserveSeq(engine.rules, old(engine.State()), observations)
  {
    hide Observe;
    for i := 0 to |observations|
      invariant engine.State() == ObserveSeq(engine.rules, old(engine.State()), observations[..i])
    {
      assert observations[..i + 1][..i] == observations[..i];
      engine.ObserveResult(observations[i]);
    }
    assert observations[..|observations|] == observations;
  }

  /** The part of a pass after a drained stream without tool calls. */
  method Complete(engine: ContextEngine, request: Request, p: Pass, s: State) returns (flow: Flow)
    requires s.context == engine.State()
    modifies engine
    ensures flow == CompletePass(engine.rules, request, p, s) && engine.State() == flow.state.context
  {
    hide Refresh;
    hide Finishes;
    var ready, after := true, s.trace;
    if request.mode == Repository {
      var cancelled;
      cancelled, after := RefreshBeforeCompletion(engine, p, s.trace);
      if cancelled {
        return Return(Failed(Cancelled), s);
      }
      ready := engine.FinishTurn(p.gate);
    }
    var t := s.(context := engine.State(), trace := after);
    if !ready {
      var blocked := s.blocked + 1;
      if blocked >= MAX_BLOCKED_COMPLETIONS {
        return Return(Failed(CompletionBlocked), t);
      }
      return Continue(t.(blocked := blocked));
    }
    if !p.channelOpen {
      return Return(Failed(ChannelClosed), t);
    }
    return Return(Completed(s.steps), t.(trace := after + [DoneSent]));
  }

  /** The part of a pass after a drained stream with tool calls. */
  method RunTools(engine: ContextEngine, p: Pass, s: State) returns (flow: Flow)
    requires Canonical(engine.rules) && s.context == engine.State()
    modifies engine
    ensures flow == ToolsPass(engine.rules, p, s) && engine.State() == flow.state.context
  {
    hide ObserveSeq;
    if p.tools.ToolsFailed? {
      return Return(Failed(ToolFailure(p.tools.error)), s);
    }
    ObserveAll(engine, p.tools.observations);
    var t := s.(context := engine.State(), blocked := 0, trace := s.trace + [Executed(p.tools.observations)]);
    if p.tools.noProgress >= MAX_NO_PROGRESS {
      if p.channelOpen {
        t := t.(trace := t.trace + [ErrorSent]);
      }
      return Return(Failed(StepLimit), t);
    }
    return Continue(t);
  }

  lemma FlowKeeps(r: Rules, request: Request, p: Pass, s: State, calls: nat)
    ensures var flow := if calls == 0 then CompletePass(r, request, p, s) else ToolsPass(r, p, s);
      flow.Continue? ==> var t := flow.state;
        t.steps == s.steps && t.reconstructed == s.reconstructed && t.continuation == s.continuation
  {
    hide Refresh;
    hide ObserveSeq;
    hide Finishes;
  }

  /** One turn of the loop.  The result is the turn that the surroundings determine, so it has
      every guarantee of a turn. */
  method RunTurn(engine: ContextEngine, request: Request, passes: nat -> Pass) returns (outcome: Outcome, t: Trace)
    requires Canonical(engine.rules) && Good(engine.State())
    modifies engine
    ensures var end := Turn(engine.rules, request, passes, 0, Beginning(request, old(engine.State())));
      outcome == end.outcome && engine.State() == end.state.context && t == end.state.trace
    ensures var first := Beginning(request, old(engine.State()));
      var last := passes(LastPass(engine.rules, request, passes, 0, first));
      Guaranteed(engine.rules, request, last, outcome, Turn(engine.rules, request, passes, 0, first).state)
    ensures Explained(Setting(engine.rules, request, old(engine.State()), passes), t, outcome)
    ensures engine.State() == ContextAfter(engine.rules, old(engine.State()), t)
    ensures engine.root == old(engine.root)
  {
    hide Good;
    hide Guaranteed;
    hide Explained;
    hide ContextAfter;
    hide Head;
    hide CompletePass;
    hide ToolsPass;
    hide Turn;
    hide LastPass;
    hide Between;
    BeginningIsBetween(request, engine.State());
    TurnIsRight(engine.rules, request, passes, 0, Beginning(request, engine.State()));
    ghost var g := Setting(engine.rules, request, engine.State(), passes);
    BeginningIsHead(g);
    TurnIsExplained(g, 0, Beginning(request, engine.State()));
    ghost var whole := Turn(engine.rules, request, passes, 0, Beginning(request, engine.State()));
    var steps, reconstructed, continuation, blocked := 0, false, request.continuation, 0;
    var i: nat := 0;
    t := [];
    while true
      invariant steps <= request.maxSteps
      invariant whole == Turn(
        engine.rules, request, passes, i, State(engine.State(), steps, reconstructed, continuation, blocked, t))
      decreases if reconstructed then 0 else 1, request.maxSteps - steps
    {
      ghost var s := State(engine.State(), steps, reconstructed, continuation, blocked, t);
      TurnUnfolds(engine.rules, request, passes, i, s);
      var p := passes(i);
      i := i + 1;
      if p.cancelled || steps >= request.maxSteps {
        if p.channelOpen {
          t := t + [ErrorSent];
        }
        return Failed(if p.cancelled then Cancelled else StepLimit), t;
      }
      steps := steps + 1;
      t := t + [Requested(continuation)];
      if p.backend.CancelledWaiting? {
        return Failed(Cancelled), t;
      }
      if p.backend.InvalidContinuation? && steps == 1 && !reconstructed && continuation {
        continuation, reconstructed := false, true;
        if !p.channelOpen {
          return Failed(ChannelClosed), t;
        }
        steps := steps - 1;
        assert RunPass(engine.rules, request, p, s).state
          == State(engine.State(), steps, reconstructed, continuation, blocked, t);
        continue;
      }
      if !p.backend.Stream? {
        return Failed(BackendError), t;
      }
      var error, calls, next := Drain(p, continuation);
      if error.Some? {
        return Failed(error.value), t;
      }
      continuation := next;
      t := t + [Drained(calls)];
      var state := State(engine.State(), steps, reconstructed, continuation, blocked, t);
      var flow;
      if calls == 0 {
        flow := Complete(engine, request, p, state);
      } else {
        flow := RunTools(engine, p, state);
      }
      assert RunPass(engine.rules, request, p, s) == flow;
      FlowKeeps(engine.rules, request, p, state, calls);
      t, blocked := flow.state.trace, flow.state.blocked;
      if flow.Return? {
        return flow.outcome, t;
      }
    }
  }
}
