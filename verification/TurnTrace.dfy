/** What one turn shows. */
module TurnTrace {
  // The surroundings of a turn, its visible steps, and which steps may follow which.

  import opened Evidence
  import opened EvidenceRuns
  import opened Wrappers
  import Excerpts

  const MAX_BLOCKED_COMPLETIONS: nat := 3
  const MAX_NO_PROGRESS: nat := 6

  datatype Mode = Repository | ExternalResearch

  datatype Request = Request(maxSteps: nat, mode: Mode, continuation: bool)

  datatype StreamItem = TextDelta | ToolCall | Usage | Warning | Done(continuation: bool)

  datatype StreamEnd = Closed | Broken | CancelledMidway

  datatype Backend =
    | InvalidContinuation | BackendFailed | CancelledWaiting | Stream(items: seq<StreamItem>, end: StreamEnd)

  datatype Tools = Ran(observations: seq<Observation>, noProgress: nat) | ToolsFailed(error: AgentError)

  /** What the surroundings do during one pass of the loop. */
  datatype Pass = Pass(
    cancelled: bool, channelOpen: bool, backend: Backend, tools: Tools,
    rootIsDir: bool, files: map<Excerpts.Path, Bytes>, dirty: seq<Excerpts.Path>, cancelledAtRefresh: bool,
    gate: Gate)

  datatype AgentError = Cancelled | StepLimit | BackendError | ToolError | CompletionBlocked | ChannelClosed

  datatype Outcome = Completed(steps: nat) | Failed(error: AgentError)

  /** The visible steps of a turn. */
  datatype Step =
    | Requested(continuation: bool)
    | Drained(toolCalls: nat)      // the model's stream ended without an error
    | Executed(observations: seq<Observation>)
    | RefreshedFrom(workspace: Workspace, dirty: seq<Excerpts.Path>)
    | DoneSent
    | ErrorSent

  type Trace = seq<Step>

  // ----- What a trace says -----

  function Requests(t: Trace): nat {
    if t == [] then 0 else Requests(t[..|t| - 1]) + if t[|t| - 1].Requested? then 1 else 0
  }

  /** Model answers without tool calls since the last execution. */
  function SilentAnswers(t: Trace): nat {
    if t == [] || t[|t| - 1].Executed? then 0
    else SilentAnswers(t[..|t| - 1]) + if t[|t| - 1] == Drained(0) then 1 else 0
  }

  /** Tools run only right after a stream that was drained and asked for some. */
  predicate ExecutesAfterDrain(t: Trace) {
    forall j :: 0 <= j < |t| && t[j].Executed? ==> j > 0 && t[j - 1].Drained? && t[j - 1].toolCalls > 0
  }

  predicate Unfinished(t: Trace) {
    forall j :: 0 <= j < |t| ==> !t[j].DoneSent?
  }

  /** Only the first request is ever repeated, once, and without its continuation. */
  predicate RepeatsOnlyFirst(t: Trace) {
    forall j :: 0 <= j < |t| - 1 && t[j].Requested? && t[j + 1].Requested? ==>
      j == 0 && t[0].continuation && !t[1].continuation
  }

  lemma OneMoreExecutes(t: Trace, s: Step)
    requires ExecutesAfterDrain(t) && (s.Executed? ==> t != [] && t[|t| - 1].Drained? && t[|t| - 1].toolCalls > 0)
    ensures ExecutesAfterDrain(t + [s])
  {
    var u := t + [s];
    assert u[|t|] == s && forall j :: 0 <= j < |t| ==> u[j] == t[j];
  }

  /** A request may follow another only right after the first one. */
  predicate MayFollow(t: Trace, s: Step) {
    s.Requested? && t != [] && t[|t| - 1].Requested? ==> |t| == 1 && t[0].continuation && !s.continuation
  }

  lemma OneMoreRepeats(t: Trace, s: Step)
    requires RepeatsOnlyFirst(t) && MayFollow(t, s)
    ensures RepeatsOnlyFirst(t + [s])
  {
    var u := t + [s];
    assert u[|t|] == s && forall j :: 0 <= j < |t| ==> u[j] == t[j];
  }

  lemma OneMoreUnfinished(t: Trace, s: Step)
    requires Unfinished(t) && !s.DoneSent?
    ensures Unfinished(t + [s])
  {
  }

  lemma OneMoreCounts(t: Trace, s: Step)
    ensures Requests(t + [s]) == Requests(t) + if s.Requested? then 1 else 0
    ensures SilentAnswers(t + [s]) == if s.Executed? then 0 else SilentAnswers(t) + if s == Drained(0) then 1 else 0
  {
    assert (t + [s])[..|t|] == t;
  }

  lemma OneMore(t: Trace, s: Step)
    ensures Requests(t + [s]) == Requests(t) + if s.Requested? then 1 else 0
    ensures SilentAnswers(t + [s]) == if s.Executed? then 0 else SilentAnswers(t) + if s == Drained(0) then 1 else 0
    ensures ExecutesAfterDrain(t) && (s.Executed? ==> t != [] && t[|t| - 1].Drained? && t[|t| - 1].toolCalls > 0) ==>
      ExecutesAfterDrain(t + [s])
    ensures Unfinished(t) && !s.DoneSent? ==> Unfinished(t + [s])
    ensures RepeatsOnlyFirst(t) && MayFollow(t, s) ==> RepeatsOnlyFirst(t + [s])
  {
    hide ExecutesAfterDrain;
    hide RepeatsOnlyFirst;
    hide MayFollow;
    hide Unfinished;
    hide Requests;
    hide SilentAnswers;
    OneMoreCounts(t, s);
    if Unfinished(t) && !s.DoneSent? {
      OneMoreUnfinished(t, s);
    }
    if ExecutesAfterDrain(t) && (s.Executed? ==> t != [] && t[|t| - 1].Drained? && t[|t| - 1].toolCalls > 0) {
      OneMoreExecutes(t, s);
    }
    if RepeatsOnlyFirst(t) && MayFollow(t, s) {
      OneMoreRepeats(t, s);
    }
  }

  // ----- The stream -----

  function ToolCalls(items: seq<StreamItem>): nat {
    if items == [] then 0
    else ToolCalls(items[..|items| - 1]) + if items[|items| - 1].ToolCall? then 1 else 0
  }

  function LastContinuation(items: seq<StreamItem>, before: bool): bool {
    if items == [] then before
    else if items[|items| - 1].Done? then items[|items| - 1].continuation
    else LastContinuation(items[..|items| - 1], before)
  }

  /** Text, usage and warnings are passed on; tool calls and continuations are kept. */
  predicate Speaks(items: seq<StreamItem>) {
    exists i :: 0 <= i < |items| && !items[i].ToolCall? && !items[i].Done?
  }

  lemma {:induction false} ToolCallsIsCount(items: seq<StreamItem>)
    ensures ToolCalls(items) == |set i | 0 <= i < |items| && items[i].ToolCall?|
  {
    if items != [] {
      var n := |items| - 1;
      ToolCallsIsCount(items[..n]);
      var front := set i | 0 <= i < n && items[..n][i].ToolCall?;
      assert (set i | 0 <= i < |items| && items[i].ToolCall?) == front + if items[n].ToolCall? then {n} else {};
    }
  }

  /** A stream that gives no continuation keeps the one from before. */
  lemma {:induction false} NoContinuation(items: seq<StreamItem>, before: bool)
    requires forall i :: 0 <= i < |items| ==> !items[i].Done?
    ensures LastContinuation(items, before) == before
  {
    if items != [] {
      NoContinuation(items[..|items| - 1], before);
    }
  }

  /** The last continuation that a stream gives is the one that is kept. */
  lemma {:induction false} LastContinuationCounts(items: seq<StreamItem>, before: bool, i: nat)
    requires i < |items| && items[i].Done? && forall j :: i < j < |items| ==> !items[j].Done?
    ensures LastContinuation(items, before) == items[i].continuation
  {
    if i < |items| - 1 {
      LastContinuationCounts(items[..|items| - 1], before, i);
    }
  }

  // ----- What the steps do to the evidence -----

  /** What a step does to the evidence: a batch shows its results, and a refresh before completion
      also records the user's dirty paths. */
  function OpsOf(s: Step): seq<Op> {
    match s
    case Executed(os) => seq(|os|, i requires 0 <= i < |os| => Observed(os[i]))
    case RefreshedFrom(w, dirty) => [Refreshed(w), UserChanged(dirty)]
    case _ => []
  }

  function Ops(t: Trace): seq<Op> {
    if t == [] then [] else Ops(t[..|t| - 1]) + OpsOf(t[|t| - 1])
  }

  /** A run of operations from any context on. */
  function Replay(r: Rules, c: Context, ops: seq<Op>): Context {
    if ops == [] then c else Apply(r, Replay(r, c, ops[..|ops| - 1]), ops[|ops| - 1])
  }

  lemma {:induction false} ReplayTwice(r: Rules, c: Context, ops: seq<Op>, more: seq<Op>)
    ensures Replay(r, c, ops + more) == Replay(r, Replay(r, c, ops), more)
  {
    hide Apply;
    if more == [] {
      assert ops + more == ops;
    } else {
      var n := |more| - 1;
      assert (ops + more)[..|ops| + n] == ops + more[..n];
      ReplayTwice(r, c, ops, more[..n]);
    }
  }

  lemma {:induction false} ReplayIsRun(r: Rules, root: string, ops: seq<Op>)
    ensures Replay(r, EmptyContext(root), ops) == Run(r, root, ops)
  {
    hide Apply;
    if ops != [] {
      ReplayIsRun(r, root, ops[..|ops| - 1]);
    }
  }

  /** The evidence that the steps of a turn leave. */
  function ContextAfter(r: Rules, c: Context, t: Trace): Context {
    Replay(r, c, Ops(t))
  }

  lemma OneMoreOp(r: Rules, c: Context, t: Trace, s: Step)
    ensures ContextAfter(r, c, t + [s]) == Replay(r, ContextAfter(r, c, t), OpsOf(s))
  {
    assert (t + [s])[..|t|] == t;
    ReplayTwice(r, c, Ops(t), OpsOf(s));
  }

  /** The turns of a session are one run: what a turn leaves of a run's evidence is the evidence of
      the run continued with what the turn's steps do. */
  lemma TurnContinuesRun(r: Rules, root: string, ops: seq<Op>, t: Trace)
    ensures ContextAfter(r, Run(r, root, ops), t) == Run(r, root, ops + Ops(t))
  {
    ReplayIsRun(r, root, ops);
    ReplayIsRun(r, root, ops + Ops(t));
    ReplayTwice(r, EmptyContext(root), ops, Ops(t));
  }

  /** So a stale record stays stale over a turn unless one of its executed batches saw the file, for
      as long as it is held. */
  lemma StaleUntilShown(r: Rules, root: string, ops: seq<Op>, t: Trace, p: Excerpts.Path)
    requires StaleAt(Run(r, root, ops), p) && Held(ContextAfter(r, Run(r, root, ops), t), p)
    requires forall j, i :: 0 <= j < |t| && t[j].Executed? && 0 <= i < |t[j].observations| ==>
      !Sees(r, Observed(t[j].observations[i]), p)
    ensures StaleAt(ContextAfter(r, Run(r, root, ops), t), p)
  {
    UnseenOps(r, t, p);
    TurnContinuesRun(r, root, ops, t);
    StaleUntilSeen(r, root, ops, Ops(t), p);
  }

  lemma {:induction false} UnseenOps(r: Rules, t: Trace, p: Excerpts.Path)
    requires forall j, i :: 0 <= j < |t| && t[j].Executed? && 0 <= i < |t[j].observations| ==>
      !Sees(r, Observed(t[j].observations[i]), p)
    ensures forall i :: 0 <= i < |Ops(t)| ==> !Sees(r, Ops(t)[i], p)
  {
    if t != [] {
      UnseenOps(r, t[..|t| - 1], p);
    }
  }

  // ----- Which steps may follow -----

  /** What a turn starts from and what its surroundings do. */
  datatype Setting = Setting(rules: Rules, request: Request, start: Context, passes: nat -> Pass)

  function Current(g: Setting, t: Trace): Pass {
    g.passes(if Requests(t) > 0 then Requests(t) - 1 else 0)
  }

  /** The stream is read to its end: it neither breaks nor is cancelled, and what it says reaches
      somebody. */
  predicate Drains(p: Pass) {
    && p.backend.Stream? && p.backend.end.Closed?
    && (p.channelOpen || !Speaks(p.backend.items))
  }

  function ItemsOf(p: Pass): seq<StreamItem> {
    if p.backend.Stream? then p.backend.items else []
  }

  /** The first request was repeated, or is about to be. */
  predicate Repeated(t: Trace) {
    t != [] && t[0].Requested? && (|t| == 1 || t[1].Requested?)
  }

  function StepsTaken(t: Trace): nat {
    if Repeated(t) && Requests(t) > 0 then Requests(t) - 1 else Requests(t)
  }

  /** The continuation that a turn has after these steps. */
  function Carried(g: Setting, t: Trace): bool {
    if t == [] then g.request.continuation
    else
      match t[|t| - 1]
      case Requested(c) => c
      case Drained(_) => LastContinuation(ItemsOf(Current(g, t)), Carried(g, t[..|t| - 1]))
      case _ => Carried(g, t[..|t| - 1])
  }

  /** A request is repeated without its continuation. */
  function NextContinuation(g: Setting, t: Trace): bool {
    (t == [] || !t[|t| - 1].Requested?) && Carried(g, t)
  }

  /** A repository turn whose root is a directory refreshes its evidence before it completes. */
  predicate Live(g: Setting, p: Pass) {
    g.request.mode == Repository && g.start.root != "" && p.rootIsDir
  }

  /** Nothing drifted, nothing is stale, and the workflow agrees; research turns need none of it. */
  ghost predicate Ready(g: Setting, t: Trace) {
    var s := ContextAfter(g.rules, g.start, t);
    g.request.mode == Repository ==>
      && !s.workspaceChanged && (forall f :: f in s.inspected ==> !f.stale)
      && Current(g, t).gate(s.modified, UsersChangesStay(g.rules, s))
  }

  /** No path that the session changed overlaps one that the user did. */
  predicate UsersChangesStay(r: Rules, s: Context) {
    forall p, q :: p in s.userModified && q in s.modified ==> !r.overlap(p, q)
  }

  /** The first request failed because its continuation was unusable, and somebody can be told. */
  predicate Reconstructs(g: Setting, t: Trace) {
    |t| == 1 && t[0] == Requested(true) && Current(g, t).backend.InvalidContinuation? && Current(g, t).channelOpen
  }

  /** The model was silent, and the evidence is refreshed if it is to be. */
  predicate SilentEnd(g: Setting, t: Trace) {
    t != [] && (t[|t| - 1].RefreshedFrom? || (t[|t| - 1] == Drained(0) && !Live(g, Current(g, t))))
  }

  predicate GoesOn(g: Setting, t: Trace) {
    && t != [] && t[|t| - 1].Executed?
    && Current(g, t).tools.Ran? && Current(g, t).tools.noProgress < MAX_NO_PROGRESS
  }

  /** A pass of the loop ends here and another one begins. */
  ghost predicate BetweenPasses(g: Setting, t: Trace) {
    || t == [] || Reconstructs(g, t) || GoesOn(g, t)
    || (SilentEnd(g, t) && !Ready(g, t) && SilentAnswers(t) < MAX_BLOCKED_COMPLETIONS)
  }

  /** The next pass makes no request. */
  predicate Stops(g: Setting, t: Trace) {
    g.passes(Requests(t)).cancelled || StepsTaken(t) >= g.request.maxSteps
  }

  predicate Stalls(g: Setting, t: Trace) {
    && t != [] && t[|t| - 1].Executed?
    && Current(g, t).tools.Ran? && Current(g, t).tools.noProgress >= MAX_NO_PROGRESS
  }

  /** After the steps of t comes this one. */
  ghost predicate Follows(g: Setting, t: Trace, s: Step) {
    var p := Current(g, t);
    match s
    case Requested(c) =>
      BetweenPasses(g, t) && !Stops(g, t) && c == NextContinuation(g, t)
    case Drained(n) =>
      t != [] && t[|t| - 1].Requested? && !Reconstructs(g, t) && Drains(p) && n == ToolCalls(p.backend.items)
    case Executed(os) =>
      t != [] && t[|t| - 1].Drained? && t[|t| - 1].toolCalls > 0 && p.tools.Ran? && os == p.tools.observations
    case RefreshedFrom(w, dirty) =>
      && t != [] && t[|t| - 1] == Drained(0) && Live(g, p) && !p.cancelledAtRefresh
      && w == Workspace(g.start.root, p.files) && dirty == p.dirty
    case DoneSent =>
      SilentEnd(g, t) && Ready(g, t) && p.channelOpen
    case ErrorSent =>
      (BetweenPasses(g, t) && Stops(g, t) && g.passes(Requests(t)).channelOpen) || (Stalls(g, t) && p.channelOpen)
  }

  // ----- How a turn ends -----

  /** Why the answer to a request is not read to its end. */
  function AnswerError(g: Setting, t: Trace): AgentError {
    var p := Current(g, t);
    if p.backend.CancelledWaiting? then Cancelled
    else if p.backend.InvalidContinuation? && t == [Requested(true)] then ChannelClosed
    else if !p.backend.Stream? then BackendError
    else if !p.channelOpen && Speaks(p.backend.items) then ChannelClosed
    else if p.backend.end.Broken? then BackendError else Cancelled
  }

  /** The turn fails after the steps of t; said tells whether the user is told about it. */
  ghost predicate FailsAfter(g: Setting, t: Trace, e: AgentError, said: bool) {
    var p := Current(g, t);
    || (BetweenPasses(g, t) && Stops(g, t) && said == g.passes(Requests(t)).channelOpen
        && e == if g.passes(Requests(t)).cancelled then Cancelled else StepLimit)
    || (Stalls(g, t) && said == p.channelOpen && e == StepLimit)
    || (t != [] && !said && (
          || (t[|t| - 1].Requested? && !Reconstructs(g, t) && !Drains(p) && e == AnswerError(g, t))
          || (t[|t| - 1] == Drained(0) && Live(g, p) && p.cancelledAtRefresh && e == Cancelled)
          || (SilentEnd(g, t) && Ready(g, t) && !p.channelOpen && e == ChannelClosed)
          || (SilentEnd(g, t) && !Ready(g, t) && SilentAnswers(t) >= MAX_BLOCKED_COMPLETIONS && e == CompletionBlocked)
          || (t[|t| - 1].Drained? && t[|t| - 1].toolCalls > 0 && p.tools.ToolsFailed?
              && e == if p.tools.error == CompletionBlocked then ToolError else p.tools.error)))
  }

  ghost predicate Ends(g: Setting, t: Trace, outcome: Outcome) {
    match outcome
    case Completed(n) => t != [] && t[|t| - 1] == DoneSent && n == StepsTaken(t)
    case Failed(e) =>
      FailsAfter(g, t, e, false) || (t != [] && t[|t| - 1] == ErrorSent && FailsAfter(g, t[..|t| - 1], e, true))
  }

  ghost predicate AllFollow(g: Setting, t: Trace) {
    forall j :: 0 <= j < |t| ==> Follows(g, t[..j], t[j])
  }

  /** The turn is accounted for: every step follows the ones before it, and it ends for a reason. */
  ghost predicate Explained(g: Setting, t: Trace, outcome: Outcome) {
    AllFollow(g, t) && Ends(g, t, outcome)
  }

  // ----- There is one account only -----

  lemma NextIsUnique(g: Setting, t: Trace, a: Step, b: Step)
    requires Follows(g, t, a) && Follows(g, t, b)
    ensures a == b
  {
    hide ContextAfter;
    hide Ready;
  }

  lemma EndIsUnique(g: Setting, t: Trace, a: Outcome, b: Outcome)
    requires Ends(g, t, a) && Ends(g, t, b)
    ensures a == b
  {
    hide ContextAfter;
    hide Ready;
  }

  lemma NothingFollowsTheEnd(g: Setting, t: Trace, o: Outcome, s: Step)
    requires Ends(g, t, o)
    ensures !Follows(g, t, s)
  {
    hide ContextAfter;
    hide Ready;
  }

  lemma {:induction false} SameFront(g: Setting, t: Trace, u: Trace, k: nat)
    requires AllFollow(g, t) && AllFollow(g, u) && k <= |t| && k <= |u|
    ensures t[..k] == u[..k]
  {
    hide Follows;
    if k > 0 {
      SameFront(g, t, u, k - 1);
      NextIsUnique(g, t[..k - 1], t[k - 1], u[k - 1]);
    }
  }

  lemma NotLonger(g: Setting, t: Trace, a: Outcome, u: Trace)
    requires Explained(g, t, a) && AllFollow(g, u)
    ensures |u| <= |t|
  {
    hide Follows;
    hide Ends;
    if |t| < |u| {
      SameFront(g, t, u, |t|);
      assert t[..|t|] == t;
      NothingFollowsTheEnd(g, t, a, u[|t|]);
    }
  }

  /** What surrounds a turn determines its steps and how it ends. */
  lemma ExplainedIsUnique(g: Setting, t: Trace, a: Outcome, u: Trace, b: Outcome)
    requires Explained(g, t, a) && Explained(g, u, b)
    ensures t == u && a == b
  {
    hide Follows;
    hide Ends;
    NotLonger(g, t, a, u);
    NotLonger(g, u, b, t);
    SameFront(g, t, u, |t|);
    assert t[..|t|] == t && u[..|u|] == u;
    EndIsUnique(g, t, a, b);
  }

  // ----- One more step -----

  lemma OneMoreFollows(g: Setting, t: Trace, s: Step)
    requires AllFollow(g, t) && Follows(g, t, s)
    ensures AllFollow(g, t + [s])
  {
    hide Follows;
    var u := t + [s];
    forall j | 0 <= j < |u| ensures Follows(g, u[..j], u[j]) {
      assert u[..j] == t[..j];
      assert t[..|t|] == t;
    }
  }

  lemma OneMoreCarried(g: Setting, t: Trace, s: Step)
    requires s.Requested? || Requests(t) > 0
    ensures Current(g, t + [s]) == if s.Requested? then g.passes(Requests(t)) else Current(g, t)
    ensures Carried(g, t + [s]) ==
      if s.Requested? then s.continuation
      else if s.Drained? then LastContinuation(ItemsOf(Current(g, t)), Carried(g, t))
      else Carried(g, t)
  {
    hide LastContinuation;
    assert (t + [s])[..|t|] == t;
  }
}
