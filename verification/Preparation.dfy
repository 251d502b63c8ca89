/** Preparing a batch of tool calls: permission, gate, footprint. */
module Preparation {
  // Each call is decided by the broker while the terminal (and other users of the same
  // broker) keep acting on it; the `Wait` script of a call lists what they do before the
  // call's decision arrives.  The result ties every permit to the broker's history, so a
  // call that carries a permission request can only run after the user allowed it.

  import opened Wrappers
  import opened Footprint
  import opened Permission

  const MAX_TOOL_CALLS_PER_STEP: nat := 64

  datatype ToolResult = ToolResult(callId: CallId, ok: bool, code: string)

  /** A registry-prepared action; `requirement` is the class of its tool. */
  datatype Action = Action(
    callId: CallId, tool: string, requirement: PermissionClass, request: Option<Request>, effects: Footprint)

  datatype Permit = Permit(callId: CallId, tool: string, permission: PermissionClass)

  datatype Call = Call(action: Action, permit: Option<Permit>, preflight: Option<ToolResult>, footprint: Footprint)
  {
    predicate Executed() {
      permit.Some? && preflight.None?
    }
  }

  datatype Wait = Wait(cancelledBefore: bool, events: seq<Event>, cancelledAfter: bool)

  datatype PrepareError = TooManyCalls | Cancelled

  // ----- The gate -----

  datatype TurnMode = Repository | ExternalResearch

  const RESEARCH_TOOLS: set<string> := {
    "read", "list", "find", "search", "git", "browser.tabs", "browser.navigate", "browser.snapshot",
    "browser.find", "browser.wait", "browser.performance_audit"
  }

  /** The pre-execution gate of a turn: the research boundary, then the rest of the policy. */
  datatype Gate = Gate(mode: TurnMode, policy: Action -> Option<ToolResult>)
  {
    function Preflight(a: Action): Option<ToolResult> {
      if mode == ExternalResearch && a.tool !in RESEARCH_TOOLS
      then Some(ToolResult(a.callId, false, "research_tool_blocked"))
      else policy(a)
    }
  }

  /** A research turn does not prompt for actions its gate will reject. */
  function ForMode(mode: TurnMode, a: Action): Action {
    if mode == ExternalResearch && a.tool !in RESEARCH_TOOLS then a.(request := None) else a
  }

  // ----- What a permit means -----

  /** Event k decides this request and the user allowed it: the question asked there was
      answered with an allow, or a session grant that the user gave earlier covered it. */
  ghost predicate Authorized(h: seq<Event>, k: nat, r: Request) {
    k < |h| && h[k] == Decide(r) && (GrantCovered(h, k) || AllowedAt(h, k))
  }

  ghost predicate GrantCovered(h: seq<Event>, k: int)
    requires 0 <= k < |h| && h[k].Decide?
  {
    GrantedByUser(h[..k], h[k].request.tool, h[k].request.permission)
  }

  ghost predicate AllowedAt(h: seq<Event>, k: int) {
    exists m, d :: Answered(h, k, m, d) && d != Deny
  }

  /** The question that event k asked about this request was denied or dropped. */
  ghost predicate Refused(h: seq<Event>, k: nat, r: Request) {
    exists m :: RefusedAt(h, r, k, m)
  }

  predicate RefusedAt(h: seq<Event>, r: Request, k: int, m: int) {
    && 0 <= k < m < |h|
    && h[k] == Decide(r)
    && Open(h, k, m)
    && Disturbs(h, m, r.callId)
    && (h[m].Resolve? ==> h[m].decision == Deny)
  }

  lemma AuthorizedExtends(h: seq<Event>, more: seq<Event>, k: nat, r: Request)
    requires Authorized(h, k, r)
    ensures Authorized(h + more, k, r)
  {
    var g := h + more;
    assert g[..|h|] == h && g[..k] == h[..k];
    if AllowedAt(h, k) {
      var m, d :| Answered(h, k, m, d) && d != Deny;
      AnsweredInPrefix(g, |h|, k, m, d);
      assert AllowedAt(g, k);
    }
  }

  lemma RefusedExtends(h: seq<Event>, more: seq<Event>, k: nat, r: Request)
    requires Refused(h, k, r)
    ensures Refused(h + more, k, r)
  {
    var g := h + more;
    assert g[..|h|] == h;
    var m :| RefusedAt(h, r, k, m);
    OpenInPrefix(g, |h|, k, m);
    assert g[..m] == h[..m];
    assert RefusedAt(g, r, k, m);
  }

  /** An answer belongs to one question: what allows or refuses call k says nothing about any
      other call, even one with the same request. */
  lemma AnswerIsUsedOnce(h: seq<Event>, k: nat, other: nat, m: nat, r: Request)
    requires k != other && other < |h| && h[other] == Decide(r) && k < |h| && h[k] == Decide(r)
    requires Open(h, k, m)
    ensures !Open(h, other, m)
  {
    if Open(h, other, m) {
      assert Disturbs(h, if k < other then other else k, r.callId);
    }
  }

  /** What the preparation of one action, begun after k events, must have recorded in its call. */
  ghost predicate PreparedFrom(h: seq<Event>, k: nat, gate: Gate, a: Action, c: Call) {
    && c.action == a
    && (c.permit.Some? ==>
          var granted := if a.request.Some? then a.request.value.permission else a.requirement;
          c.permit.value == Permit(a.callId, a.tool, granted))
    && (c.permit.Some? && a.request.Some? ==> Authorized(h, k, a.request.value))
    && (c.permit.None? ==> a.request.Some? && Refused(h, k, a.request.value))
    && c.preflight == (if c.permit.Some? then gate.Preflight(a) else None)
    && c.footprint == (if c.Executed() then a.effects else EMPTY)
  }

  lemma PreparedFromExtends(h: seq<Event>, more: seq<Event>, k: nat, gate: Gate, a: Action, c: Call)
    requires PreparedFrom(h, k, gate, a, c)
    ensures PreparedFrom(h + more, k, gate, a, c)
  {
    if a.request.Some? {
      if c.permit.Some? {
        AuthorizedExtends(h, more, k, a.request.value);
      } else {
        RefusedExtends(h, more, k, a.request.value);
      }
    }
  }

  lemma FirstDisturbance(h: seq<Event>, k: nat, m: nat, n: nat, r: Request)
    requires k < |h| && h[k] == Decide(r) && Open(h, k, m) && Open(h, k, n)
    requires Disturbs(h, m, r.callId) && Disturbs(h, n, r.callId)
    ensures m == n
  {
  }

  /** What refuses a question excludes that it is or was allowed. */
  lemma RefusedIsNotAuthorized(h: seq<Event>, k: nat, r: Request)
    requires Refused(h, k, r)
    ensures !Authorized(h, k, r)
  {
    var m :| RefusedAt(h, r, k, m);
    if Authorized(h, k, r) {
      GrantIsUserAnswer(h[..k], r.tool, r.permission);
      assert !GrantCovered(h, k);
      var n, d :| Answered(h, k, n, d) && d != Deny;
      FirstDisturbance(h, k, m, n, r);
    }
  }

  /** A prepared action may run: it asked for nothing or was allowed, the policy lets it pass, and
      in a research turn it is a research tool. */
  ghost predicate MayRun(h: seq<Event>, k: nat, gate: Gate, a: Action) {
    && (a.request.None? || Authorized(h, k, a.request.value))
    && gate.policy(a) == None
    && (gate.mode == Repository || a.tool in RESEARCH_TOOLS)
  }

  /** The answer of an action that may not run. */
  ghost function RefusalOf(h: seq<Event>, k: nat, gate: Gate, a: Action): ToolResult
    requires !MayRun(h, k, gate, a)
  {
    if gate.mode == ExternalResearch && a.tool !in RESEARCH_TOOLS
    then ToolResult(a.callId, false, "research_tool_blocked")
    else if a.request.Some? && !Authorized(h, k, a.request.value)
    then ToolResult(a.callId, false, "permission_denied")
    else gate.policy(a).value
  }

  /** A call is executed exactly when its action may run. */
  lemma ExecutedIff(h: seq<Event>, k: nat, gate: Gate, a: Action, c: Call)
    requires PreparedFrom(h, k, gate, ForMode(gate.mode, a), c)
    ensures c.Executed() <==> MayRun(h, k, gate, a)
    ensures c.Executed() ==> c.action == a
    ensures !c.Executed() ==>
      if c.permit.None? then RefusalOf(h, k, gate, a) == ToolResult(c.action.callId, false, "permission_denied")
      else c.preflight == Some(RefusalOf(h, k, gate, a))
  {
    hide Authorized;
    hide Refused;
    if c.permit.None? {
      RefusedIsNotAuthorized(h, k, c.action.request.value);
    }
  }

  /** A call that will run keeps the effects its action declared. */
  predicate KeepsEffects(calls: seq<Call>) {
    forall i :: 0 <= i < |calls| && calls[i].Executed() ==> calls[i].footprint == calls[i].action.effects
  }

  // ----- Waiting for one decision -----

  /** The question asked about r after history h is not answered by what others do next. */
  predicate Unanswered(h: seq<Event>, r: Request, events: seq<Event>) {
    var g := h + [Decide(r)] + events;
    Open(g, |h|, |g|)
  }

  /** The turn is cancelled while this action waits for its decision, or right after it. */
  predicate Interrupted(h: seq<Event>, a: Action, wait: Wait) {
    a.request.Some? && (wait.cancelledAfter || Unanswered(h, a.request.value, wait.events))
  }

  /** What others do until question k is closed. */
  function UntilClosed(h: seq<Event>, k: int, events: seq<Event>): seq<Event>
    decreases |events|
  {
    if events == [] || !Open(h, k, |h|) then h else UntilClosed(h + [events[0]], k, events[1..])
  }

  lemma StillWaits(h: seq<Event>, k: int, script: seq<Event>, i: nat)
    requires i < |script| && Open(h, k, |h|)
    ensures UntilClosed(h, k, script[i..]) == UntilClosed(h + [script[i]], k, script[i + 1..])
  {
    assert script[i..][0] == script[i] && script[i..][1..] == script[i + 1..];
  }

  lemma WaitEnds(h: seq<Event>, k: int, events: seq<Event>)
    requires events == [] || !Open(h, k, |h|)
    ensures UntilClosed(h, k, events) == h
  {
  }

  /** The broker's history after the preparation of one action, cancelled ones included. */
  function AfterPreparing(h: seq<Event>, a: Action, wait: Wait): seq<Event> {
    if a.request.None? then h
    else
      var asked := h + [Decide(a.request.value)];
      var closed := if Asked(asked, |h|) then UntilClosed(asked, |h|, wait.events) else asked;
      if Interrupted(h, a, wait) then closed + [Cancel(a.callId)] else closed
  }

  lemma DisturbedIsAnswered(h: seq<Event>, r: Request, events: seq<Event>, g: seq<Event>, m: nat)
    requires |h| < m < |g| && g <= h + [Decide(r)] + events && Disturbs(g, m, r.callId)
    ensures !Unanswered(h, r, events)
  {
    var whole := h + [Decide(r)] + events;
    assert whole[..m] == g[..m] && whole[m] == g[m];
    assert Disturbs(whole, m, r.callId) && whole[|h|] == Decide(r);
  }

  lemma GrantedIsAnswered(h: seq<Event>, r: Request, events: seq<Event>)
    requires !Asked(h + [Decide(r)], |h|)
    ensures !Unanswered(h, r, events)
  {
    var asked, whole := h + [Decide(r)], h + [Decide(r)] + events;
    assert whole[..|h|] == asked[..|h|] && whole[|h|] == asked[|h|];
  }

  lemma OpenIsUnanswered(h: seq<Event>, r: Request, events: seq<Event>)
    requires var g := h + [Decide(r)] + events; Open(g, |h|, |g|)
    ensures Unanswered(h, r, events)
  {
  }

  lemma OneMoreEvent(h: seq<Event>, event: Event, k: nat, r: Request)
    requires Open(h, k, |h|) && h[k] == Decide(r)
    ensures var g := h + [event]; Open(g, k, |h|) && (Open(g, k, |g|) <==> !Disturbs(g, |h|, r.callId))
  {
    var g := h + [event];
    assert g[..|h|] == h;
    OpenInPrefix(g, |h|, k, |h|);
  }

  /** One event of the other users; tells whether it closes or replaces question `id`. */
  method LetAct(broker: SessionPermissionBroker, event: Event, id: CallId) returns (closes: bool)
    requires broker.Valid()
    modifies broker
    ensures broker.Valid() && broker.history == old(broker.history) + [event]
    ensures closes <==> Disturbs(broker.history, |old(broker.history)|, id)
  {
    ghost var h := broker.history;
    match event {
      case Decide(r) =>
        var immediate := broker.Decide(r);
        closes := r.callId == id && immediate.None?;
      case Resolve(other, d) =>
        var _ := broker.Resolve(other, d, true);
        closes := other == id;
      case Cancel(other) =>
        broker.Cancel(other);
        closes := other == id;
    }
    assert broker.history[..|h|] == h;
  }

  lemma ClosedByResolve(h: seq<Event>, m: nat, id: CallId)
    requires m < |h| && Disturbs(h, m, id) && h[m].Resolve?
    ensures h[m] == Resolve(id, h[m].decision)
  {
  }

  /** Lets the other users of the broker act until the question asked by the last event of
      the history is answered or dropped; None when they never do either. */
  method AwaitDecision(broker: SessionPermissionBroker, request: Request, script: seq<Event>)
    returns (decision: Option<Decision>)
    requires broker.Valid()
    requires broker.history != [] && broker.history[|broker.history| - 1] == Decide(request)
    requires Asked(broker.history, |broker.history| - 1)
    modifies broker
    ensures broker.Valid()
    ensures old(broker.history) <= broker.history <= old(broker.history) + script
    ensures broker.history == UntilClosed(old(broker.history), |old(broker.history)| - 1, script)
    ensures var h, k := broker.history, |old(broker.history)| - 1;
      && (decision.None? ==> h == old(broker.history) + script && Open(h, k, |h|))
      && (decision.Some? ==>
            && k < |h| - 1
            && (decision.value != Deny ==> Answered(h, k, |h| - 1, decision.value))
            && (decision.value == Deny ==> RefusedAt(h, request, k, |h| - 1)))
  {
    hide Asked;
    hide Disturbs;
    hide UntilClosed;
    ghost var before := broker.history;
    ghost var k := |before| - 1;
    for i := 0 to |script|
      invariant broker.Valid() && broker.history == before + script[..i]
      invariant Open(broker.history, k, |broker.history|)
      invariant UntilClosed(before, k, script) == UntilClosed(broker.history, k, script[i..])
    {
      StillWaits(broker.history, k, script, i);
      OneMoreEvent(broker.history, script[i], k, request);
      assert script[..i + 1] == script[..i] + [script[i]] && script == script[..i + 1] + script[i + 1..];
      var closes := LetAct(broker, script[i], request.callId);
      if closes {
        WaitEnds(broker.history, k, script[i + 1..]);
        if script[i].Resolve? {
          ClosedByResolve(broker.history, |broker.history| - 1, request.callId);
        }
        return Some(if script[i].Resolve? then script[i].decision else Deny);
      }
    }
    decision := None;
    assert script[..|script|] == script;
    WaitEnds(broker.history, k, script[|script|..]);
  }

  /** The decision for one requested action; None exactly when the turn is cancelled meanwhile. */
  method DecideOne(action: Action, wait: Wait, broker: SessionPermissionBroker)
    returns (decision: Option<Decision>)
    requires broker.Valid() && action.request.Some?
    modifies broker
    ensures broker.Valid() && old(broker.history) < broker.history
    ensures broker.history == AfterPreparing(old(broker.history), action, wait)
    ensures decision.None? <==> Interrupted(old(broker.history), action, wait)
    ensures decision.Some? && decision.value != Deny ==>
      Authorized(broker.history, |old(broker.history)|, action.request.value)
    ensures decision.Some? && decision.value == Deny ==>
      Refused(broker.history, |old(broker.history)|, action.request.value)
  {
    hide UntilClosed;
    hide Unanswered;
    var request := action.request.value;
    ghost var h := broker.history;
    var immediate := broker.Decide(request);
    ghost var g := broker.history;
    assert g[..|h|] == h && g[|h|] == Decide(request);
    if immediate.Some? {
      decision := immediate;
      GrantIsUserAnswer(h, request.tool, request.permission);
      assert GrantCovered(g, |h|);
      GrantedIsAnswered(h, request, wait.events);
    } else {
      assert Asked(g, |h|);
      decision := AwaitDecision(broker, request, wait.events);
      if decision.Some? {
        assert Disturbs(broker.history, |broker.history| - 1, request.callId);
        DisturbedIsAnswered(h, request, wait.events, broker.history, |broker.history| - 1);
      }
      if decision.None? {
        OpenIsUnanswered(h, request, wait.events);
      } else if decision.value != Deny {
        assert AllowedAt(broker.history, |h|);
      }
    }
    if decision.None? || wait.cancelledAfter {
      broker.Cancel(action.callId);
      decision := None;
    }
  }

  // ----- Preparing the batch -----

  lemma PreparedFromLater(h: seq<Event>, g: seq<Event>, k: nat, gate: Gate, a: Action, c: Call)
    requires PreparedFrom(h, k, gate, a, c) && h <= g
    ensures PreparedFrom(g, k, gate, a, c)
  {
    assert g == h + g[|h|..];
    PreparedFromExtends(h, g[|h|..], k, gate, a, c);
  }

  /** Prepares one call of a batch; None exactly when the turn is cancelled meanwhile. */
  method PrepareOne(action: Action, wait: Wait, broker: SessionPermissionBroker, gate: Gate)
    returns (call: Option<Call>)
    requires broker.Valid()
    modifies broker
    ensures broker.Valid() && old(broker.history) <= broker.history
    ensures action.request.Some? ==> old(broker.history) < broker.history
    ensures broker.history == AfterPreparing(old(broker.history), action, wait)
    ensures call.None? <==> Interrupted(old(broker.history), action, wait)
    ensures call.Some? ==> PreparedFrom(broker.history, |old(broker.history)|, gate, action, call.value)
  {
    var permit := None;
    if action.request.Some? {
      var decision := DecideOne(action, wait, broker);
      if decision.None? {
        return None;
      }
      if decision.value != Deny {
        permit := Some(Permit(action.callId, action.tool, action.request.value.permission));
      }
    } else {
      permit := Some(Permit(action.callId, action.tool, action.requirement));
    }
    var preflight := if permit.Some? then gate.Preflight(action) else None;
    var footprint := if permit.Some? && preflight.None? then action.effects else EMPTY;
    return Some(Call(action, permit, preflight, footprint));
  }

  /** The history lengths at which the preparations of a batch began: none earlier than the
      batch, and those of actions with a request all different. */
  predicate BeganAt(begun: seq<nat>, actions: seq<Action>, from: nat, to: nat) {
    && |begun| <= |actions|
    && (forall i :: 0 <= i < |begun| ==>
          from <= begun[i] && begun[i] + (if actions[i].request.Some? then 1 else 0) <= to)
    && (forall i, j :: 0 <= i < j < |begun| ==> begun[i] + (if actions[i].request.Some? then 1 else 0) <= begun[j])
  }

  /** The broker's history when the preparation of action i begins. */
  function BeginOf(h: seq<Event>, actions: seq<Action>, script: seq<Wait>, i: nat): seq<Event>
    requires i <= |actions| && i <= |script|
  {
    if i == 0 then h else AfterPreparing(BeginOf(h, actions, script, i - 1), actions[i - 1], script[i - 1])
  }

  /** The preparation of action i is cancelled: before it begins, or while it waits. */
  predicate InterruptedAt(h: seq<Event>, actions: seq<Action>, script: seq<Wait>, i: nat)
    requires i < |actions| && i < |script|
  {
    script[i].cancelledBefore || Interrupted(BeginOf(h, actions, script, i), actions[i], script[i])
  }

  predicate SomeInterrupted(h: seq<Event>, actions: seq<Action>, script: seq<Wait>) {
    exists i :: 0 <= i < |actions| && i < |script| && InterruptedAt(h, actions, script, i)
  }

  predicate NoneCancelled(actions: seq<Action>, script: seq<Wait>) {
    forall i :: 0 <= i < |actions| && i < |script| ==>
      !script[i].cancelledBefore && (actions[i].request.Some? ==> !script[i].cancelledAfter)
  }

  /** The calls of a batch that began at history h, each prepared from its own question, none of
      them cancelled; g is the history now. */
  ghost predicate AllPrepared(
    h: seq<Event>, g: seq<Event>, actions: seq<Action>, script: seq<Wait>, gate: Gate, calls: seq<Call>,
    begun: seq<nat>)
  {
    && |calls| == |begun| <= |actions| <= |script|
    && h <= g && g == BeginOf(h, actions, script, |calls|)
    && BeganAt(begun, actions, |h|, |g|)
    && (forall i :: 0 <= i < |calls| ==> begun[i] == |BeginOf(h, actions, script, i)|)
    && (forall i :: 0 <= i < |calls| ==> !InterruptedAt(h, actions, script, i))
    && (forall i :: 0 <= i < |calls| ==> PreparedFrom(g, begun[i], gate, actions[i], calls[i]))
  }

  lemma OneMoreBegan(begun: seq<nat>, actions: seq<Action>, from: nat, to: nat, next: nat)
    requires BeganAt(begun, actions, from, to) && from <= to <= next && |begun| < |actions|
    requires actions[|begun|].request.Some? ==> to < next
    ensures BeganAt(begun + [to], actions, from, next)
  {
  }

  lemma NextBegin(h: seq<Event>, actions: seq<Action>, script: seq<Wait>, i: nat)
    requires i < |actions| && i < |script|
    ensures BeginOf(h, actions, script, i + 1)
      == AfterPreparing(BeginOf(h, actions, script, i), actions[i], script[i])
  {
  }

  lemma OneMorePrepared(
    h: seq<Event>, g: seq<Event>, actions: seq<Action>, script: seq<Wait>, gate: Gate, calls: seq<Call>,
    begun: seq<nat>, next: seq<Event>, call: Call)
    requires AllPrepared(h, g, actions, script, gate, calls, begun) && |calls| < |actions|
    requires !InterruptedAt(h, actions, script, |calls|)
    requires next == AfterPreparing(g, actions[|calls|], script[|calls|]) && g <= next
    requires actions[|calls|].request.Some? ==> g < next
    requires PreparedFrom(next, |g|, gate, actions[|calls|], call)
    ensures AllPrepared(h, next, actions, script, gate, calls + [call], begun + [|g|])
  {
    hide PreparedFrom;
    hide AfterPreparing;
    hide InterruptedAt;
    hide BeganAt;
    hide BeginOf;
    OneMoreBegan(begun, actions, |h|, |g|, |next|);
    NextBegin(h, actions, script, |calls|);
    var more, times := calls + [call], begun + [|g|];
    forall i | 0 <= i < |more| ensures PreparedFrom(next, times[i], gate, actions[i], more[i]) {
      if i < |calls| {
        PreparedFromLater(g, next, begun[i], gate, actions[i], calls[i]);
      }
    }
  }

  lemma AllPreparedMeans(
    h: seq<Event>, g: seq<Event>, actions: seq<Action>, script: seq<Wait>, gate: Gate, calls: seq<Call>,
    begun: seq<nat>)
    requires AllPrepared(h, g, actions, script, gate, calls, begun) && |calls| == |actions|
    ensures !SomeInterrupted(h, actions, script) && NoneCancelled(actions, script)
  {
    hide PreparedFrom;
    hide BeginOf;
    hide Unanswered;
    forall i | 0 <= i < |actions|
      ensures !script[i].cancelledBefore && (actions[i].request.Some? ==> !script[i].cancelledAfter) {
      assert !InterruptedAt(h, actions, script, i);
    }
  }

  /** Prepares a batch.  Call i is tied to the question asked at `begun[i]`, its own. */
  method PrepareCalls(actions: seq<Action>, script: seq<Wait>, broker: SessionPermissionBroker, gate: Gate)
    returns (result: Result<seq<Call>, PrepareError>, ghost begun: seq<nat>)
    requires broker.Valid() && |script| >= |actions|
    modifies broker
    ensures broker.Valid() && old(broker.history) <= broker.history
    ensures result == Failure(TooManyCalls) <==> |actions| > MAX_TOOL_CALLS_PER_STEP
    ensures result == Failure(Cancelled) <==>
      |actions| <= MAX_TOOL_CALLS_PER_STEP && SomeInterrupted(old(broker.history), actions, script)
    ensures result.Success? ==>
      && |result.value| == |actions| && NoneCancelled(actions, script)
      && AllPrepared(old(broker.history), broker.history, actions, script, gate, result.value, begun)
  {
    hide AllPrepared;
    hide PreparedFrom;
    hide Unanswered;
    hide AfterPreparing;
    begun := [];
    if |actions| > MAX_TOOL_CALLS_PER_STEP {
      return Failure(TooManyCalls), begun;
    }
    var calls := [];
    ghost var before := broker.history;
    NonePrepared(before, actions, script, gate);
    for i := 0 to |actions|
      invariant broker.Valid() && before <= broker.history && |calls| == i
      invariant AllPrepared(before, broker.history, actions, script, gate, calls, begun)
    {
      ghost var h := broker.history;
      BeginsNow(before, h, actions, script, gate, calls, begun);
      if script[i].cancelledBefore {
        return Failure(Cancelled), begun;
      }
      var call := PrepareOne(actions[i], script[i], broker, gate);
      if call.None? {
        return Failure(Cancelled), begun;
      }
      OneMorePrepared(before, h, actions, script, gate, calls, begun, broker.history, call.value);
      calls, begun := calls + [call.value], begun + [|h|];
    }
    AllPreparedMeans(before, broker.history, actions, script, gate, calls, begun);
    result := Success(calls);
  }

  lemma NonePrepared(h: seq<Event>, actions: seq<Action>, script: seq<Wait>, gate: Gate)
    requires |actions| <= |script|
    ensures AllPrepared(h, h, actions, script, gate, [], [])
  {
  }

  lemma BeginsNow(
    h: seq<Event>, g: seq<Event>, actions: seq<Action>, script: seq<Wait>, gate: Gate, calls: seq<Call>,
    begun: seq<nat>)
    requires AllPrepared(h, g, actions, script, gate, calls, begun) && |calls| < |actions|
    ensures var i := |calls|;
      && (InterruptedAt(h, actions, script, i) <==> script[i].cancelledBefore || Interrupted(g, actions[i], script[i]))
      && (InterruptedAt(h, actions, script, i) ==> SomeInterrupted(h, actions, script))
  {
    hide PreparedFrom;
    hide Interrupted;
  }

  /** The actions that reach the scheduler in this mode. */
  function AllForMode(mode: TurnMode, prepared: seq<Action>): (actions: seq<Action>)
    ensures |actions| == |prepared|
    ensures forall i :: 0 <= i < |actions| ==> actions[i] == ForMode(mode, prepared[i])
  {
    seq(|prepared|, i requires 0 <= i < |prepared| => ForMode(mode, prepared[i]))
  }

  /** Over a whole turn step: every call that will execute and whose registry-prepared action
      asked for permission was allowed by the user.  A research turn clears some requests
      before they are asked, and the gate rejects exactly those calls. */
  method PrepareTurnCalls(prepared: seq<Action>, script: seq<Wait>, broker: SessionPermissionBroker, gate: Gate)
    returns (result: Result<seq<Call>, PrepareError>, ghost begun: seq<nat>)
    requires broker.Valid() && |script| >= |prepared|
    modifies broker
    ensures broker.Valid() && old(broker.history) <= broker.history
    ensures result == Failure(TooManyCalls) <==> |prepared| > MAX_TOOL_CALLS_PER_STEP
    ensures var actions := AllForMode(gate.mode, prepared);
      && (result == Failure(Cancelled) <==>
            |prepared| <= MAX_TOOL_CALLS_PER_STEP && SomeInterrupted(old(broker.history), actions, script))
      && (result.Success? ==>
            && |result.value| == |prepared| && KeepsEffects(result.value) && NoneCancelled(actions, script)
            && AllPrepared(old(broker.history), broker.history, actions, script, gate, result.value, begun)
            && |begun| == |prepared|)
    ensures result.Success? ==> forall i :: 0 <= i < |prepared| && result.value[i].Executed() ==>
      && result.value[i].action == prepared[i]
      && (prepared[i].request.Some? ==> Authorized(broker.history, begun[i], prepared[i].request.value))
      && (gate.mode == ExternalResearch ==> prepared[i].tool in RESEARCH_TOOLS)
  {
    var actions := [];
    for i := 0 to |prepared|
      invariant |actions| == i
      invariant forall j :: 0 <= j < i ==> actions[j] == ForMode(gate.mode, prepared[j])
    {
      actions := actions + [ForMode(gate.mode, prepared[i])];
    }
    assert actions == AllForMode(gate.mode, prepared);
    result, begun := PrepareCalls(actions, script, broker, gate);
    if result.Success? {
      forall i | 0 <= i < |prepared| && result.value[i].Executed()
        ensures ForMode(gate.mode, prepared[i]) == prepared[i]
      {
        assert PreparedFrom(broker.history, begun[i], gate, actions[i], result.value[i]);
      }
    }
  }
}
