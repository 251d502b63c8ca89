/** The in-process permission broker. */
module Permission {
  // It is seen through the history of what was asked of it.
  // The broker keeps two tables: grants for a (tool, permission) pair that last for the
  // session, and requests that wait for the user.  The lemmas recover both tables from
  // the history alone, so a grant always leads back to one answer of the user.

  import opened Wrappers

  type CallId = string

  datatype PermissionClass =
    | ReadOnly | WorkspaceWrite | ProcessExecute | ProcessPersistent | GitMutate
    | OutsideWorkspace | NetworkMutation | BrowserRead | BrowserAction

  datatype Decision = AllowOnce | AllowSession | Deny

  datatype Request = Request(callId: CallId, tool: string, permission: PermissionClass)

  /** What can happen to a broker: a request, an answer from the terminal, a cancellation. */
  datatype Event = Decide(request: Request) | Resolve(callId: CallId, decision: Decision) | Cancel(callId: CallId)

  datatype State = State(grants: set<(string, PermissionClass)>, pending: map<CallId, Request>)

  function Step(s: State, e: Event): State {
    match e
    case Decide(r) =>
      if (r.tool, r.permission) in s.grants then s else s.(pending := s.pending[r.callId := r])
    case Cancel(id) => s.(pending := s.pending - {id})
    case Resolve(id, d) =>
      if id !in s.pending then s
      else
        var r := s.pending[id];
        State(
          if d == AllowSession && r.permission != BrowserAction then s.grants + {(r.tool, r.permission)} else s.grants,
          s.pending - {id})
  }

  function After(history: seq<Event>): State {
    if history == [] then State({}, map[]) else Step(After(history[..|history| - 1]), history[|history| - 1])
  }

  // ----- Reading the tables off the history -----

  /** The k-th event asked the user about a request, because no grant covered it. */
  predicate Asked(h: seq<Event>, k: int) {
    && 0 <= k < |h|
    && h[k].Decide?
    && (h[k].request.tool, h[k].request.permission) !in After(h[..k]).grants
  }

  /** Event e closes or replaces whatever waits under this call id. */
  predicate Disturbs(h: seq<Event>, j: int, id: CallId) {
    && 0 <= j < |h|
    && match h[j]
       case Decide(r) => r.callId == id && Asked(h, j)
       case Resolve(other, _) => other == id
       case Cancel(other) => other == id
  }

  /** The question of event k is still unanswered just before event m. */
  predicate Open(h: seq<Event>, k: int, m: int) {
    && 0 <= k < m <= |h|
    && Asked(h, k)
    && forall j :: k < j < m ==> !Disturbs(h, j, h[k].request.callId)
  }

  /** The user answered the question of event k with decision d at event m. */
  predicate Answered(h: seq<Event>, k: int, m: int, d: Decision) {
    m < |h| && Open(h, k, m) && h[m] == Resolve(h[k].request.callId, d)
  }

  lemma OpenInPrefix(h: seq<Event>, n: nat, k: nat, m: nat)
    requires k < m <= n <= |h|
    ensures Open(h[..n], k, m) <==> Open(h, k, m)
  {
    forall j | 0 <= j < m ensures h[..n][..j] == h[..j] {}
    forall j, id | k < j < m ensures Disturbs(h[..n], j, id) <==> Disturbs(h, j, id) {}
  }

  /** Some question about request r is open at the end of the history. */
  predicate OpenAtEnd(h: seq<Event>, r: Request) {
    exists k :: 0 <= k < |h| && Open(h, k, |h|) && h[k].request == r
  }

  lemma OpenAtEndStep(h: seq<Event>, r: Request)
    requires h != []
    ensures var n := |h| - 1;
      OpenAtEnd(h, r) <==>
        (Asked(h, n) && h[n].request == r) || (OpenAtEnd(h[..n], r) && !Disturbs(h, n, r.callId))
  {
    var n := |h| - 1;
    forall k | 0 <= k < n ensures Open(h, k, |h|) <==> Open(h[..n], k, n) && !Disturbs(h, n, h[k].request.callId) {
      OpenInPrefix(h, n, k, n);
    }
    assert Open(h, n, |h|) <==> Asked(h, n);
    if OpenAtEnd(h[..n], r) && !Disturbs(h, n, r.callId) {
      var k :| 0 <= k < n && Open(h[..n], k, n) && h[..n][k].request == r;
      assert Open(h, k, |h|) && h[k].request == r;
    }
  }

  /** A request is pending exactly when it was asked and nothing has touched its call id since. */
  lemma {:induction false} PendingIsOpenQuestion(h: seq<Event>, r: Request)
    ensures r.callId in After(h).pending && After(h).pending[r.callId] == r <==> OpenAtEnd(h, r)
  {
    if h != [] {
      OpenAtEndStep(h, r);
      PendingIsOpenQuestion(h[..|h| - 1], r);
    }
  }

  /** The user once answered AllowSession to a question about this tool and class, and the
      class is not a browser action. */
  ghost predicate GrantedByUser(h: seq<Event>, tool: string, permission: PermissionClass) {
    && permission != BrowserAction
    && exists k, m :: Answered(h, k, m, AllowSession) && h[k].request.tool == tool
        && h[k].request.permission == permission
  }

  /** The last event grants (tool, permission) by answering an open question. */
  predicate LastAnswerGrants(h: seq<Event>, tool: string, permission: PermissionClass)
    requires h != []
  {
    var front, last := h[..|h| - 1], h[|h| - 1];
    && permission != BrowserAction
    && exists k :: 0 <= k < |front| && Open(front, k, |front|) && front[k].request.tool == tool
        && front[k].request.permission == permission && last == Resolve(front[k].request.callId, AllowSession)
  }

  lemma AnsweredInPrefix(h: seq<Event>, n: nat, k: int, m: int, d: Decision)
    requires n <= |h|
    ensures Answered(h[..n], k, m, d) <==> m < n && Answered(h, k, m, d)
  {
    if 0 <= k < m < n {
      OpenInPrefix(h, n, k, m);
    }
  }

  lemma GrantedByUserExtends(h: seq<Event>, n: nat, tool: string, permission: PermissionClass)
    requires n <= |h| && GrantedByUser(h[..n], tool, permission)
    ensures GrantedByUser(h, tool, permission)
  {
    var k, m :| Answered(h[..n], k, m, AllowSession) && h[..n][k].request.tool == tool
      && h[..n][k].request.permission == permission;
    AnsweredInPrefix(h, n, k, m, AllowSession);
  }

  lemma LastAnswerIsGrant(h: seq<Event>, tool: string, permission: PermissionClass)
    requires h != [] && LastAnswerGrants(h, tool, permission)
    ensures GrantedByUser(h, tool, permission)
  {
    var n := |h| - 1;
    var front := h[..n];
    var k :| 0 <= k < n && Open(front, k, n) && front[k].request.tool == tool
      && front[k].request.permission == permission && h[n] == Resolve(front[k].request.callId, AllowSession);
    OpenInPrefix(h, n, k, n);
    assert Answered(h, k, n, AllowSession);
  }

  lemma GrantedByUserStep(h: seq<Event>, tool: string, permission: PermissionClass)
    requires h != []
    ensures GrantedByUser(h, tool, permission)
      <==> GrantedByUser(h[..|h| - 1], tool, permission) || LastAnswerGrants(h, tool, permission)
  {
    var n := |h| - 1;
    var front := h[..n];
    if GrantedByUser(front, tool, permission) {
      GrantedByUserExtends(h, n, tool, permission);
    }
    if LastAnswerGrants(h, tool, permission) {
      LastAnswerIsGrant(h, tool, permission);
    }
    if GrantedByUser(h, tool, permission) {
      var k, m :| Answered(h, k, m, AllowSession) && h[k].request.tool == tool
        && h[k].request.permission == permission;
      if m < n {
        AnsweredInPrefix(h, n, k, m, AllowSession);
        assert Answered(front, k, m, AllowSession);
      } else {
        OpenInPrefix(h, n, k, n);
      }
    }
  }

  /** A session grant exists exactly when the user gave it. */
  lemma {:induction false} GrantIsUserAnswer(h: seq<Event>, tool: string, permission: PermissionClass)
    ensures (tool, permission) in After(h).grants <==> GrantedByUser(h, tool, permission)
  {
    if h != [] {
      var n := |h| - 1;
      GrantedByUserStep(h, tool, permission);
      GrantIsUserAnswer(h[..n], tool, permission);
      LastAnswerGrantsPending(h, tool, permission);
    }
  }

  lemma LastAnswerGrantsPending(h: seq<Event>, tool: string, permission: PermissionClass)
    requires h != []
    ensures var n := |h| - 1;
      var s := After(h[..n]);
      LastAnswerGrants(h, tool, permission) <==>
        && permission != BrowserAction
        && h[n].Resolve? && h[n].decision == AllowSession && h[n].callId in s.pending
        && s.pending[h[n].callId].tool == tool && s.pending[h[n].callId].permission == permission
  {
    var n := |h| - 1;
    var front := h[..n];
    if LastAnswerGrants(h, tool, permission) {
      var k :| 0 <= k < n && Open(front, k, n) && front[k].request.tool == tool
        && front[k].request.permission == permission && h[n] == Resolve(front[k].request.callId, AllowSession);
      assert OpenAtEnd(front, front[k].request);
      PendingIsOpenQuestion(front, front[k].request);
    }
    if h[n].Resolve? && h[n].callId in After(front).pending {
      PendingKeepsCallId(front, h[n].callId);
      PendingIsOpenQuestion(front, After(front).pending[h[n].callId]);
    }
  }

  lemma {:induction false} PendingKeepsCallId(h: seq<Event>, id: CallId)
    ensures id in After(h).pending ==> After(h).pending[id].callId == id
  {
    if h != [] {
      PendingKeepsCallId(h[..|h| - 1], id);
    }
  }

  // ----- The broker object -----

  class SessionPermissionBroker {
    var sessionGrants: set<(string, PermissionClass)>
    var pending: map<CallId, Request>
    ghost var history: seq<Event>

    ghost predicate Valid() reads this {
      State(sessionGrants, pending) == After(history)
    }

    constructor ()
      ensures Valid() && history == []
    {
      sessionGrants, pending, history := {}, map[], [];
    }

    predicate HasSessionGrant(tool: string, permission: PermissionClass) reads this {
      (tool, permission) in sessionGrants
    }

    /** Answers a waiting request; false for an unknown or stale call id, or when nobody
        listens for the answer any more. */
    method Resolve(callId: CallId, decision: Decision, listening: bool) returns (delivered: bool)
      requires Valid()
      modifies this
      ensures Valid() && history == old(history) + [Event.Resolve(callId, decision)]
      ensures delivered == (listening && callId in old(pending))
      ensures State(sessionGrants, pending)
        == Step(State(old(sessionGrants), old(pending)), Event.Resolve(callId, decision))
    {
      history := history + [Event.Resolve(callId, decision)];
      assert history[..|history| - 1] == old(history);
      if callId !in pending {
        return false;
      }
      var request := pending[callId];
      pending := pending - {callId};
      if decision == AllowSession && request.permission != BrowserAction {
        sessionGrants := sessionGrants + {(request.tool, request.permission)};
      }
      delivered := listening;
    }

    /** Decides at once under a session grant, and otherwise registers the request. */
    method Decide(request: Request) returns (immediate: Option<Decision>)
      requires Valid()
      modifies this
      ensures Valid() && history == old(history) + [Event.Decide(request)]
      ensures immediate == if old(HasSessionGrant(request.tool, request.permission)) then Some(AllowSession) else None
      ensures State(sessionGrants, pending)
        == Step(State(old(sessionGrants), old(pending)), Event.Decide(request))
    {
      history := history + [Event.Decide(request)];
      assert history[..|history| - 1] == old(history);
      if HasSessionGrant(request.tool, request.permission) {
        return Some(AllowSession);
      }
      pending := pending[request.callId := request];
      immediate := None;
    }

    method Cancel(callId: CallId)
      requires Valid()
      modifies this
      ensures Valid() && history == old(history) + [Event.Cancel(callId)]
      ensures State(sessionGrants, pending)
        == Step(State(old(sessionGrants), old(pending)), Event.Cancel(callId))
    {
      history := history + [Event.Cancel(callId)];
      assert history[..|history| - 1] == old(history);
      pending := pending - {callId};
    }
  }
}
