/** The circuit breaker for repeated failures, and the cache of successful observations. */
module Guardrails {
  // Both are bounded queues of entries for (action, workspace revision) pairs.  The
  // specification reads them off the history of observations: an entry is created when its
  // pair is not among the last created ones.

  import opened Wrappers

  const MAX_FAILURES: nat := 16
  const MAX_OBSERVATIONS: nat := 64
  const NO_PROGRESS_LIMIT: nat := 3
  const MAX_ATTEMPTS: nat := 255

  /** An action's fingerprint at a workspace revision. */
  datatype Key = Key(fingerprint: Bytes, revision: nat)

  datatype ToolResult = ToolResult(ok: bool, output: string)

  /** One finished call; only observations and verifications are counted. */
  datatype Event = Event(key: Key, counted: bool, result: ToolResult)

  datatype FailureObservation = FailureObservation(key: Key, attempts: nat, result: ToolResult)

  datatype Observation = Observation(key: Key, result: ToolResult)

  // ----- The history -----

  function Failed(e: Event): Option<Key> {
    if e.counted && !e.result.ok then Some(e.key) else None
  }

  function Succeeded(e: Event): Option<Key> {
    if e.counted && e.result.ok then Some(e.key) else None
  }

  type Pick = Event -> Option<Key>

  function Last(s: seq<nat>, cap: nat): (r: seq<nat>)
    ensures |r| == if |s| <= cap then |s| else cap
  {
    if |s| <= cap then s else s[|s| - cap..]
  }

  lemma LastAt(s: seq<nat>, cap: nat, i: nat)
    ensures i < |Last(s, cap)| ==> Last(s, cap)[i] == s[|s| - |Last(s, cap)| + i]
  {
  }

  /** Some of these events picks the key. */
  predicate Listed(pick: Pick, h: seq<Event>, cs: seq<nat>, key: Key) {
    exists j :: 0 <= j < |cs| && cs[j] < |h| && pick(h[cs[j]]) == Some(key)
  }

  /** The events that created an entry: their pair was not among the last `cap` created. */
  function Creations(pick: Pick, cap: nat, h: seq<Event>): (cs: seq<nat>)
    ensures forall j :: 0 <= j < |cs| ==> cs[j] < |h| && pick(h[cs[j]]).Some?
    ensures forall i, j :: 0 <= i < j < |cs| ==> cs[i] < cs[j]
  {
    if h == [] then []
    else
      var n := |h| - 1;
      var cs, key := Creations(pick, cap, h[..n]), pick(h[n]);
      if key.Some? && !Listed(pick, h[..n], Last(cs, cap), key.value) then cs + [n] else cs
  }

  /** The number of times a key is picked from some event on. */
  function Count(pick: Pick, h: seq<Event>, from: nat, key: Key): (n: nat)
    ensures n <= |h|
  {
    if |h| <= from then 0
    else Count(pick, h[..|h| - 1], from, key) + if pick(h[|h| - 1]) == Some(key) then 1 else 0
  }

  function Saturated(n: nat): nat {
    if n <= MAX_ATTEMPTS then n else MAX_ATTEMPTS
  }

  /** The result of the last failure of a key; the event at `at` is one. */
  function LastResult(h: seq<Event>, at: nat, key: Key): ToolResult
    requires at < |h|
    decreases |h|
  {
    if Failed(h[|h| - 1]) == Some(key) || |h| == at + 1 then h[|h| - 1].result else LastResult(h[..|h| - 1], at, key)
  }

  function FailureEntry(h: seq<Event>, c: nat): FailureObservation
    requires c < |h|
  {
    FailureObservation(h[c].key, Saturated(Count(Failed, h, c, h[c].key)), LastResult(h, c, h[c].key))
  }

  predicate Within(h: seq<Event>, live: seq<nat>) {
    forall i :: 0 <= i < |live| ==> live[i] < |h|
  }

  function Entries(h: seq<Event>, live: seq<nat>): (q: seq<FailureObservation>)
    requires Within(h, live)
    ensures |q| == |live| && forall i :: 0 <= i < |q| ==> q[i] == FailureEntry(h, live[i])
  {
    seq(|live|, i requires 0 <= i < |live| => FailureEntry(h, live[i]))
  }

  /** The failure queue that a history leaves. */
  function FailureQueue(h: seq<Event>): (q: seq<FailureObservation>)
    ensures |q| <= MAX_FAILURES
  {
    Entries(h, Last(Creations(Failed, MAX_FAILURES, h), MAX_FAILURES))
  }

  /** The queue of successful observations that a history leaves. */
  function ObservationQueue(h: seq<Event>): (q: seq<Observation>)
    ensures |q| <= MAX_OBSERVATIONS
  {
    var live := Last(Creations(Succeeded, MAX_OBSERVATIONS, h), MAX_OBSERVATIONS);
    seq(|live|, i requires 0 <= i < |live| => Observation(h[live[i]].key, h[live[i]].result))
  }

  // ----- The code -----

  predicate Blocks(q: seq<FailureObservation>, key: Key) {
    exists i :: 0 <= i < |q| && q[i].key == key && q[i].attempts >= NO_PROGRESS_LIMIT
  }

  /** One more failure of an entry. */
  function Bumped(o: FailureObservation, e: Event): FailureObservation {
    FailureObservation(o.key, if o.attempts < MAX_ATTEMPTS then o.attempts + 1 else MAX_ATTEMPTS, e.result)
  }

  function FindFailure(q: seq<FailureObservation>, key: Key): (i: nat)
    ensures i <= |q| && (i < |q| ==> q[i].key == key) && forall j :: 0 <= j < i ==> q[j].key != key
  {
    if q == [] || q[0].key == key then 0 else FindFailure(q[1..], key) + 1
  }

  class LoopGuardrails {
    var failures: seq<FailureObservation>
    var observations: seq<Observation>
    ghost var history: seq<Event>

    ghost predicate Valid() reads this {
      failures == FailureQueue(history) && observations == ObservationQueue(history)
    }

    constructor ()
      ensures Valid() && history == []
    {
      failures, observations, history := [], [], [];
    }

    /** Records one result; returns whether the circuit is open for its action. */
    method Observe(e: Event) returns (open: bool)
      requires Valid()
      modifies this
      ensures Valid() && history == old(history) + [e]
      ensures open <==> Failed(e).Some? && Blocks(failures, e.key)
    {
      hide FailureQueue;
      hide ObservationQueue;
      if !e.result.ok && e.counted {
        RecordFailure(e);
      }
      if e.result.ok && e.counted {
        RecordSuccess(e);
      }
      FailureQueueSkips(history, e);
      ObservationQueueSkips(history, e);
      history := history + [e];
      open := !e.result.ok && e.counted && Blocks(failures, e.key);
    }

    method RecordFailure(e: Event)
      requires Valid() && Failed(e) == Some(e.key)
      modifies this`failures
      ensures failures == FailureQueue(history + [e])
    {
      hide FailureQueue;
      hide ObservationQueue;
      FailureQueueStep(history, e);
      var i := FindFailure(failures, e.key);
      if i < |failures| {
        var n := failures[i].attempts;
        var attempts := if n < MAX_ATTEMPTS then n + 1 else MAX_ATTEMPTS;
        failures := failures[i := failures[i].(attempts := attempts, result := e.result)];
      } else {
        if |failures| == MAX_FAILURES {
          failures := failures[1..];
        }
        failures := failures + [FailureObservation(e.key, 1, e.result)];
      }
    }

    method RecordSuccess(e: Event)
      requires Valid() && Succeeded(e) == Some(e.key)
      modifies this`observations
      ensures observations == ObservationQueue(history + [e])
    {
      hide FailureQueue;
      hide ObservationQueue;
      ObservationQueueStep(history, e);
      if forall i :: 0 <= i < |observations| ==> observations[i].key != e.key {
        if |observations| == MAX_OBSERVATIONS {
          observations := observations[1..];
        }
        observations := observations + [Observation(e.key, e.result)];
      }
    }

    /** Whether an action is refused because it keeps failing at this revision. */
    method PreflightFailure(key: Key) returns (blocked: bool)
      requires Valid()
      ensures blocked <==> Blocks(failures, key)
    {
      hide Valid;
      blocked := false;
      for i := |failures| downto 0
        invariant !blocked
        invariant forall j :: i <= j < |failures| ==>
          !(failures[j].key == key && failures[j].attempts >= NO_PROGRESS_LIMIT)
      {
        if failures[i].key == key && failures[i].attempts >= NO_PROGRESS_LIMIT {
          return true;
        }
      }
    }

    /** The cached result of an action at this revision. */
    method CachedObservation(key: Key) returns (r: Option<ToolResult>)
      requires Valid()
      ensures r.Some? ==> exists i :: 0 <= i < |observations| && observations[i] == Observation(key, r.value)
      ensures r.None? ==> forall i :: 0 <= i < |observations| ==> observations[i].key != key
    {
      hide Valid;
      for i := |observations| downto 0
        invariant forall j :: i <= j < |observations| ==> observations[j].key != key
      {
        if observations[i].key == key {
          return Some(observations[i].result);
        }
      }
      return None;
    }
  }

  // ----- One step of the queues -----

  lemma CreationsPick(pick: Pick, cap: nat, h: seq<Event>, i: nat)
    requires i < |Last(Creations(pick, cap, h), cap)|
    ensures var c := Last(Creations(pick, cap, h), cap)[i]; c < |h| && pick(h[c]).Some?
  {
    LastAt(Creations(pick, cap, h), cap, i);
  }

  lemma CreationsStep(pick: Pick, cap: nat, h: seq<Event>, e: Event)
    ensures var cs := Creations(pick, cap, h);
      Creations(pick, cap, h + [e]) ==
        if pick(e).Some? && !Listed(pick, h, Last(cs, cap), pick(e).value) then cs + [|h|] else cs
  {
    assert (h + [e])[..|h|] == h;
  }

  lemma LastStep(s: seq<nat>, x: nat, cap: nat)
    requires cap > 0
    ensures Last(s + [x], cap) == (if |Last(s, cap)| == cap then Last(s, cap)[1..] else Last(s, cap)) + [x]
  {
    var t := s + [x];
    if |s| >= cap {
      assert t[|t| - cap..] == s[|t| - cap..] + [x];
      assert s[|s| - cap..][1..] == s[|t| - cap..];
    }
  }

  lemma NotListedAt(pick: Pick, h: seq<Event>, cs: seq<nat>, key: Key, j: nat)
    requires !Listed(pick, h, cs, key) && j < |cs| && cs[j] < |h|
    ensures pick(h[cs[j]]) != Some(key)
  {
  }

  /** Among the last `cap` created entries no key is there twice. */
  lemma {:induction false} LiveKeysDiffer(pick: Pick, cap: nat, h: seq<Event>, i: nat, j: nat)
    requires cap > 0
    requires var live := Last(Creations(pick, cap, h), cap); i < j < |live| && live[i] < |h| && live[j] < |h|
    ensures var live := Last(Creations(pick, cap, h), cap); pick(h[live[i]]) != pick(h[live[j]])
  {
    hide Last;
    hide Listed;
    hide Creations;
    LastAt(Creations(pick, cap, h), cap, i);
    var n := |h| - 1;
    var front := h[..n];
    var cs, before := Creations(pick, cap, h), Creations(pick, cap, front);
    var live, earlier := Last(cs, cap), Last(before, cap);
    assert h == front + [h[n]];
    CreationsStep(pick, cap, front, h[n]);
    if cs == before {
      CreationsPick(pick, cap, front, i);
      CreationsPick(pick, cap, front, j);
      LiveKeysDiffer(pick, cap, front, i, j);
    } else {
      LastStep(before, n, cap);
      var shift := if |earlier| == cap then 1 else 0;
      CreationsPick(pick, cap, front, i + shift);
      assert live[i] == earlier[i + shift];
      if j < |live| - 1 {
        assert live[j] == earlier[j + shift];
        CreationsPick(pick, cap, front, j + shift);
        LiveKeysDiffer(pick, cap, front, i + shift, j + shift);
      } else {
        assert live[j] == n;
        NotListedAt(pick, front, earlier, pick(h[n]).value, i + shift);
      }
    }
  }

  lemma CountStep(pick: Pick, h: seq<Event>, e: Event, from: nat, key: Key)
    requires from <= |h|
    ensures Count(pick, h + [e], from, key) == Count(pick, h, from, key) + if pick(e) == Some(key) then 1 else 0
  {
    assert (h + [e])[..|h|] == h;
  }

  lemma FailureEntryStep(h: seq<Event>, e: Event, c: nat)
    requires c < |h|
    ensures var entry := FailureEntry(h, c);
      FailureEntry(h + [e], c) == if Failed(e) == Some(entry.key) then Bumped(entry, e) else entry
  {
    assert (h + [e])[..|h|] == h;
    CountStep(Failed, h, e, c, h[c].key);
  }

  lemma NewFailureEntry(h: seq<Event>, e: Event)
    requires Failed(e) == Some(e.key)
    ensures FailureEntry(h + [e], |h|) == FailureObservation(e.key, 1, e.result)
  {
    assert (h + [e])[..|h|] == h;
    assert Count(Failed, h, |h|, e.key) == 0;
  }

  lemma ListedIsQueued(h: seq<Event>, key: Key)
    ensures Listed(Failed, h, Last(Creations(Failed, MAX_FAILURES, h), MAX_FAILURES), key)
      <==> exists i :: 0 <= i < |FailureQueue(h)| && FailureQueue(h)[i].key == key
  {
    hide Creations;
    hide Last;
    hide Count;
    hide LastResult;
    var live := Last(Creations(Failed, MAX_FAILURES, h), MAX_FAILURES);
    forall i | 0 <= i < |live|
      ensures live[i] < |h| && (FailureQueue(h)[i].key == key <==> Failed(h[live[i]]) == Some(key))
    {
      CreationsPick(Failed, MAX_FAILURES, h, i);
    }
  }

  /** What a failing event does to the queue. */
  lemma FailureQueueStep(h: seq<Event>, e: Event)
    requires Failed(e) == Some(e.key)
    ensures var q := FailureQueue(h); var i := FindFailure(q, e.key);
      FailureQueue(h + [e]) ==
        if i < |q| then q[i := Bumped(q[i], e)]
        else (if |q| == MAX_FAILURES then q[1..] else q) + [FailureObservation(e.key, 1, e.result)]
  {
    hide FailureQueue;
    hide Bumped;
    var q := FailureQueue(h);
    if FindFailure(q, e.key) < |q| {
      FailureIsBumped(h, e, FindFailure(q, e.key));
    } else {
      FailureIsNew(h, e);
    }
  }

  lemma FailureIsBumped(h: seq<Event>, e: Event, i: nat)
    requires Failed(e) == Some(e.key) && i < |FailureQueue(h)| && FailureQueue(h)[i].key == e.key
    ensures FailureQueue(h + [e]) == FailureQueue(h)[i := Bumped(FailureQueue(h)[i], e)]
  {
    hide FailureEntry;
    hide Creations;
    hide Last;
    hide Listed;
    hide Bumped;
    var live, q := Last(Creations(Failed, MAX_FAILURES, h), MAX_FAILURES), FailureQueue(h);
    CreationsStep(Failed, MAX_FAILURES, h, e);
    ListedIsQueued(h, e.key);
    var after := FailureQueue(h + [e]);
    assert |after| == |q|;
    forall k | 0 <= k < |q| ensures after[k] == if k == i then Bumped(q[k], e) else q[k] {
      CreationsPick(Failed, MAX_FAILURES, h, k);
      FailureEntryStep(h, e, live[k]);
      if k != i {
        QueueKeysDiffer(h, if k < i then k else i, if k < i then i else k);
      }
    }
  }

  lemma FailureIsNew(h: seq<Event>, e: Event)
    requires Failed(e) == Some(e.key) && forall i :: 0 <= i < |FailureQueue(h)| ==> FailureQueue(h)[i].key != e.key
    ensures var q := FailureQueue(h);
      FailureQueue(h + [e]) == (if |q| == MAX_FAILURES then q[1..] else q) + [FailureObservation(e.key, 1, e.result)]
  {
    hide FailureEntry;
    hide Creations;
    hide Last;
    hide Listed;
    hide Entries;
    var cs := Creations(Failed, MAX_FAILURES, h);
    var live := Last(cs, MAX_FAILURES);
    CreationsStep(Failed, MAX_FAILURES, h, e);
    ListedIsQueued(h, e.key);
    LastStep(cs, |h|, MAX_FAILURES);
    NewFailureEntry(h, e);
    LiveIsWithin(h);
    assert FailureQueue(h) == Entries(h, live);
    EntriesStay(h, e, live);
    NewEntries(h + [e], live, |h|);
  }

  lemma LiveIsWithin(h: seq<Event>)
    ensures Within(h, Last(Creations(Failed, MAX_FAILURES, h), MAX_FAILURES))
  {
  }

  /** A failure of another key leaves the entries alone. */
  lemma EntriesStay(h: seq<Event>, e: Event, live: seq<nat>)
    requires Within(h, live) && Failed(e) == Some(e.key)
    requires forall i :: 0 <= i < |live| ==> Entries(h, live)[i].key != e.key
    ensures Entries(h + [e], live) == Entries(h, live)
  {
    hide FailureEntry;
    var before, after := Entries(h, live), Entries(h + [e], live);
    forall i | 0 <= i < |live| ensures after[i] == before[i] {
      FailureEntryStep(h, e, live[i]);
    }
  }

  lemma NewEntries(h: seq<Event>, live: seq<nat>, c: nat)
    requires Within(h, live) && c < |h|
    ensures Entries(h, live + [c]) == Entries(h, live) + [FailureEntry(h, c)]
    ensures live != [] ==>
      Within(h, live[1..]) && Entries(h, live[1..] + [c]) == Entries(h, live)[1..] + [FailureEntry(h, c)]
  {
    hide FailureEntry;
  }

  lemma QueueKeysDiffer(h: seq<Event>, i: nat, j: nat)
    requires i < j < |FailureQueue(h)|
    ensures FailureQueue(h)[i].key != FailureQueue(h)[j].key
  {
    hide Creations;
    hide Last;
    CreationsPick(Failed, MAX_FAILURES, h, i);
    CreationsPick(Failed, MAX_FAILURES, h, j);
    LiveKeysDiffer(Failed, MAX_FAILURES, h, i, j);
  }

  lemma FailureQueueSkips(h: seq<Event>, e: Event)
    ensures Failed(e).None? ==> FailureQueue(h + [e]) == FailureQueue(h)
  {
    hide Creations;
    hide Last;
    hide Listed;
    hide FailureEntry;
    if Failed(e).None? {
      CreationsStep(Failed, MAX_FAILURES, h, e);
      var live := Last(Creations(Failed, MAX_FAILURES, h), MAX_FAILURES);
      forall k | 0 <= k < |live| ensures live[k] < |h| && FailureEntry(h + [e], live[k]) == FailureEntry(h, live[k]) {
        CreationsPick(Failed, MAX_FAILURES, h, k);
        FailureEntryStep(h, e, live[k]);
      }
    }
  }

  lemma ObservationQueueStep(h: seq<Event>, e: Event)
    requires Succeeded(e) == Some(e.key)
    ensures var q := ObservationQueue(h);
      ObservationQueue(h + [e]) ==
        if exists i :: 0 <= i < |q| && q[i].key == e.key then q
        else (if |q| == MAX_OBSERVATIONS then q[1..] else q) + [Observation(e.key, e.result)]
  {
    hide Creations;
    hide Last;
    hide Listed;
    var cs := Creations(Succeeded, MAX_OBSERVATIONS, h);
    CreationsStep(Succeeded, MAX_OBSERVATIONS, h, e);
    LastStep(cs, |h|, MAX_OBSERVATIONS);
    ListedIsObserved(h, e.key);
    ObservationsOf(h, e);
  }

  lemma ListedIsObserved(h: seq<Event>, key: Key)
    ensures Listed(Succeeded, h, Last(Creations(Succeeded, MAX_OBSERVATIONS, h), MAX_OBSERVATIONS), key)
      <==> exists i :: 0 <= i < |ObservationQueue(h)| && ObservationQueue(h)[i].key == key
  {
    hide Creations;
    hide Last;
    var live := Last(Creations(Succeeded, MAX_OBSERVATIONS, h), MAX_OBSERVATIONS);
    forall i | 0 <= i < |live|
      ensures live[i] < |h| && (ObservationQueue(h)[i].key == key <==> Succeeded(h[live[i]]) == Some(key))
    {
      CreationsPick(Succeeded, MAX_OBSERVATIONS, h, i);
    }
  }

  /** Entries are read off the same events when another one follows. */
  lemma ObservationsOf(h: seq<Event>, e: Event)
    ensures var live := Last(Creations(Succeeded, MAX_OBSERVATIONS, h), MAX_OBSERVATIONS);
      forall i :: 0 <= i < |live| ==> live[i] < |h| && (h + [e])[live[i]] == h[live[i]]
  {
    hide Creations;
    hide Last;
    forall i | 0 <= i < |Last(Creations(Succeeded, MAX_OBSERVATIONS, h), MAX_OBSERVATIONS)|
      ensures Last(Creations(Succeeded, MAX_OBSERVATIONS, h), MAX_OBSERVATIONS)[i] < |h|
    {
      CreationsPick(Succeeded, MAX_OBSERVATIONS, h, i);
    }
  }

  lemma ObservationQueueSkips(h: seq<Event>, e: Event)
    ensures Succeeded(e).None? ==> ObservationQueue(h + [e]) == ObservationQueue(h)
  {
    CreationsStep(Succeeded, MAX_OBSERVATIONS, h, e);
  }

  // ----- What the breaker promises -----

  /** Entry number j is for this key, has at most fifteen entries after it, and counts three
      failures of the key. */
  predicate OpenEntry(h: seq<Event>, cs: seq<nat>, key: Key, j: nat) {
    && j < |cs| && cs[j] < |h| && Failed(h[cs[j]]) == Some(key)
    && |cs| - 1 - j < MAX_FAILURES && Count(Failed, h, cs[j], key) >= NO_PROGRESS_LIMIT
  }

  /** An action is blocked at a revision exactly when it has failed there three times since its
      entry was created, and fewer than sixteen entries were created after it. */
  lemma BlockedIff(h: seq<Event>, key: Key)
    ensures Blocks(FailureQueue(h), key) <==> exists j: nat :: OpenEntry(h, Creations(Failed, MAX_FAILURES, h), key, j)
  {
    hide Creations;
    hide Last;
    hide Count;
    hide LastResult;
    var cs, q := Creations(Failed, MAX_FAILURES, h), FailureQueue(h);
    var skipped := |cs| - |Last(cs, MAX_FAILURES)|;
    if Blocks(q, key) {
      var i :| 0 <= i < |q| && q[i].key == key && q[i].attempts >= NO_PROGRESS_LIMIT;
      LastAt(cs, MAX_FAILURES, i);
      CreationsPick(Failed, MAX_FAILURES, h, i);
      assert OpenEntry(h, cs, key, skipped + i);
    }
    if j: nat :| OpenEntry(h, cs, key, j) {
      LastAt(cs, MAX_FAILURES, j - skipped);
      assert q[j - skipped] == FailureEntry(h, cs[j]);
    }
  }

  lemma {:induction false} CountFromLater(pick: Pick, h: seq<Event>, from: nat, key: Key)
    ensures Count(pick, h, from, key) <= Count(pick, h, 0, key)
  {
    if |h| > from {
      CountFromLater(pick, h[..|h| - 1], from, key);
    }
  }

  /** No action is blocked before it has failed three times at this revision. */
  lemma BlockedNeedsThreeFailures(h: seq<Event>, key: Key)
    requires Blocks(FailureQueue(h), key)
    ensures Count(Failed, h, 0, key) >= NO_PROGRESS_LIMIT
  {
    hide FailureQueue;
    hide Creations;
    hide Count;
    BlockedIff(h, key);
    var cs := Creations(Failed, MAX_FAILURES, h);
    var j: nat :| OpenEntry(h, cs, key, j);
    CountFromLater(Failed, h, cs[j], key);
  }

  /** The other keys that failed after an event. */
  ghost function OthersSince(h: seq<Event>, c: nat, key: Key): set<Key> {
    set i | c < i < |h| && Failed(h[i]).Some? && Failed(h[i]) != Some(key) :: Failed(h[i]).value
  }

  /** While at most fifteen other pairs have failed since an entry was created, it stays, and
      every entry created after it is for one of those pairs, each only once. */
  lemma EntryStays(h: seq<Event>, c: nat, key: Key) returns (j: nat)
    requires c in Creations(Failed, MAX_FAILURES, h) && Failed(h[c]) == Some(key)
    requires |OthersSince(h, c, key)| < MAX_FAILURES
    ensures var cs := Creations(Failed, MAX_FAILURES, h);
      j < |cs| && cs[j] == c && |cs| - 1 - j <= |OthersSince(h, c, key)|
  {
    hide OthersSince;
    hide Creations;
    var cs := Creations(Failed, MAX_FAILURES, h);
    j :| 0 <= j < |cs| && cs[j] == c;
    EntriesAfter(h, j, key);
    SubsetSize(KeysFrom(h, cs, j + 1), OthersSince(h, c, key));
  }

  ghost function KeysFrom(h: seq<Event>, cs: seq<nat>, j: nat): set<Key>
    requires forall i :: 0 <= i < |cs| ==> cs[i] < |h| && Failed(h[cs[i]]).Some?
  {
    set i | j <= i < |cs| :: Failed(h[cs[i]]).value
  }

  lemma {:induction false} EntriesAfter(h: seq<Event>, j: nat, key: Key)
    requires var cs := Creations(Failed, MAX_FAILURES, h);
      j < |cs| && Failed(h[cs[j]]) == Some(key) && |OthersSince(h, cs[j], key)| < MAX_FAILURES
    ensures var cs := Creations(Failed, MAX_FAILURES, h);
      && KeysFrom(h, cs, j + 1) <= OthersSince(h, cs[j], key)
      && |KeysFrom(h, cs, j + 1)| == |cs| - 1 - j < MAX_FAILURES
  {
    hide Creations;
    hide Listed;
    hide Last;
    hide OthersSince;
    hide KeysFrom;
    var cs := Creations(Failed, MAX_FAILURES, h);
    var n := |h| - 1;
    var front := h[..n];
    var before := Creations(Failed, MAX_FAILURES, front);
    assert h == front + [h[n]];
    CreationsStep(Failed, MAX_FAILURES, front, h[n]);
    if j == |before| {
      NoKeysFrom(h, cs);
    } else {
      OthersGrow(front, h[n], cs[j], key);
      EntriesAfter(front, j, key);
      SameKeysFrom(front, h[n], before, j + 1);
      if cs != before {
        NewKeyIsOther(front, h[n], j, key);
        OneMoreKey(h, before, n, j + 1);
        SubsetSize(KeysFrom(h, cs, j + 1), OthersSince(h, cs[j], key));
      }
    }
  }

  lemma NoKeysFrom(h: seq<Event>, cs: seq<nat>)
    requires forall i :: 0 <= i < |cs| ==> cs[i] < |h| && Failed(h[cs[i]]).Some?
    ensures KeysFrom(h, cs, |cs|) == {}
  {
  }

  lemma SameKeysFrom(front: seq<Event>, e: Event, cs: seq<nat>, j: nat)
    requires forall i :: 0 <= i < |cs| ==> cs[i] < |front| && Failed(front[cs[i]]).Some?
    ensures forall i :: 0 <= i < |cs| ==> Failed((front + [e])[cs[i]]).Some?
    ensures KeysFrom(front + [e], cs, j) == KeysFrom(front, cs, j)
  {
    assert forall i :: 0 <= i < |cs| ==> (front + [e])[cs[i]] == front[cs[i]];
  }

  lemma OneMoreKey(h: seq<Event>, cs: seq<nat>, c: nat, j: nat)
    requires j <= |cs| && c < |h| && Failed(h[c]).Some?
    requires forall i :: 0 <= i < |cs| ==> cs[i] < |h| && Failed(h[cs[i]]).Some?
    ensures KeysFrom(h, cs + [c], j) == KeysFrom(h, cs, j) + {Failed(h[c]).value}
  {
    var more := cs + [c];
    assert more[|cs|] == c && forall i :: 0 <= i < |cs| ==> more[i] == cs[i];
  }

  lemma OthersGrow(front: seq<Event>, e: Event, c: nat, key: Key)
    requires c < |front|
    ensures OthersSince(front, c, key) <= OthersSince(front + [e], c, key)
    ensures Failed(e).Some? && Failed(e) != Some(key) ==> Failed(e).value in OthersSince(front + [e], c, key)
    ensures |OthersSince(front, c, key)| <= |OthersSince(front + [e], c, key)|
  {
    var h := front + [e];
    assert h[|front|] == e;
    forall i | c < i < |front| ensures h[i] == front[i] {
    }
    SubsetSize(OthersSince(front, c, key), OthersSince(h, c, key));
  }

  lemma NewKeyIsOther(front: seq<Event>, e: Event, j: nat, key: Key)
    requires var before := Creations(Failed, MAX_FAILURES, front);
      && j < |before| && Failed(front[before[j]]) == Some(key) && |before| - 1 - j < MAX_FAILURES
      && Failed(e).Some? && !Listed(Failed, front, Last(before, MAX_FAILURES), Failed(e).value)
    ensures var before := Creations(Failed, MAX_FAILURES, front);
      Failed(e) != Some(key) && Failed(e).value !in KeysFrom(front, before, j + 1)
  {
    hide Creations;
    hide Last;
    hide Listed;
    var before := Creations(Failed, MAX_FAILURES, front);
    var live := Last(before, MAX_FAILURES);
    var skipped := |before| - |live|;
    forall i | j <= i < |before| ensures Failed(front[before[i]]) != Failed(e) {
      LastAt(before, MAX_FAILURES, i - skipped);
      NotListedAt(Failed, front, live, Failed(e).value, i - skipped);
    }
  }

  lemma EntryBlocks(h: seq<Event>, c: nat, key: Key)
    requires c in Creations(Failed, MAX_FAILURES, h) && Failed(h[c]) == Some(key)
    requires Count(Failed, h, c, key) >= NO_PROGRESS_LIMIT && |OthersSince(h, c, key)| < MAX_FAILURES
    ensures Blocks(FailureQueue(h), key)
  {
    hide Creations;
    hide Count;
    hide OthersSince;
    hide FailureQueue;
    hide Blocks;
    var j := EntryStays(h, c, key);
    assert OpenEntry(h, Creations(Failed, MAX_FAILURES, h), key, j);
    BlockedIff(h, key);
  }

  /** The event at c fails and its pair is not among the last sixteen created before it. */
  predicate Creates(h: seq<Event>, c: nat, key: Key) {
    && c < |h| && Failed(h[c]) == Some(key)
    && !Listed(Failed, h[..c], Last(Creations(Failed, MAX_FAILURES, h[..c]), MAX_FAILURES), key)
  }

  lemma EntryIsCreated(h: seq<Event>, c: nat, key: Key)
    requires Creates(h, c, key)
    ensures c in Creations(Failed, MAX_FAILURES, h)
  {
    hide Creations;
    hide Last;
    hide Listed;
    var u := h[..c];
    CreationsStep(Failed, MAX_FAILURES, u, h[c]);
    assert u + [h[c]] == h[..c + 1] && h[..c + 1] + h[c + 1..] == h;
    CreationsExtend(h[..c + 1], h[c + 1..]);
    var cs, all := Creations(Failed, MAX_FAILURES, u), Creations(Failed, MAX_FAILURES, h);
    assert all[|cs|] == (cs + [c])[|cs|] == c;
  }

  /** Three failures of an action at a revision block it, as long as at most fifteen other pairs
      fail in the meantime; the failure at c created its entry. */
  lemma RepeatedFailureIsBlocked(h: seq<Event>, c: nat, key: Key)
    requires Creates(h, c, key)
    requires Count(Failed, h, c, key) >= NO_PROGRESS_LIMIT && |OthersSince(h, c, key)| < MAX_FAILURES
    ensures Blocks(FailureQueue(h), key)
  {
    EntryIsCreated(h, c, key);
    EntryBlocks(h, c, key);
  }

  lemma {:induction false} CreationsExtend(u: seq<Event>, v: seq<Event>)
    ensures Creations(Failed, MAX_FAILURES, u) <= Creations(Failed, MAX_FAILURES, u + v)
  {
    hide Creations;
    hide Last;
    hide Listed;
    if v == [] {
      assert u + v == u;
    } else {
      var n := |v| - 1;
      CreationsExtend(u, v[..n]);
      assert u + v == u + v[..n] + [v[n]];
      CreationsStep(Failed, MAX_FAILURES, u + v[..n], v[n]);
    }
  }

  /** A cached answer is the result of an earlier success of the same action at the same
      revision. */
  lemma CachedAnswerIsRecorded(h: seq<Event>, i: nat)
    requires i < |ObservationQueue(h)|
    ensures var o := ObservationQueue(h)[i]; o.result.ok && Event(o.key, true, o.result) in h
  {
    var c := Last(Creations(Succeeded, MAX_OBSERVATIONS, h), MAX_OBSERVATIONS)[i];
    CreationsPick(Succeeded, MAX_OBSERVATIONS, h, i);
    assert h[c] == Event(h[c].key, true, h[c].result);
  }

  // ----- In terms of the calls -----

  /** The observations and verifications of this action that failed at this revision. */
  function Failures(h: seq<Event>, from: nat, key: Key): set<nat> {
    set i: nat | from <= i < |h| && h[i].counted && !h[i].result.ok && h[i].key == key
  }

  /** The other actions and revisions with a failed observation or verification. */
  function OtherFailures(h: seq<Event>, key: Key): set<Key> {
    set i | 0 <= i < |h| && h[i].counted && !h[i].result.ok && h[i].key != key :: h[i].key
  }

  lemma {:induction false} CountIsFailures(h: seq<Event>, from: nat, key: Key)
    ensures Count(Failed, h, from, key) == |Failures(h, from, key)|
  {
    if |h| > from {
      var n := |h| - 1;
      CountIsFailures(h[..n], from, key);
      assert Failures(h, from, key) == Failures(h[..n], from, key) +
        if h[n].counted && !h[n].result.ok && h[n].key == key then {n} else {};
    } else {
      assert Failures(h, from, key) == {};
    }
  }

  /** While failures of at most fifteen others are mixed in, an action is blocked exactly from its
      third failure at the revision on.  Calls that are not counted play no part. */
  lemma BlockedFromThirdFailure(h: seq<Event>, key: Key)
    requires |OtherFailures(h, key)| < MAX_FAILURES
    ensures Blocks(FailureQueue(h), key) <==> |Failures(h, 0, key)| >= NO_PROGRESS_LIMIT
  {
    hide FailureQueue;
    hide Blocks;
    hide Creations;
    hide Count;
    CountIsFailures(h, 0, key);
    if Blocks(FailureQueue(h), key) {
      BlockedNeedsThreeFailures(h, key);
    }
    if |Failures(h, 0, key)| >= NO_PROGRESS_LIMIT {
      var c := FirstFailure(h, key);
      CountIsFailures(h, c, key);
      assert Failures(h, c, key) == Failures(h, 0, key);
      assert OthersSince(h, c, key) <= OtherFailures(h, key);
      SubsetSize(OthersSince(h, c, key), OtherFailures(h, key));
      RepeatedFailureIsBlocked(h, c, key);
    }
  }

  lemma FirstFailure(h: seq<Event>, key: Key) returns (c: nat)
    requires Failures(h, 0, key) != {}
    ensures Creates(h, c, key) && forall i :: i in Failures(h, 0, key) ==> c <= i
  {
    LeastExists(Failures(h, 0, key));
    c :| Least(Failures(h, 0, key), c);
    var cs := Last(Creations(Failed, MAX_FAILURES, h[..c]), MAX_FAILURES);
    forall j | 0 <= j < |cs| && cs[j] < c ensures Failed(h[..c][cs[j]]) != Some(key) {
      assert cs[j] !in Failures(h, 0, key);
    }
  }

  /** A counted success of the action at the revision, with no earlier one. */
  predicate FirstSuccess(h: seq<Event>, i: nat, key: Key) {
    && i < |h| && h[i].counted && h[i].result.ok && h[i].key == key
    && forall j :: 0 <= j < i && h[j].counted && h[j].result.ok ==> h[j].key != key
  }

  function Successes(h: seq<Event>): set<Key> {
    set i | 0 <= i < |h| && h[i].counted && h[i].result.ok :: h[i].key
  }

  /** The entry is the first success of its action at its revision. */
  ghost predicate IsFirst(h: seq<Event>, o: Observation) {
    exists i: nat :: FirstSuccess(h, i, o.key) && h[i].result == o.result
  }

  function QueuedKeys(q: seq<Observation>): set<Key> {
    set k | 0 <= k < |q| :: q[k].key
  }

  /** The queue has the first result of every action that has succeeded, and nothing else. */
  ghost predicate HoldsFirst(h: seq<Event>, q: seq<Observation>) {
    QueuedKeys(q) == Successes(h) && |q| == |Successes(h)| && forall k :: 0 <= k < |q| ==> IsFirst(h, q[k])
  }

  lemma IsFirstStays(h: seq<Event>, e: Event, o: Observation)
    requires IsFirst(h, o)
    ensures IsFirst(h + [e], o)
  {
    var i: nat :| FirstSuccess(h, i, o.key) && h[i].result == o.result;
    assert (h + [e])[i] == h[i] && forall j :: 0 <= j < i ==> (h + [e])[j] == h[j];
    assert FirstSuccess(h + [e], i, o.key);
  }

  lemma SuccessesStep(h: seq<Event>, e: Event)
    ensures Successes(h + [e]) == Successes(h) + if e.counted && e.result.ok then {e.key} else {}
  {
    var u := h + [e];
    assert u[|h|] == e && forall i :: 0 <= i < |h| ==> u[i] == h[i];
  }

  lemma OldHoldsFirst(h: seq<Event>, e: Event, q: seq<Observation>)
    requires HoldsFirst(h, q) && (e.counted && e.result.ok ==> e.key in QueuedKeys(q))
    ensures HoldsFirst(h + [e], q)
  {
    hide IsFirst;
    hide Successes;
    hide QueuedKeys;
    SuccessesStep(h, e);
    assert Successes(h + [e]) == Successes(h);
    forall k | 0 <= k < |q| ensures IsFirst(h + [e], q[k]) {
      IsFirstStays(h, e, q[k]);
    }
  }

  lemma NewIsFirst(h: seq<Event>, e: Event)
    requires e.counted && e.result.ok && e.key !in Successes(h)
    ensures IsFirst(h + [e], Observation(e.key, e.result))
  {
    var u := h + [e];
    forall j | 0 <= j < |h| && h[j].counted && h[j].result.ok ensures u[j].key != e.key {
      assert h[j].key in Successes(h);
    }
    assert u[|h|] == e && FirstSuccess(u, |h|, e.key);
  }

  lemma QueuedKeysStep(q: seq<Observation>, o: Observation)
    ensures QueuedKeys(q + [o]) == QueuedKeys(q) + {o.key}
  {
    var more := q + [o];
    assert more[|q|] == o && forall k :: 0 <= k < |q| ==> more[k] == q[k];
  }

  lemma NewHoldsFirst(h: seq<Event>, e: Event, q: seq<Observation>)
    requires HoldsFirst(h, q) && e.counted && e.result.ok && e.key !in QueuedKeys(q)
    ensures HoldsFirst(h + [e], q + [Observation(e.key, e.result)])
  {
    hide IsFirst;
    hide Successes;
    hide QueuedKeys;
    var more := q + [Observation(e.key, e.result)];
    SuccessesStep(h, e);
    QueuedKeysStep(q, Observation(e.key, e.result));
    NewIsFirst(h, e);
    forall k | 0 <= k < |more| ensures IsFirst(h + [e], more[k]) {
      if k < |q| {
        IsFirstStays(h, e, q[k]);
      }
    }
  }

  /** As long as at most 64 actions have succeeded, the cache has the first result of each of them
      and nothing else. */
  lemma {:induction false} CachedFromFirstSuccess(h: seq<Event>)
    requires |Successes(h)| <= MAX_OBSERVATIONS
    ensures HoldsFirst(h, ObservationQueue(h))
  {
    if h == [] {
      assert Successes(h) == {} && QueuedKeys(ObservationQueue(h)) == {};
    } else {
      CachedStep(h[..|h| - 1], h[|h| - 1]);
      assert h == h[..|h| - 1] + [h[|h| - 1]];
      SuccessesStep(h[..|h| - 1], h[|h| - 1]);
      SubsetSize(Successes(h[..|h| - 1]), Successes(h));
      CachedFromFirstSuccess(h[..|h| - 1]);
    }
  }

  lemma CachedStep(h: seq<Event>, e: Event)
    ensures HoldsFirst(h, ObservationQueue(h)) && |Successes(h + [e])| <= MAX_OBSERVATIONS ==>
      HoldsFirst(h + [e], ObservationQueue(h + [e]))
  {
    hide ObservationQueue;
    hide Successes;
    var q := ObservationQueue(h);
    if HoldsFirst(h, q) && |Successes(h + [e])| <= MAX_OBSERVATIONS {
      SuccessesStep(h, e);
      if e.counted && e.result.ok {
        ObservationQueueStep(h, e);
        assert (exists k :: 0 <= k < |q| && q[k].key == e.key) <==> e.key in QueuedKeys(q);
        if e.key in QueuedKeys(q) {
          OldHoldsFirst(h, e, q);
        } else {
          NewHoldsFirst(h, e, q);
        }
      } else {
        ObservationQueueSkips(h, e);
        OldHoldsFirst(h, e, q);
      }
    }
  }
}
