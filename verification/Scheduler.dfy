/** The batch scheduler for tool calls. */
module Scheduler {
  // A batch of prepared calls runs in rounds of at most four.  A round takes the first
  // pending calls that no earlier pending call conflicts with.  `Rounds` says which calls
  // each round takes; the methods of SchedulerRun run the loop on slot arrays and are
  // proved against it.  The calls of a round run concurrently: the environment script
  // gives, for every wake-up of the waiting loop, an arbitrary interleaving of their
  // atomic steps.

  import opened Wrappers
  import opened Footprint
  import opened Serializability
  import opened Preparation

  const MAX_PARALLEL: nat := 4

  type Slots = seq<Option<Call>>

  // ----- Selecting a round -----

  function PendingOf(slots: Slots): set<nat> {
    set i: nat | 0 <= i < |slots| && slots[i].Some?
  }

  predicate Blocked(calls: seq<Call>, pending: set<nat>, index: nat)
    requires index < |calls|
  {
    exists prior :: 0 <= prior < index && prior in pending
      && Conflicts(calls[index].footprint, calls[prior].footprint)
  }

  predicate Ready(calls: seq<Call>, pending: set<nat>, index: int) {
    0 <= index < |calls| && index in pending && (calls[index].permit.None? || !Blocked(calls, pending, index))
  }

  function ReadyBelow(calls: seq<Call>, pending: set<nat>, bound: nat): seq<nat> {
    if bound == 0 then []
    else
      var below := ReadyBelow(calls, pending, bound - 1);
      if Ready(calls, pending, bound - 1) then below + [bound - 1] else below
  }

  /** The calls of the next round: the first four that are ready. */
  function Selection(calls: seq<Call>, pending: set<nat>): seq<nat> {
    var ready := ReadyBelow(calls, pending, |calls|);
    if |ready| <= MAX_PARALLEL then ready else ready[..MAX_PARALLEL]
  }

  lemma {:induction false} ReadyBelowMembers(calls: seq<Call>, pending: set<nat>, bound: nat)
    ensures forall x :: x in ReadyBelow(calls, pending, bound) <==> x < bound && Ready(calls, pending, x)
    ensures Increasing(ReadyBelow(calls, pending, bound))
    ensures |ReadyBelow(calls, pending, bound)| <= bound
  {
    if bound > 0 {
      ReadyBelowMembers(calls, pending, bound - 1);
      var below := ReadyBelow(calls, pending, bound - 1);
      forall p | 0 <= p < |below| ensures below[p] < bound - 1 {
        assert below[p] in below;
      }
    }
  }

  lemma {:induction false} ReadyBelowGrows(calls: seq<Call>, pending: set<nat>, a: nat, b: nat)
    requires a <= b
    ensures ReadyBelow(calls, pending, a) <= ReadyBelow(calls, pending, b)
  {
    if a < b {
      ReadyBelowGrows(calls, pending, a, b - 1);
    }
  }

  predicate Increasing(s: seq<nat>) {
    forall p, q :: 0 <= p < q < |s| ==> s[p] < s[q]
  }

  /** Progress: the least pending call is always part of the next round. */
  lemma SelectionTakesLeast(calls: seq<Call>, pending: set<nat>, x: nat)
    requires Least(pending, x) && x < |calls|
    ensures x in Selection(calls, pending)
  {
    var ready := ReadyBelow(calls, pending, |calls|);
    ReadyBelowMembers(calls, pending, |calls|);
    assert Ready(calls, pending, x);
    assert x in ready;
    assert ready[0] in ready;
    assert ready[0] == x;
  }

  lemma SelectionMembers(calls: seq<Call>, pending: set<nat>)
    ensures forall x :: x in Selection(calls, pending) ==> Ready(calls, pending, x)
    ensures Increasing(Selection(calls, pending))
    ensures |Selection(calls, pending)| <= MAX_PARALLEL
  {
    ReadyBelowMembers(calls, pending, |calls|);
  }

  // ----- All rounds of a batch -----

  function Rounds(calls: seq<Call>, pending: set<nat>): seq<seq<nat>>
    requires forall i :: i in pending ==> i < |calls|
    decreases |pending|
  {
    if pending == {} then []
    else
      var round := Selection(calls, pending);
      assert pending - Elements(round) < pending by {
        LeastExists(pending);
        var x :| Least(pending, x);
        SelectionTakesLeast(calls, pending, x);
        assert x in Elements(round);
      }
      SmallerSet(pending - Elements(round), pending);
      [round] + Rounds(calls, pending - Elements(round))
  }

  lemma SmallerSet(a: set<nat>, b: set<nat>)
    requires a < b
    ensures |a| < |b|
  {
    var x :| x in b && x !in a;
    assert a <= b - {x};
    SubsetSize(a, b - {x});
  }

  /** A call that ran in the same round as, or before, an earlier one does not conflict with it. */
  lemma {:induction false} RoundsRespectConflicts(
    calls: seq<Call>, pending: set<nat>, a: nat, b: nat, early: nat, late: nat)
    requires forall i :: i in pending ==> i < |calls|
    requires var rounds := Rounds(calls, pending);
      a <= b < |rounds| && late in rounds[a] && early in rounds[b]
    requires early < late && late < |calls| && calls[late].permit.Some?
    ensures !Conflicts(calls[late].footprint, calls[early].footprint)
    decreases |pending|
  {
    var round := Selection(calls, pending);
    SelectionMembers(calls, pending);
    var rest := pending - Elements(round);
    if a == 0 {
      RoundsTakePending(calls, pending, b, early);
      assert Ready(calls, pending, late);
    } else {
      FirstRoundShrinks(calls, pending);
      RoundsRespectConflicts(calls, rest, a - 1, b - 1, early, late);
    }
  }

  lemma FirstRoundShrinks(calls: seq<Call>, pending: set<nat>)
    requires forall i :: i in pending ==> i < |calls|
    requires pending != {}
    ensures Selection(calls, pending) != []
    ensures |pending - Elements(Selection(calls, pending))| < |pending|
  {
    LeastExists(pending);
    var x :| Least(pending, x);
    SelectionTakesLeast(calls, pending, x);
    assert x in Elements(Selection(calls, pending));
    SmallerSet(pending - Elements(Selection(calls, pending)), pending);
  }

  lemma {:induction false} RoundsTakePending(calls: seq<Call>, pending: set<nat>, a: nat, x: nat)
    requires forall i :: i in pending ==> i < |calls|
    requires a < |Rounds(calls, pending)| && x in Rounds(calls, pending)[a]
    ensures x in pending
    decreases |pending|
  {
    hide Selection;
    SelectionMembers(calls, pending);
    if a > 0 {
      FirstRoundShrinks(calls, pending);
      RoundsTakePending(calls, pending - Elements(Selection(calls, pending)), a - 1, x);
    }
  }

  function Flatten(words: seq<seq<nat>>): seq<nat> {
    if words == [] then [] else words[0] + Flatten(words[1..])
  }

  /** Exactly once: the rounds together take every pending call one time and nothing else. */
  lemma {:induction false} RoundsPartition(calls: seq<Call>, pending: set<nat>)
    requires forall i :: i in pending ==> i < |calls|
    ensures multiset(Flatten(Rounds(calls, pending))) == multiset(pending)
    decreases |pending|
  {
    if pending != {} {
      var round := Selection(calls, pending);
      SelectionMembers(calls, pending);
      FirstRoundShrinks(calls, pending);
      var rest := pending - Elements(round);
      RoundsPartition(calls, rest);
      IncreasingIsSet(round);
      assert Rounds(calls, pending)[1..] == Rounds(calls, rest);
      assert multiset(pending) == multiset(Elements(round)) + multiset(rest) by {
        assert pending == Elements(round) + rest;
      }
    }
  }

  lemma {:induction false} IncreasingIsSet(s: seq<nat>)
    requires Increasing(s)
    ensures multiset(s) == multiset(Elements(s))
  {
    if s != [] {
      var front, last := s[..|s| - 1], s[|s| - 1];
      assert s == front + [last];
      IncreasingIsSet(front);
      assert Elements(s) == Elements(front) + {last} && last !in Elements(front);
    }
  }

  function AtMost(pending: set<nat>, k: nat): set<nat> {
    set x | x in pending && x <= k
  }

  /** Waiting is bounded: a call leaves in a round no later than its rank among the pending
      calls, so call k of a batch leaves by round k + 1. */
  lemma {:induction false} CallLeavesInTime(calls: seq<Call>, pending: set<nat>, k: nat)
    requires forall i :: i in pending ==> i < |calls|
    requires k in pending
    ensures exists a :: 0 <= a < |Rounds(calls, pending)| && a < |AtMost(pending, k)| && k in Rounds(calls, pending)[a]
    decreases |pending|
  {
    var round := Selection(calls, pending);
    var rest := pending - Elements(round);
    FirstRoundShrinks(calls, pending);
    assert k in AtMost(pending, k);
    if k in round {
      assert Rounds(calls, pending)[0] == round;
    } else {
      CallLeavesInTime(calls, rest, k);
      var a :| 0 <= a < |Rounds(calls, rest)| && a < |AtMost(rest, k)| && k in Rounds(calls, rest)[a];
      assert Rounds(calls, pending)[a + 1] == Rounds(calls, rest)[a];
      LeastExists(pending);
      var x :| Least(pending, x);
      SelectionTakesLeast(calls, pending, x);
      assert x in AtMost(pending, k) && x !in AtMost(rest, k);
      assert AtMost(rest, k) <= AtMost(pending, k);
      SmallerSet(AtMost(rest, k), AtMost(pending, k));
    }
  }

  /** The numbers of the calls of a whole batch. */
  function Below(n: nat): (s: set<nat>)
    ensures |s| == n
    ensures forall i: nat :: i in s <==> i < n
  {
    if n == 0 then {} else Below(n - 1) + {n - 1}
  }

  lemma CallLeavesByItsNumber(calls: seq<Call>, k: nat)
    requires k < |calls|
    ensures exists a :: 0 <= a <= k && a < |Rounds(calls, Below(|calls|))| && k in Rounds(calls, Below(|calls|))[a]
  {
    CallLeavesInTime(calls, Below(|calls|), k);
    assert AtMost(Below(|calls|), k) == Below(k + 1);
  }

  lemma {:induction false} RoundCount(calls: seq<Call>, pending: set<nat>)
    requires forall i :: i in pending ==> i < |calls|
    ensures |Rounds(calls, pending)| <= |pending|
    ensures forall a :: 0 <= a < |Rounds(calls, pending)| ==> 1 <= |Rounds(calls, pending)[a]| <= MAX_PARALLEL
    decreases |pending|
  {
    if pending != {} {
      FirstRoundShrinks(calls, pending);
      SelectionMembers(calls, pending);
      RoundCount(calls, pending - Elements(Selection(calls, pending)));
    }
  }
}
