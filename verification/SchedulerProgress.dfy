/** When a batch run completes. */
module SchedulerProgress {
  // A run that does not complete was cancelled, or some of its calls still lack an outcome;
  // and when every tool needs boundedly many steps and the surroundings let every running
  // call move at each wake-up, the run completes.

  import opened Wrappers
  import opened Footprint
  import opened Serializability
  import opened Preparation
  import opened Scheduler
  import opened SchedulerRun

  // ----- Why waiting ends -----

  lemma {:induction false} RunLeavesOthers(tools: Tools, word: seq<nat>, s: System, c: nat)
    requires c !in word && c < |s.locals|
    ensures |Run(tools, word, s).locals| == |s.locals| && Run(tools, word, s).locals[c] == s.locals[c]
  {
    if word != [] {
      var n := |word| - 1;
      assert word[n] in word;
      RunLeavesOthers(tools, word[..n], s, c);
    }
  }

  /** Calls that are not live keep their private state. */
  lemma {:induction false} WaitLeavesOthers(
    programs: seq<Program>, round: seq<nat>, live: set<nat>, script: seq<Wakeup>, s: System, c: nat)
    requires |programs| == |s.locals| && c < |programs| && c !in live
    ensures WaitFrom(programs, round, live, script, s).end.locals[c] == s.locals[c]
    decreases |script|
  {
    if script != [] && !script[0].cancelled {
      var steps := Picked(round, live, script[0].slots);
      var t := Run(StepsOf(programs), steps, s);
      RunLeavesOthers(StepsOf(programs), steps, s, c);
      WaitLeavesOthers(programs, round, Unready(programs, live, t), script[1..], t, c);
    }
  }

  predicate SomeCancelled(script: seq<Wakeup>) {
    exists i :: 0 <= i < |script| && script[i].cancelled
  }

  /** Waiting is done when every call has an outcome; otherwise it was cancelled, or never
      polled, or some call has no outcome yet. */
  lemma {:induction false} WaitIsExplained(
    programs: seq<Program>, round: seq<nat>, live: set<nat>, script: seq<Wakeup>, s: System)
    requires |programs| == |s.locals|
    ensures var w := WaitFrom(programs, round, live, script, s);
      match w.progress
      case Done => Unready(programs, live, w.end) == {}
      case Stopped => SomeCancelled(script)
      case Waiting => script == [] || Unready(programs, live, w.end) != {}
    decreases |script|
  {
    hide Run;
    if script != [] && !script[0].cancelled {
      var t := Run(StepsOf(programs), Picked(round, live, script[0].slots), s);
      RunKeepsCallCount(StepsOf(programs), Picked(round, live, script[0].slots), s);
      var rest := Unready(programs, live, t);
      var w := WaitFrom(programs, round, rest, script[1..], t);
      WaitIsExplained(programs, round, rest, script[1..], t);
      if rest != {} {
        if w.progress == Stopped {
          var i :| 0 <= i < |script[1..]| && script[1..][i].cancelled;
          assert script[i + 1].cancelled;
        }
        UnreadyStays(programs, round, live, script[1..], t);
      }
    }
  }

  /** Of the live calls only those still waited for can lack an outcome in the end. */
  lemma UnreadyStays(programs: seq<Program>, round: seq<nat>, live: set<nat>, script: seq<Wakeup>, t: System)
    requires |programs| == |t.locals|
    ensures var rest := Unready(programs, live, t);
      var end := WaitFrom(programs, round, rest, script, t).end;
      && Unready(programs, live, end) == Unready(programs, rest, end)
      && (script == [] ==> Unready(programs, rest, end) == rest)
  {
    var rest := Unready(programs, live, t);
    var end := WaitFrom(programs, round, rest, script, t).end;
    forall c | c in live && c < |programs| && c !in rest ensures c !in Unready(programs, live, end) {
      WaitLeavesOthers(programs, round, rest, script, t, c);
    }
  }

  // ----- Why a run ends -----

  predicate CancelledIn(r: RoundScript) {
    r.cancelled || SomeCancelled(r.wakeups)
  }

  /** The round was never polled, or one of its calls has no outcome in this state. */
  predicate Unsettled(calls: seq<Call>, programs: seq<Program>, round: seq<nat>, r: RoundScript, s: System)
    requires |programs| == |s.locals|
  {
    r.wakeups == [] || Unready(programs, LiveOf(calls, round), s) != {}
  }

  /** A run that does not complete was cancelled in the round after its finished ones, or the
      script ends before that round, or that round is unsettled. */
  lemma {:induction false} RunIsExplained(
    calls: seq<Call>, programs: seq<Program>, script: seq<RoundScript>, pending: set<nat>, s: System)
    requires |programs| == |s.locals| && forall i :: i in pending ==> i < |calls|
    ensures var x, rounds := Execute(calls, programs, script, pending, s), Rounds(calls, pending);
      && |x.turns| <= |script| && |x.turns| <= |rounds| && |x.end.locals| == |s.locals|
      && (x.progress == Done <==> |x.turns| == |rounds|)
      && (x.progress == Stopped ==> |x.turns| < |script| && CancelledIn(script[|x.turns|]))
      && (x.progress == Waiting ==>
            |x.turns| == |script| || Unsettled(calls, programs, rounds[|x.turns|], script[|x.turns|], x.end))
    decreases |script|
  {
    hide WaitFrom;
    hide Selection;
    hide LiveOf;
    if pending != {} && script != [] && !script[0].cancelled {
      FirstRoundShrinks(calls, pending);
      var round := Selection(calls, pending);
      var w := WaitFrom(programs, round, LiveOf(calls, round), script[0].wakeups, s);
      WaitIsExplained(programs, round, LiveOf(calls, round), script[0].wakeups, s);
      if w.progress == Done {
        RunIsExplained(calls, programs, script[1..], pending - Elements(round), w.end);
      }
    }
  }

  // ----- Bounded tools and fair surroundings -----

  /** Tools of which every step, whatever the world, brings them closer to an outcome. */
  ghost predicate Bounded(programs: seq<Program>, rank: (nat, Local) -> nat) {
    && (forall c: nat, w, l :: c < |programs| ==>
          rank(c, programs[c].step(w, l).1) <= if rank(c, l) > 0 then rank(c, l) - 1 else 0)
    && (forall c: nat, l :: c < |programs| && programs[c].outcome(l).None? ==> rank(c, l) > 0)
  }

  /** A wake-up that moves every running call of the round. */
  predicate Fair(w: Wakeup) {
    !w.cancelled && forall slot: nat :: slot < MAX_PARALLEL ==> slot in w.slots
  }

  predicate FairRound(r: RoundScript, n: nat) {
    !r.cancelled && |r.wakeups| >= n && r.wakeups != [] && forall i :: 0 <= i < |r.wakeups| ==> Fair(r.wakeups[i])
  }

  lemma {:induction false} PickedHas(round: seq<nat>, live: set<nat>, slots: seq<nat>, slot: nat)
    requires slot in slots && slot < |round| && round[slot] in live
    ensures round[slot] in Picked(round, live, slots)
  {
    var n := |slots| - 1;
    if slots[n] != slot {
      assert slot in slots[..n];
      PickedHas(round, live, slots[..n], slot);
    }
  }

  lemma {:induction false} RankFalls(
    programs: seq<Program>, rank: (nat, Local) -> nat, word: seq<nat>, s: System, c: nat)
    requires Bounded(programs, rank) && c < |programs| == |s.locals|
    ensures var t := Run(StepsOf(programs), word, s);
      && |t.locals| == |s.locals| && rank(c, t.locals[c]) <= rank(c, s.locals[c])
      && (c in word && rank(c, s.locals[c]) > 0 ==> rank(c, t.locals[c]) < rank(c, s.locals[c]))
  {
    if word != [] {
      var n := |word| - 1;
      RankFalls(programs, rank, word[..n], s, c);
      assert word == word[..n] + [word[n]];
    }
  }

  /** Waiting for bounded tools ends after as many fair wake-ups as their longest bound. */
  lemma {:induction false} WaitCompletes(
    programs: seq<Program>, rank: (nat, Local) -> nat, round: seq<nat>, live: set<nat>, script: seq<Wakeup>,
    s: System, n: nat)
    requires |programs| == |s.locals| && Bounded(programs, rank) && |round| <= MAX_PARALLEL
    requires forall c :: c in live ==> c in round && c < |programs| && rank(c, s.locals[c]) <= n
    requires script != [] && |script| >= n && forall i :: 0 <= i < |script| ==> Fair(script[i])
    ensures WaitFrom(programs, round, live, script, s).progress == Done
    decreases |script|
  {
    hide Run;
    hide Bounded;
    var steps := Picked(round, live, script[0].slots);
    var t := Run(StepsOf(programs), steps, s);
    RunKeepsCallCount(StepsOf(programs), steps, s);
    var rest := Unready(programs, live, t);
    forall c | c in rest ensures 0 < rank(c, t.locals[c]) < n {
      var slot :| 0 <= slot < |round| && round[slot] == c;
      assert Fair(script[0]);
      PickedHas(round, live, script[0].slots, slot);
      RankFalls(programs, rank, steps, s, c);
      UnreadyHasRank(programs, rank, c, t.locals[c]);
    }
    if rest != {} {
      var c :| c in rest;
      assert forall i :: 0 <= i < |script[1..]| ==> script[1..][i] == script[i + 1];
      WaitCompletes(programs, rank, round, rest, script[1..], t, n - 1);
    }
  }

  lemma UnreadyHasRank(programs: seq<Program>, rank: (nat, Local) -> nat, c: nat, l: Local)
    requires Bounded(programs, rank) && c < |programs| && programs[c].outcome(l).None?
    ensures rank(c, l) > 0
  {
  }

  lemma {:induction false} PendingCompletes(
    calls: seq<Call>, programs: seq<Program>, rank: (nat, Local) -> nat, script: seq<RoundScript>,
    pending: set<nat>, s: System, n: nat)
    requires |programs| == |calls| == |s.locals| && Bounded(programs, rank)
    requires forall c :: c in pending ==> c < |calls| && (calls[c].Executed() ==> rank(c, s.locals[c]) <= n)
    requires |script| >= |Rounds(calls, pending)| && forall i :: 0 <= i < |script| ==> FairRound(script[i], n)
    ensures Execute(calls, programs, script, pending, s).progress == Done
    decreases |script|
  {
    hide WaitFrom;
    hide Selection;
    hide Bounded;
    if pending != {} {
      var round := Selection(calls, pending);
      var live := LiveOf(calls, round);
      var rest := pending - Elements(round);
      SelectionMembers(calls, pending);
      FirstRoundShrinks(calls, pending);
      assert Rounds(calls, pending) == [round] + Rounds(calls, rest);
      assert FairRound(script[0], n);
      ReadyIsPending(calls, pending);
      WaitCompletes(programs, rank, round, live, script[0].wakeups, s, n);
      var w := WaitFrom(programs, round, live, script[0].wakeups, s);
      forall c | c in rest && calls[c].Executed() ensures w.end.locals[c] == s.locals[c] {
        WaitLeavesOthers(programs, round, live, script[0].wakeups, s, c);
      }
      assert forall i :: 0 <= i < |script[1..]| ==> script[1..][i] == script[i + 1];
      PendingCompletes(calls, programs, rank, script[1..], rest, w.end, n);
    }
  }

  lemma ReadyIsPending(calls: seq<Call>, pending: set<nat>)
    ensures forall x :: x in Selection(calls, pending) ==> x in pending
  {
    SelectionMembers(calls, pending);
  }

  /** Progress: a batch of tools that need at most n steps each completes in every run that is
      not cancelled and lets each running call move at n wake-ups of its round. */
  lemma FairRunCompletes(
    calls: seq<Call>, programs: seq<Program>, rank: (nat, Local) -> nat, script: seq<RoundScript>,
    start: System, n: nat)
    requires |programs| == |calls| == |start.locals| && Bounded(programs, rank)
    requires forall c: nat :: c < |calls| && calls[c].Executed() ==> rank(c, start.locals[c]) <= n
    requires |script| >= |calls| && forall i :: 0 <= i < |script| ==> FairRound(script[i], n)
    ensures Execute(calls, programs, script, Below(|calls|), start).progress == Done
  {
    RoundCount(calls, Below(|calls|));
    PendingCompletes(calls, programs, rank, script, Below(|calls|), start, n);
  }
}
