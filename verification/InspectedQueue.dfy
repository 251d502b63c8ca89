/** Which files a session still has a record of. */
module InspectedQueue {
  // Records are kept in the order in which their files were first seen.  A file that is seen
  // without a record gets one at the end, and beyond 64 the oldest record goes.

  import opened Evidence
  import opened EvidenceRuns
  import opened Excerpts
  import opened Text
  import opened Wrappers

  // ----- The files an operation sees -----

  function PortablesOfReads(r: Rules, fs: seq<ReadFile>): seq<Path> {
    if fs == [] then []
    else
      var front, p := PortablesOfReads(r, fs[..|fs| - 1]), r.portable(fs[|fs| - 1].path);
      if p.Some? then front + [p.value] else front
  }

  function PortablesOfWrites(r: Rules, fs: seq<(Path, Option<Hash>)>): seq<Path> {
    if fs == [] then []
    else
      var front, p := PortablesOfWrites(r, fs[..|fs| - 1]), r.portable(fs[|fs| - 1].0);
      if p.Some? then front + [p.value] else front
  }

  /** The files the runtime finds among those it reads itself, each once. */
  function FoundAll(r: Rules, again: seq<AutoRead>): seq<Path> {
    if again == [] then []
    else
      var front, a := again[..|again| - 1], again[|again| - 1];
      FoundAll(r, front)
      + if Repeats(front, a.path) || FoundExcerpt(r, a).None? then [] else [FoundExcerpt(r, a).value.path]
  }

  function Found(r: Rules, root: string, again: seq<AutoRead>): seq<Path> {
    if root == "" then []
    else FoundAll(r, FirstEight(again))
  }

  /** The files an observation sees, in order: what a tool wrote and read, and what the runtime
      read itself. */
  function SeenBy(r: Rules, root: string, o: Observation): seq<Path> {
    (if o.ok then PortablesOfWrites(r, o.written) else []) + PortablesOfReads(r, o.seen)
    + (if o.ok then [] else Found(r, root, o.failed))
    + (if o.mutation.Some? then Found(r, root, o.mutation.value.again) else [])
    + Found(r, root, o.unverified)
  }

  function RootAfter(root: string, ops: seq<Op>): string {
    if ops == [] then root
    else
      var op := ops[|ops| - 1];
      if op.Refreshed? then op.workspace.root else RootAfter(root, ops[..|ops| - 1])
  }

  /** The files a run sees, in order. */
  function Seen(r: Rules, root: string, ops: seq<Op>): seq<Path> {
    if ops == [] then []
    else
      var front, op := ops[..|ops| - 1], ops[|ops| - 1];
      Seen(r, root, front) + if op.Observed? then SeenBy(r, RootAfter(root, front), op.observation) else []
  }

  function LastOf(ps: seq<Path>, n: nat): seq<Path> {
    if |ps| <= n then ps else ps[|ps| - n..]
  }

  /** The files that get a record: those that are not among the 64 that got one last. */
  function Recorded(seen: seq<Path>): seq<Path> {
    if seen == [] then []
    else
      var front, p := Recorded(seen[..|seen| - 1]), seen[|seen| - 1];
      if p in LastOf(front, MAX_INSPECTED_FILES) then front else front + [p]
  }

  // ----- The records are those of the last 64 files recorded -----

  function Paths(s: Context): (ps: seq<Path>)
    ensures |ps| == |s.inspected| && forall i :: 0 <= i < |ps| ==> ps[i] == s.inspected[i].path
  {
    seq(|s.inspected|, i requires 0 <= i < |s.inspected| => s.inspected[i].path)
  }

  function Enqueue(q: seq<Path>, p: Path): seq<Path> {
    if p in q then q else Pushed(q, p, MAX_INSPECTED_FILES)
  }

  function EnqueueAll(q: seq<Path>, ps: seq<Path>): seq<Path> {
    if ps == [] then q else Enqueue(EnqueueAll(q, ps[..|ps| - 1]), ps[|ps| - 1])
  }

  /** From s to t these files were seen. */
  predicate Queues(s: Context, t: Context, ps: seq<Path>) {
    Paths(t) == EnqueueAll(Paths(s), ps) && t.root == s.root
  }

  lemma {:induction false} EnqueueTwice(q: seq<Path>, ps: seq<Path>, more: seq<Path>)
    ensures EnqueueAll(q, ps + more) == EnqueueAll(EnqueueAll(q, ps), more)
  {
    hide Enqueue;
    if more == [] {
      assert ps + more == ps;
    } else {
      EnqueueTwice(q, ps, more[..|more| - 1]);
      assert (ps + more)[..|ps + more| - 1] == ps + more[..|more| - 1];
    }
  }

  lemma QueuesTwice(s: Context, t: Context, u: Context, ps: seq<Path>, more: seq<Path>)
    requires Queues(s, t, ps) && Queues(t, u, more)
    ensures Queues(s, u, ps + more)
  {
    EnqueueTwice(Paths(s), ps, more);
  }

  lemma QueuesOne(s: Context, t: Context, u: Context, ps: seq<Path>, p: Path)
    requires Queues(s, t, ps) && Paths(u) == Enqueue(Paths(t), p) && u.root == t.root
    ensures Queues(s, u, ps + [p])
  {
    assert (ps + [p])[..|ps|] == ps;
  }

  lemma UpsertQueues(s: Context, p: Path, hash: Option<Hash>)
    ensures Paths(Upsert(s, p, hash)) == Enqueue(Paths(s), p) && Upsert(s, p, hash).root == s.root
  {
    var i := FindPath(s.inspected, p);
    if i < |s.inspected| {
      assert Paths(s)[i] in Paths(s);
    } else {
      assert p !in Paths(s);
    }
    assert Paths(Upsert(s, p, hash)) == Enqueue(Paths(s), p);
  }

  lemma {:induction false} ReadAllQueues(r: Rules, s: Context, fs: seq<ReadFile>)
    ensures Queues(s, ReadAll(r, s, fs), PortablesOfReads(r, fs))
  {
    hide Upsert;
    hide ExcerptOf;
    hide Enqueue;
    if fs == [] {
    } else {
      var n := |fs| - 1;
      var before := ReadAll(r, s, fs[..n]);
      ReadAllQueues(r, s, fs[..n]);
      if r.Relative(fs[n].path) {
        var p := r.portable(fs[n].path).value;
        UpsertQueues(before, p, fs[n].contentHash);
        QueuesOne(s, before, ReadAll(r, s, fs), PortablesOfReads(r, fs[..n]), p);
      }
    }
  }

  lemma {:induction false} WriteAllQueues(r: Rules, s: Context, fs: seq<(Path, Option<Hash>)>)
    ensures Queues(s, WriteAll(r, s, fs), PortablesOfWrites(r, fs))
  {
    hide Upsert;
    hide Enqueue;
    if fs == [] {
    } else {
      var n := |fs| - 1;
      var before := WriteAll(r, s, fs[..n]);
      WriteAllQueues(r, s, fs[..n]);
      if r.Relative(fs[n].0) {
        var p := r.portable(fs[n].0).value;
        UpsertQueues(before, p, fs[n].1);
        QueuesOne(s, before, WriteAll(r, s, fs), PortablesOfWrites(r, fs[..n]), p);
      }
    }
  }

  lemma {:induction false} PromoteAllQueues(r: Rules, s: Context, again: seq<AutoRead>)
    ensures Queues(s, PromoteAll(r, s, again), FoundAll(r, again))
  {
    hide Upsert;
    hide Enqueue;
    hide FoundExcerpt;
    hide PushExcerpt;
    if again == [] {
    } else {
      var front, a := again[..|again| - 1], again[|again| - 1];
      var before, e := PromoteAll(r, s, front), FoundExcerpt(r, a);
      PromoteAllQueues(r, s, front);
      if !Repeats(front, a.path) && e.Some? {
        UpsertQueues(before, e.value.path, e.value.contentHash);
        StoreSamePaths(before, e.value);
        QueuesOne(s, before, PromoteAll(r, s, again), FoundAll(r, front), e.value.path);
      } else {
        assert FoundAll(r, front) + [] == FoundAll(r, front);
        assert PromoteAll(r, s, again) == before;
      }
    }
  }

  lemma StoreSamePaths(s: Context, e: Excerpt)
    ensures Paths(StoreAutomatic(s, e)) == Paths(Upsert(s, e.path, e.contentHash))
    ensures StoreAutomatic(s, e).root == Upsert(s, e.path, e.contentHash).root
  {
  }

  lemma PromoteQueues(r: Rules, s: Context, again: seq<AutoRead>)
    ensures Queues(s, Promote(r, s, again), Found(r, s.root, again))
  {
    PromoteAllQueues(r, s, FirstEight(again));
  }

  lemma DirectQueues(r: Rules, s: Context, o: Observation)
    ensures Queues(s, Direct(r, s, o),
      (if o.ok then PortablesOfWrites(r, o.written) else []) + PortablesOfReads(r, o.seen))
  {
    hide Enqueue;
    hide WriteAll;
    hide ReadAll;
    hide PortablesOfWrites;
    hide PortablesOfReads;
    var wrote := if o.ok then PortablesOfWrites(r, o.written) else [];
    var written := if o.ok then WriteAll(r, s, o.written) else s;
    var dirty := RecordUserAll(r, written, o.dirty);
    WriteAllQueues(r, s, o.written);
    RecordUserKeeps(r, written, o.dirty);
    assert Paths(dirty) == Paths(written);
    assert Queues(s, dirty, wrote);
    ReadAllQueues(r, dirty, o.seen);
    QueuesTwice(s, dirty, Direct(r, s, o), wrote, PortablesOfReads(r, o.seen));
  }

  lemma InvalidateQueues(r: Rules, s: Context, e: Effects)
    ensures Queues(s, Invalidate(r, s, e), [])
  {
    assert Paths(Invalidate(r, s, e)) == Paths(s);
  }

  lemma MutateQueues(r: Rules, s: Context, m: Mutation)
    ensures Queues(s, Mutate(r, s, m), Found(r, s.root, m.again))
  {
    hide Promote;
    hide Invalidate;
    hide Found;
    hide EnqueueAll;
    if m.effects.Some? {
      var touched := RecordTouched(r, s, m.effects.value.touched);
      RecordTouchedKeeps(r, s, m.effects.value.touched);
      assert Paths(touched) == Paths(s);
      var stale := Invalidate(r, touched, m.effects.value);
      InvalidateQueues(r, touched, m.effects.value);
      PromoteQueues(r, stale, m.again);
      QueuesTwice(touched, stale, Mutate(r, s, m), [], Found(r, s.root, m.again));
      assert [] + Found(r, s.root, m.again) == Found(r, s.root, m.again);
    } else {
      PromoteQueues(r, s, m.again);
    }
  }

  lemma ObserveQueues(r: Rules, s: Context, o: Observation)
    ensures Queues(s, Observe(r, s, o), SeenBy(r, s.root, o))
  {
    hide Direct;
    hide Promote;
    hide Mutate;
    hide Found;
    hide EnqueueAll;
    hide Refreshes;
    hide PortablesOfWrites;
    hide PortablesOfReads;
    var direct := Direct(r, s, o);
    var first := (if o.ok then PortablesOfWrites(r, o.written) else []) + PortablesOfReads(r, o.seen);
    DirectQueues(r, s, o);
    var diagnosed := if o.ok then direct else Promote(r, direct, o.failed);
    var second := if o.ok then [] else Found(r, s.root, o.failed);
    if o.ok {
      assert first + second == first;
    } else {
      PromoteQueues(r, direct, o.failed);
      QueuesTwice(s, direct, diagnosed, first, second);
    }
    var changed := Changed(r, s, o);
    var third := if o.mutation.Some? then Found(r, s.root, o.mutation.value.again) else [];
    if o.mutation.Some? {
      MutateQueues(r, diagnosed, o.mutation.value);
      QueuesTwice(s, diagnosed, changed, first + second, third);
    } else {
      assert first + second + third == first + second;
    }
    var last := Promote(r, changed, o.unverified);
    PromoteQueues(r, changed, o.unverified);
    QueuesTwice(s, changed, last, first + second + third, Found(r, s.root, o.unverified));
    assert Paths(Observe(r, s, o)) == Paths(last);
  }

  /** Every file seen is named by its portable path. */
  ghost predicate AllPortable(r: Rules, ps: seq<Path>) {
    forall p :: p in ps ==> r.portable(p) == Some(p)
  }

  lemma {:induction false} PortableReads(r: Rules, fs: seq<ReadFile>)
    requires Canonical(r)
    ensures AllPortable(r, PortablesOfReads(r, fs))
  {
    if fs != [] {
      PortableReads(r, fs[..|fs| - 1]);
    }
  }

  lemma {:induction false} PortableWrites(r: Rules, fs: seq<(Path, Option<Hash>)>)
    requires Canonical(r)
    ensures AllPortable(r, PortablesOfWrites(r, fs))
  {
    if fs != [] {
      PortableWrites(r, fs[..|fs| - 1]);
    }
  }

  lemma {:induction false} PortableFound(r: Rules, again: seq<AutoRead>)
    requires Canonical(r)
    ensures AllPortable(r, FoundAll(r, again))
  {
    if again != [] {
      PortableFound(r, again[..|again| - 1]);
    }
  }

  lemma PortableSeen(r: Rules, root: string, o: Observation)
    requires Canonical(r)
    ensures AllPortable(r, SeenBy(r, root, o))
  {
    hide PortablesOfReads;
    hide PortablesOfWrites;
    hide FoundAll;
    PortableReads(r, o.seen);
    PortableWrites(r, o.written);
    PortableFound(r, FirstEight(o.failed));
    PortableFound(r, FirstEight(o.unverified));
    if o.mutation.Some? {
      PortableFound(r, FirstEight(o.mutation.value.again));
    }
  }

  lemma {:induction false} EnqueuePortable(r: Rules, q: seq<Path>, ps: seq<Path>)
    requires AllPortable(r, q) && AllPortable(r, ps)
    ensures AllPortable(r, EnqueueAll(q, ps))
  {
    if ps != [] {
      EnqueuePortable(r, q, ps[..|ps| - 1]);
      var front, last := EnqueueAll(q, ps[..|ps| - 1]), ps[|ps| - 1];
      assert forall p :: p in front + [last] ==> p in front || p == last;
    }
  }

  lemma {:induction false} RefreshKeepsPaths(r: Rules, w: Workspace, fs: seq<InspectedFile>)
    requires forall i :: 0 <= i < |fs| ==> r.Relative(fs[i].path)
    ensures var gs := RefreshAll(r, w, fs); |gs| == |fs| && forall i :: 0 <= i < |fs| ==> gs[i].path == fs[i].path
  {
    if fs != [] {
      RefreshKeepsPaths(r, w, fs[..|fs| - 1]);
    }
  }

  lemma RefreshQueues(r: Rules, s: Context, w: Workspace)
    requires AllPortable(r, Paths(s))
    ensures Paths(Refresh(r, s, w)) == Paths(s) && Refresh(r, s, w).root == w.root
  {
    forall i | 0 <= i < |s.inspected| ensures r.Relative(s.inspected[i].path) {
      assert Paths(s)[i] in Paths(s);
    }
    RefreshKeepsPaths(r, w, s.inspected);
  }

  /** Over every run the records are those of the files the queue holds. */
  lemma {:induction false} RunQueues(r: Rules, root: string, ops: seq<Op>)
    requires Canonical(r)
    ensures Paths(Run(r, root, ops)) == EnqueueAll([], Seen(r, root, ops))
    ensures Run(r, root, ops).root == RootAfter(root, ops) && AllPortable(r, Paths(Run(r, root, ops)))
  {
    hide Observe;
    hide SeenBy;
    hide EnqueueAll;
    hide Refresh;
    hide Canonical;
    hide AllPortable;
    if ops == [] {
      QueueOfNone(r);
    } else {
      var front, op := ops[..|ops| - 1], ops[|ops| - 1];
      var s := Run(r, root, front);
      RunQueues(r, root, front);
      match op
      case Observed(o) =>
        ObserveQueues(r, s, o);
        EnqueueTwice([], Seen(r, root, front), SeenBy(r, s.root, o));
        PortableSeen(r, s.root, o);
        EnqueuePortable(r, Paths(s), SeenBy(r, s.root, o));
      case Refreshed(w) =>
        RefreshQueues(r, s, w);
        assert Seen(r, root, front) + [] == Seen(r, root, front);
      case UserChanged(ps) =>
        RecordUserKeeps(r, s, ps);
        assert Seen(r, root, front) + [] == Seen(r, root, front);
      case SetChanged(b) =>
        assert Paths(Run(r, root, ops)) == Paths(s);
        assert Seen(r, root, front) + [] == Seen(r, root, front);
    }
  }

  lemma QueueOfNone(r: Rules)
    ensures EnqueueAll([], []) == [] && AllPortable(r, [])
  {
  }

  lemma {:induction false} QueueIsLastRecorded(seen: seq<Path>)
    ensures EnqueueAll([], seen) == LastOf(Recorded(seen), MAX_INSPECTED_FILES)
  {
    if seen != [] {
      QueueIsLastRecorded(seen[..|seen| - 1]);
    }
  }

  /** Over every run, the records are those of the 64 files that were recorded last, in order. */
  lemma RecordsAreNewest(r: Rules, root: string, ops: seq<Op>)
    requires Canonical(r)
    ensures Paths(Run(r, root, ops)) == LastOf(Recorded(Seen(r, root, ops)), MAX_INSPECTED_FILES)
  {
    RunQueues(r, root, ops);
    QueueIsLastRecorded(Seen(r, root, ops));
  }

  // ----- When staleness is forgotten -----

  lemma {:induction false} UnseenReads(r: Rules, fs: seq<ReadFile>, p: Path)
    requires forall i :: 0 <= i < |fs| ==> r.portable(fs[i].path) != Some(p)
    ensures p !in PortablesOfReads(r, fs)
  {
    if fs != [] {
      UnseenReads(r, fs[..|fs| - 1], p);
    }
  }

  lemma {:induction false} UnseenWrites(r: Rules, fs: seq<(Path, Option<Hash>)>, p: Path)
    requires forall i :: 0 <= i < |fs| ==> r.portable(fs[i].0) != Some(p)
    ensures p !in PortablesOfWrites(r, fs)
  {
    if fs != [] {
      UnseenWrites(r, fs[..|fs| - 1], p);
    }
  }

  lemma {:induction false} UnseenFound(r: Rules, again: seq<AutoRead>, p: Path)
    requires !ReadsPath(r, again, p)
    ensures p !in FoundAll(r, again)
  {
    hide FoundExcerpt;
    if again != [] {
      var front := again[..|again| - 1];
      assert forall i :: 0 <= i < |front| ==> front[i] == again[i];
      UnseenFound(r, front, p);
    }
  }

  lemma UnseenPromoted(r: Rules, root: string, again: seq<AutoRead>, p: Path)
    requires !ReadsPath(r, again, p)
    ensures p !in Found(r, root, again)
  {
    var some := FirstEight(again);
    assert forall i :: 0 <= i < |some| ==> some[i] == again[i];
    UnseenFound(r, some, p);
  }

  lemma UnseenBy(r: Rules, root: string, o: Observation, p: Path)
    requires !Sees(r, Observed(o), p)
    ensures p !in SeenBy(r, root, o)
  {
    hide Found;
    hide ReadsPath;
    UnseenReads(r, o.seen, p);
    UnseenWrites(r, o.written, p);
    UnseenPromoted(r, root, o.failed, p);
    UnseenPromoted(r, root, o.unverified, p);
    if o.mutation.Some? {
      UnseenPromoted(r, root, o.mutation.value.again, p);
    }
  }

  lemma {:induction false} RecordedGrows(seen: seq<Path>, more: seq<Path>, p: Path)
    requires p !in more
    ensures Recorded(seen) <= Recorded(seen + more)
    ensures forall i :: |Recorded(seen)| <= i < |Recorded(seen + more)| ==> Recorded(seen + more)[i] != p
  {
    hide LastOf;
    if more == [] {
      assert seen + more == seen;
    } else {
      RecordedGrows(seen, more[..|more| - 1], p);
      assert (seen + more)[..|seen + more| - 1] == seen + more[..|more| - 1];
    }
  }

  lemma {:induction false} SeenGrows(r: Rules, root: string, ops: seq<Op>, more: seq<Op>, p: Path)
    requires forall i :: 0 <= i < |more| ==> !Sees(r, more[i], p)
    ensures exists rest :: Seen(r, root, ops + more) == Seen(r, root, ops) + rest && p !in rest
  {
    hide SeenBy;
    hide Sees;
    if more == [] {
      assert ops + more == ops && Seen(r, root, ops) == Seen(r, root, ops) + [];
    } else {
      var n := |more| - 1;
      var all := ops + more;
      assert all[..|all| - 1] == ops + more[..n] && all[|all| - 1] == more[n];
      SeenGrows(r, root, ops, more[..n], p);
      var rest :| Seen(r, root, ops + more[..n]) == Seen(r, root, ops) + rest && p !in rest;
      var last := if more[n].Observed? then SeenBy(r, RootAfter(root, ops + more[..n]), more[n].observation) else [];
      if more[n].Observed? {
        UnseenBy(r, RootAfter(root, ops + more[..n]), more[n].observation, p);
      }
      assert Seen(r, root, all) == Seen(r, root, ops) + (rest + last);
    }
  }

  /** The record of p was made as number k of all, and not again since. */
  predicate RecordedAt(recorded: seq<Path>, p: Path, k: nat) {
    k < |recorded| && recorded[k] == p && forall i :: k < i < |recorded| ==> recorded[i] != p
  }

  lemma HeldIsLate(recorded: seq<Path>, p: Path, k: nat)
    requires RecordedAt(recorded, p, k)
    ensures p in LastOf(recorded, MAX_INSPECTED_FILES) <==> |recorded| - k <= MAX_INSPECTED_FILES
  {
    var last := LastOf(recorded, MAX_INSPECTED_FILES);
    var d := |recorded| - |last|;
    if k >= d {
      assert last[k - d] == p;
    }
  }

  lemma HeldIsPath(s: Context, p: Path)
    ensures Held(s, p) <==> p in Paths(s)
  {
    if Held(s, p) {
      var i :| 0 <= i < |s.inspected| && s.inspected[i].path == p;
      assert Paths(s)[i] == p;
    }
  }

  /** While nobody sees a stale file again, its staleness is remembered exactly until 64 files
      were recorded after it. */
  lemma StaleUntilEvictedIff(r: Rules, root: string, ops: seq<Op>, more: seq<Op>, p: Path, k: nat)
    requires Canonical(r) && StaleAt(Run(r, root, ops), p) && RecordedAt(Recorded(Seen(r, root, ops)), p, k)
    requires forall i :: 0 <= i < |more| ==> !Sees(r, more[i], p)
    ensures var later := |Recorded(Seen(r, root, ops + more))| - (k + 1);
      && (StaleAt(Run(r, root, ops + more), p) <==> later < MAX_INSPECTED_FILES)
      && (Held(Run(r, root, ops + more), p) <==> later < MAX_INSPECTED_FILES)
  {
    hide Run;
    hide Sees;
    hide LastOf;
    hide Recorded;
    hide Seen;
    var before := Seen(r, root, ops);
    SeenGrows(r, root, ops, more, p);
    var rest :| Seen(r, root, ops + more) == before + rest && p !in rest;
    RecordedGrows(before, rest, p);
    var recorded := Recorded(before + rest);
    assert RecordedAt(recorded, p, k);
    HeldIsLate(recorded, p, k);
    RecordsAreNewest(r, root, ops + more);
    HeldIsPath(Run(r, root, ops + more), p);
    if Held(Run(r, root, ops + more), p) {
      StaleUntilSeen(r, root, ops, more, p);
    }
  }

  lemma {:induction false} LatestExists(recorded: seq<Path>, p: Path)
    requires p in recorded
    ensures exists k: nat :: RecordedAt(recorded, p, k)
  {
    var n := |recorded| - 1;
    if recorded[n] == p {
      assert RecordedAt(recorded, p, n);
    } else {
      assert p in recorded[..n];
      LatestExists(recorded[..n], p);
      var k: nat :| RecordedAt(recorded[..n], p, k);
      assert RecordedAt(recorded, p, k);
    }
  }

  /** Every stale file was recorded at some place. */
  lemma StaleWasRecorded(r: Rules, root: string, ops: seq<Op>, p: Path)
    requires Canonical(r) && Held(Run(r, root, ops), p)
    ensures exists k: nat :: RecordedAt(Recorded(Seen(r, root, ops)), p, k)
  {
    hide Run;
    hide Recorded;
    hide Seen;
    RecordsAreNewest(r, root, ops);
    HeldIsPath(Run(r, root, ops), p);
    LatestExists(Recorded(Seen(r, root, ops)), p);
  }

  // ----- When nothing is forgotten -----

  lemma {:induction false} ElementsAtMost(ps: seq<Path>)
    ensures |Elements(ps)| <= |ps|
  {
    if ps != [] {
      var n := |ps| - 1;
      ElementsAtMost(ps[..n]);
      assert ps == ps[..n] + [ps[n]];
      assert Elements(ps) == Elements(ps[..n]) + {ps[n]};
    } else {
      assert Elements(ps) == {};
    }
  }

  /** As long as at most 64 different files were seen, each of them was recorded once. */
  lemma {:induction false} FewAreRecordedOnce(seen: seq<Path>)
    requires |Elements(seen)| <= MAX_INSPECTED_FILES
    ensures Elements(Recorded(seen)) == Elements(seen) && |Recorded(seen)| == |Elements(seen)|
  {
    if seen != [] {
      var n := |seen| - 1;
      assert seen == seen[..n] + [seen[n]];
      assert Elements(seen) == Elements(seen[..n]) + {seen[n]};
      SubsetSize(Elements(seen[..n]), Elements(seen));
      FewAreRecordedOnce(seen[..n]);
      var front := Recorded(seen[..n]);
      assert seen[n] in front <==> seen[n] in Elements(front);
      assert Elements(front + [seen[n]]) == Elements(front) + {seen[n]};
    } else {
      assert Elements(seen) == {} && Elements(Recorded(seen)) == {};
    }
  }

  /** Every file that a run saw still has its record exactly if it saw at most 64 different ones. */
  lemma EverySeenIsHeldIff(r: Rules, root: string, ops: seq<Op>)
    requires Canonical(r)
    ensures (forall p :: p in Seen(r, root, ops) ==> Held(Run(r, root, ops), p))
      <==> |Elements(Seen(r, root, ops))| <= MAX_INSPECTED_FILES
  {
    hide Run;
    hide Seen;
    hide Recorded;
    hide Held;
    var s, seen := Run(r, root, ops), Seen(r, root, ops);
    RecordsAreNewest(r, root, ops);
    forall p ensures Held(s, p) <==> p in Paths(s) {
      HeldIsPath(s, p);
    }
    if |Elements(seen)| <= MAX_INSPECTED_FILES {
      FewAreRecordedOnce(seen);
      forall p | p in seen ensures p in Paths(s) {
        assert p in Elements(Recorded(seen));
      }
    } else if forall p :: p in seen ==> Held(s, p) {
      ElementsAtMost(Paths(s));
      SubsetSize(Elements(seen), Elements(Paths(s)));
      assert false;
    }
  }

  /** A turn that saw at most 64 different files and finishes right after a refresh has a record
      of every one of them, with the hash the file had at the refresh. */
  lemma CompletionCoversSeen(
    r: Rules, root: string, ops: seq<Op>, w: Workspace, dirty: seq<Path>, gate: Gate, p: Path)
    requires Canonical(r) && |Elements(Seen(r, root, ops))| <= MAX_INSPECTED_FILES && p in Seen(r, root, ops)
    requires Finishes(r, AtCompletion(r, Run(r, root, ops), w, dirty), gate)
    ensures exists f ::
      f in AtCompletion(r, Run(r, root, ops), w, dirty).inspected && f.path == p && !f.stale && Fresh(r, w, f)
  {
    hide Run;
    hide Seen;
    hide Finishes;
    hide Fresh;
    hide Refresh;
    var s := Run(r, root, ops);
    var t := AtCompletion(r, s, w, dirty);
    RunIsGood(r, root, ops);
    RunQueues(r, root, ops);
    EverySeenIsHeldIff(r, root, ops);
    CompletionMeansFresh(r, s, w, dirty, gate);
    RefreshQueues(r, s, w);
    RecordUserKeeps(r, Refresh(r, s, w), dirty);
    HeldIsPath(s, p);
    var i :| 0 <= i < |Paths(s)| && Paths(s)[i] == p;
    assert Paths(t)[i] == t.inspected[i].path == p;
    assert t.inspected[i] in t.inspected;
  }

  // ----- One step -----

  /** A record survives the next file seen, unless that file is new, the list is full and the
      record is the oldest. */
  lemma HeldAfterUpsertIff(s: Context, q: Path, hash: Option<Hash>, p: Path)
    requires Good(s) && Held(s, p)
    ensures Held(Upsert(s, q, hash), p) <==>
      Held(s, q) || |s.inspected| < MAX_INSPECTED_FILES || s.inspected[0].path != p
  {
    hide Upsert;
    UpsertQueues(s, q, hash);
    HeldIsPath(s, p);
    HeldIsPath(s, q);
    HeldIsPath(Upsert(s, q, hash), p);
    var ps := Paths(s);
    if q !in ps && |ps| == MAX_INSPECTED_FILES {
      assert Enqueue(ps, q) == ps[1..] + [q];
      assert ps == [ps[0]] + ps[1..];
      assert DistinctPaths(s.inspected);
      assert forall i :: 1 <= i < |ps| ==> ps[i] != ps[0];
    }
  }

  /** Reading one file without a record clears the drift flag exactly when no record is stale but
      the one that makes room for it. */
  lemma NewReadClearsFlagIff(r: Rules, s: Context, f: ReadFile)
    requires Good(s) && s.workspaceChanged && r.Relative(f.path) && !Held(s, r.portable(f.path).value)
    ensures !Observe(r, s, ReadTool(true, [f])).workspaceChanged <==>
      forall i :: 0 <= i < |s.inspected| && s.inspected[i].stale ==> i == 0 && |s.inspected| == MAX_INSPECTED_FILES
  {
    hide Good;
    var p := r.portable(f.path).value;
    ReadToolReads(r, s, f);
    NotHeldIsNotFound(s, p);
    GoodIsBounded(s);
    var t, n := Upsert(s, p, f.contentHash), InspectedFile(p, f.contentHash, Present, false);
    var d := if |s.inspected| == MAX_INSPECTED_FILES then 1 else 0;
    assert t.inspected == s.inspected[d..] + [n];
    assert ReadOne(r, s, f).inspected == t.inspected && ReadOne(r, s, f).workspaceChanged;
    assert AnyStale(t) <==> exists i :: d <= i < |s.inspected| && s.inspected[i].stale by {
      forall i | d <= i < |s.inspected| && s.inspected[i].stale ensures AnyStale(t) {
        assert t.inspected[i - d] == s.inspected[i];
      }
    }
  }

  lemma NotHeldIsNotFound(s: Context, p: Path)
    requires !Held(s, p)
    ensures FindPath(s.inspected, p) == |s.inspected|
  {
  }

  lemma GoodIsBounded(s: Context)
    requires Good(s)
    ensures |s.inspected| <= MAX_INSPECTED_FILES
  {
  }

  // ----- A run that forgets -----

  const OLD_TEXT: Bytes := [65]
  const NEW_TEXT: Bytes := [66]

  function Name(i: nat): Path
    requires i <= MAX_INSPECTED_FILES
  {
    [i]
  }

  function PlainRules(hash: Bytes -> Hash): Rules {
    Rules(hash, (p: Path) => Some(p), (p: Path, q: Path) => p == q)
  }

  /** A successful read of the whole of file number i. */
  function ReadNumber(hash: Bytes -> Hash, i: nat): Op
    requires i <= MAX_INSPECTED_FILES
  {
    Observed(ReadTool(true, [ReadRows(hash, Name(i), OLD_TEXT, 1, LineRange(1, 1))]))
  }

  /** The first i files are read. */
  function Reads(hash: Bytes -> Hash, i: nat): (ops: seq<Op>)
    requires i <= MAX_INSPECTED_FILES
    ensures |ops| == i
  {
    seq(i, k requires 0 <= k < i => ReadNumber(hash, k))
  }

  function Record(hash: Bytes -> Hash, i: nat): InspectedFile
    requires i <= MAX_INSPECTED_FILES
  {
    InspectedFile(Name(i), Some(hash(OLD_TEXT)), Present, false)
  }

  function Records(hash: Bytes -> Hash, i: nat): (fs: seq<InspectedFile>)
    requires i <= MAX_INSPECTED_FILES
    ensures |fs| == i
  {
    seq(i, k requires 0 <= k < i => Record(hash, k))
  }

  /** All files as they were read, apart from the first. */
  function ChangedFirst(root: string): Workspace {
    Workspace(root, (map i: nat | i <= MAX_INSPECTED_FILES :: Name(i) := OLD_TEXT)[Name(0) := NEW_TEXT])
  }

  lemma ReadNumberAdds(hash: Bytes -> Hash, s: Context, i: nat)
    requires i <= MAX_INSPECTED_FILES && !Held(s, Name(i))
    ensures var t := Apply(PlainRules(hash), s, ReadNumber(hash, i));
      && t.inspected == Pushed(s.inspected, Record(hash, i), MAX_INSPECTED_FILES)
      && t.workspaceChanged == (s.workspaceChanged && AnyStale(t))
      && t.root == s.root && t.modified == s.modified && t.userModified == s.userModified
  {
    hide RowsOf;
    hide Binary;
    hide ExcerptOf;
    hide ExceptSpan;
    hide Numbered;
    hide Observe;
    var r := PlainRules(hash);
    var f := ReadRows(hash, Name(i), OLD_TEXT, 1, LineRange(1, 1));
    ReadToolReads(r, s, f);
    NotHeldIsNotFound(s, Name(i));
  }

  lemma {:induction false} ReadsLeave(hash: Bytes -> Hash, root: string, i: nat)
    requires i <= MAX_INSPECTED_FILES
    ensures var s := Run(PlainRules(hash), root, Reads(hash, i));
      && s.inspected == Records(hash, i) && !s.workspaceChanged
      && s.root == root && s.modified == [] && s.userModified == []
  {
    hide Apply;
    hide ReadNumber;
    if i > 0 {
      var s := Run(PlainRules(hash), root, Reads(hash, i - 1));
      ReadsLeave(hash, root, i - 1);
      assert Reads(hash, i)[..i - 1] == Reads(hash, i - 1);
      forall k | 0 <= k < |s.inspected| ensures s.inspected[k].path != Name(i - 1) {
        assert Name(k)[0] != Name(i - 1)[0];
      }
      ReadNumberAdds(hash, s, i - 1);
    }
  }

  predicate IsLive(r: Rules, w: Workspace, f: InspectedFile) {
    r.Relative(f.path) && !f.stale && Fresh(r, w, f)
  }

  lemma {:induction false} LiveStay(r: Rules, w: Workspace, fs: seq<InspectedFile>)
    requires forall i :: 0 <= i < |fs| ==> IsLive(r, w, fs[i])
    ensures RefreshAll(r, w, fs) == fs && DriftedPaths(r, w, fs) == []
  {
    if fs != [] {
      LiveStay(r, w, fs[..|fs| - 1]);
    }
  }

  /** The refresh when the first file alone has changed. */
  lemma {:induction false} FirstDrifts(r: Rules, w: Workspace, fs: seq<InspectedFile>)
    requires fs != [] && r.Relative(fs[0].path) && fs[0].contentHash.Some?
    requires LiveHash(r, w, fs[0].path).Some? && LiveHash(r, w, fs[0].path) != fs[0].contentHash
    requires forall i :: 1 <= i < |fs| ==> IsLive(r, w, fs[i])
    ensures DriftedPaths(r, w, fs) == [fs[0].path]
    ensures RefreshAll(r, w, fs) ==
      [fs[0].(stale := true, contentHash := LiveHash(r, w, fs[0].path))] + fs[1..]
  {
    var n := |fs| - 1;
    if n == 0 {
      assert fs[..0] == [] && RefreshAll(r, w, fs[..0]) == [] && DriftedPaths(r, w, fs[..0]) == [];
    } else {
      FirstDrifts(r, w, fs[..n]);
      assert fs[1..] == fs[..n][1..] + [fs[n]];
    }
  }

  lemma RecordIsLive(hash: Bytes -> Hash, root: string, i: nat)
    requires 0 < i <= MAX_INSPECTED_FILES
    ensures IsLive(PlainRules(hash), ChangedFirst(root), Record(hash, i))
  {
    var files := ChangedFirst(root).files;
    assert Name(i)[0] != Name(0)[0];
    assert Name(i) in files && files[Name(i)] == OLD_TEXT;
  }

  lemma FirstHasChanged(hash: Bytes -> Hash, root: string)
    ensures LiveHash(PlainRules(hash), ChangedFirst(root), Name(0)) == Some(hash(NEW_TEXT))
  {
    var files := ChangedFirst(root).files;
    assert Name(0) in files && files[Name(0)] == NEW_TEXT;
  }

  /** The first 64 files are read, and a refresh notices that the first one has changed. */
  function Noticed(hash: Bytes -> Hash, root: string): seq<Op> {
    Reads(hash, MAX_INSPECTED_FILES) + [Refreshed(ChangedFirst(root))]
  }

  lemma NoticedLeaves(hash: Bytes -> Hash, root: string)
    requires hash(OLD_TEXT) != hash(NEW_TEXT)
    ensures var s := Run(PlainRules(hash), root, Noticed(hash, root));
      var all := Records(hash, MAX_INSPECTED_FILES);
      && s.inspected == [all[0].(stale := true, contentHash := Some(hash(NEW_TEXT)))] + all[1..]
      && s.workspaceChanged && s.root == root && s.modified == [] && s.userModified == []
  {
    hide Apply;
    hide Reads;
    var r, w, all := PlainRules(hash), ChangedFirst(root), Records(hash, MAX_INSPECTED_FILES);
    ReadsLeave(hash, root, MAX_INSPECTED_FILES);
    var ops := Noticed(hash, root);
    assert ops[..|ops| - 1] == Reads(hash, MAX_INSPECTED_FILES);
    forall i | 1 <= i < |all| ensures IsLive(r, w, all[i]) {
      RecordIsLive(hash, root, i);
    }
    FirstHasChanged(hash, root);
    FirstDrifts(r, w, all);
    RefreshLeaves(r, Run(r, root, Reads(hash, MAX_INSPECTED_FILES)), w);
  }

  lemma RefreshLeaves(r: Rules, s: Context, w: Workspace)
    requires s.modified == []
    ensures var t := Apply(r, s, Refreshed(w));
      && t.inspected == RefreshAll(r, w, s.inspected) && t.root == w.root && t.modified == []
      && t.userModified == s.userModified
      && (DriftedPaths(r, w, s.inspected) != [] ==> t.workspaceChanged)
  {
  }

  lemma QuietRefresh(r: Rules, s: Context, w: Workspace)
    requires s.modified == [] && s.userModified == [] && s.root == w.root && !s.workspaceChanged
    requires forall i :: 0 <= i < |s.inspected| ==> IsLive(r, w, s.inspected[i])
    ensures var t := AtCompletion(r, s, w, []);
      t.inspected == s.inspected && !t.workspaceChanged && t.modified == [] && t.userModified == []
  {
    LiveStay(r, w, s.inspected);
  }

  /** After 64 files were read, the first one changes and a refresh notices.  Reading one more
      file then leaves nothing stale and clears the drift flag, and the turn can finish, although
      the change was never read. */
  lemma StalenessIsForgotten(hash: Bytes -> Hash, root: string, gate: Gate)
    requires hash(OLD_TEXT) != hash(NEW_TEXT)
    ensures Canonical(PlainRules(hash))
    ensures var s := Run(PlainRules(hash), root, Noticed(hash, root));
      StaleAt(s, Name(0)) && s.workspaceChanged
    ensures var t := Run(PlainRules(hash), root, Noticed(hash, root) + [ReadNumber(hash, MAX_INSPECTED_FILES)]);
      && !AnyStale(t) && !t.workspaceChanged && !Held(t, Name(0))
      && var done := AtCompletion(PlainRules(hash), t, ChangedFirst(root), []);
        (Finishes(PlainRules(hash), done, gate) <==> gate([], true))
  {
    hide Apply;
    hide AtCompletion;
    hide Noticed;
    hide ReadNumber;
    var r, w, all := PlainRules(hash), ChangedFirst(root), Records(hash, MAX_INSPECTED_FILES);
    var noticed, n := Noticed(hash, root), MAX_INSPECTED_FILES;
    var s := Run(r, root, noticed);
    NoticedLeaves(hash, root);
    assert s.inspected[0].path == Name(0) && s.inspected[0].stale;
    forall k | 0 <= k < n ensures s.inspected[k].path == Name(k) != Name(n) {
      assert Name(k)[0] != Name(n)[0];
    }
    var ops := noticed + [ReadNumber(hash, n)];
    assert ops[..|ops| - 1] == noticed;
    ReadNumberAdds(hash, s, n);
    var t := Run(r, root, ops);
    forall i | 0 <= i < |t.inspected| ensures IsLive(r, w, t.inspected[i]) && t.inspected[i].path != Name(0) {
      RecordIsLive(hash, root, i + 1);
      assert t.inspected[i].path == Name(i + 1) && Name(i + 1)[0] != Name(0)[0];
    }
    QuietRefresh(r, t, w);
  }
}
