/** What every run keeps of the evidence. */
module EvidenceRuns {
  // How long a record stays stale, and where excerpts come from.

  import opened Evidence
  import opened Excerpts
  import opened Text
  import opened Wrappers

  // ----- Staleness -----

  predicate StaleAt(s: Context, p: Path) {
    exists i :: 0 <= i < |s.inspected| && s.inspected[i].path == p && s.inspected[i].stale
  }

  predicate Held(s: Context, p: Path) {
    exists i :: 0 <= i < |s.inspected| && s.inspected[i].path == p
  }

  predicate ReadsPath(r: Rules, again: seq<AutoRead>, p: Path) {
    exists i :: 0 <= i < |again| && r.portable(again[i].path) == Some(p)
  }

  /** The operation reads or writes this path, or the runtime reads it meanwhile. */
  predicate Sees(r: Rules, op: Op, p: Path) {
    op.Observed? &&
    var o := op.observation;
    || (exists i :: 0 <= i < |o.seen| && r.portable(o.seen[i].path) == Some(p))
    || (exists i :: 0 <= i < |o.written| && r.portable(o.written[i].0) == Some(p))
    || ReadsPath(r, o.failed, p) || ReadsPath(r, o.unverified, p)
    || (o.mutation.Some? && ReadsPath(r, o.mutation.value.again, p))
  }

  lemma UpsertKeepsStale(s: Context, q: Path, hash: Option<Hash>, p: Path)
    requires q != p && Held(Upsert(s, q, hash), p) && DistinctPaths(s.inspected)
    ensures Held(s, p) && (StaleAt(s, p) ==> StaleAt(Upsert(s, q, hash), p))
  {
    var t := Upsert(s, q, hash);
    var k :| 0 <= k < |t.inspected| && t.inspected[k].path == p;
    assert t.inspected[k] in s.inspected by {
      if FindPath(s.inspected, q) == |s.inspected| {
        var all := s.inspected + [InspectedFile(q, hash, Present, false)];
        assert t.inspected[k] in all;
      }
    }
  }

  lemma {:induction false} ReadAllKeepsStale(r: Rules, s: Context, fs: seq<ReadFile>, p: Path)
    requires Good(s) && Held(ReadAll(r, s, fs), p)
    requires forall i :: 0 <= i < |fs| ==> r.portable(fs[i].path) != Some(p)
    ensures Held(s, p) && (StaleAt(s, p) ==> StaleAt(ReadAll(r, s, fs), p))
  {
    hide Upsert;
    hide ExcerptOf;
    hide Good;
    if fs != [] {
      var n := |fs| - 1;
      var before := ReadAll(r, s, fs[..n]);
      ReadAllIsGood(r, s, fs[..n]);
      if r.Relative(fs[n].path) {
        GoodIsDistinct(before);
        UpsertKeepsStale(before, r.portable(fs[n].path).value, fs[n].contentHash, p);
      }
      ReadAllKeepsStale(r, s, fs[..n], p);
    }
  }

  lemma {:induction false} WriteAllKeepsStale(r: Rules, s: Context, fs: seq<(Path, Option<Hash>)>, p: Path)
    requires Good(s) && Held(WriteAll(r, s, fs), p)
    requires forall i :: 0 <= i < |fs| ==> r.portable(fs[i].0) != Some(p)
    ensures Held(s, p) && (StaleAt(s, p) ==> StaleAt(WriteAll(r, s, fs), p))
  {
    hide Upsert;
    hide Good;
    if fs != [] {
      var n := |fs| - 1;
      var before := WriteAll(r, s, fs[..n]);
      WriteAllIsGood(r, s, fs[..n]);
      if r.Relative(fs[n].0) {
        GoodIsDistinct(before);
        UpsertKeepsStale(before, r.portable(fs[n].0).value, fs[n].1, p);
      }
      WriteAllKeepsStale(r, s, fs[..n], p);
    }
  }

  lemma GoodIsDistinct(s: Context)
    requires Good(s)
    ensures DistinctPaths(s.inspected)
  {
  }

  lemma RefreshKeepsStale(r: Rules, s: Context, w: Workspace, p: Path)
    requires Good(s) && Held(Refresh(r, s, w), p)
    ensures Held(s, p) && (StaleAt(s, p) ==> StaleAt(Refresh(r, s, w), p))
  {
    RefreshedRecords(r, w, s.inspected);
    var fs := RefreshAll(r, w, s.inspected);
    var k :| 0 <= k < |fs| && fs[k].path == p;
    assert fs[k] in fs;
  }

  /** The records of t are those of s, apart from other paths; nothing stale became fresh. */
  predicate KeepsStale(s: Context, t: Context, p: Path) {
    Held(t, p) ==> Held(s, p) && (StaleAt(s, p) ==> StaleAt(t, p))
  }

  lemma {:induction false} PromoteAllKeepsStale(r: Rules, s: Context, again: seq<AutoRead>, p: Path)
    requires Good(s) && !ReadsPath(r, again, p)
    ensures KeepsStale(s, PromoteAll(r, s, again), p)
  {
    hide Upsert;
    hide Good;
    hide Held;
    hide StaleAt;
    if again != [] {
      var front, last := again[..|again| - 1], again[|again| - 1];
      var before, e := PromoteAll(r, s, front), FoundExcerpt(r, last);
      assert forall i :: 0 <= i < |front| ==> front[i] == again[i];
      PromoteAllKeepsStale(r, s, front, p);
      PromoteAllIsGood(r, s, front);
      GoodIsDistinct(before);
      if e.Some? {
        StoreKeepsStale(before, e.value, p);
      }
    }
  }

  lemma StoreKeepsStale(s: Context, e: Excerpt, p: Path)
    requires e.path != p && DistinctPaths(s.inspected)
    ensures KeepsStale(s, StoreAutomatic(s, e), p)
  {
    hide Upsert;
    var u := Upsert(s, e.path, e.contentHash);
    assert StoreAutomatic(s, e).inspected == u.inspected;
    if Held(StoreAutomatic(s, e), p) {
      assert Held(u, p);
      UpsertKeepsStale(s, e.path, e.contentHash, p);
      assert StaleAt(u, p) ==> StaleAt(StoreAutomatic(s, e), p);
    }
  }

  lemma PromoteKeepsStale(r: Rules, s: Context, again: seq<AutoRead>, p: Path)
    requires Good(s) && !ReadsPath(r, again, p)
    ensures KeepsStale(s, Promote(r, s, again), p)
  {
    hide Good;
    var some := FirstEight(again);
    assert forall i :: 0 <= i < |some| ==> some[i] == again[i];
    PromoteAllKeepsStale(r, s, some, p);
  }

  lemma SameRecordsKeepStale(s: Context, t: Context, p: Path)
    requires s.inspected == t.inspected
    ensures KeepsStale(s, t, p)
  {
    assert Held(t, p) ==> Held(s, p);
    assert StaleAt(s, p) ==> StaleAt(t, p);
  }

  lemma InvalidateKeepsStale(r: Rules, s: Context, e: Effects, p: Path)
    ensures KeepsStale(s, Invalidate(r, s, e), p)
  {
  }

  lemma KeepsStaleTwice(s: Context, t: Context, u: Context, p: Path)
    requires KeepsStale(s, t, p) && KeepsStale(t, u, p)
    ensures KeepsStale(s, u, p)
  {
  }

  lemma DirectKeepsStale(r: Rules, s: Context, o: Observation, p: Path)
    requires Good(s) && !Sees(r, Observed(o), p)
    ensures KeepsStale(s, Direct(r, s, o), p)
  {
    hide WriteAll;
    hide ReadAll;
    hide Good;
    hide Held;
    hide StaleAt;
    hide ReadsPath;
    var written := if o.ok then WriteAll(r, s, o.written) else s;
    WriteAllIsGood(r, s, o.written);
    if o.ok && Held(written, p) {
      WriteAllKeepsStale(r, s, o.written, p);
    }
    var recorded := RecordUserAll(r, written, o.dirty);
    RecordUserKeeps(r, written, o.dirty);
    SameRecordsKeepStale(written, recorded, p);
    SameIsGood(written, recorded);
    if Held(Direct(r, s, o), p) {
      ReadAllKeepsStale(r, recorded, o.seen, p);
    }
  }

  lemma MutateKeepsStale(r: Rules, s: Context, m: Mutation, p: Path)
    requires Good(s) && !ReadsPath(r, m.again, p)
    ensures KeepsStale(s, Mutate(r, s, m), p)
  {
    hide Promote;
    hide Invalidate;
    hide Good;
    hide KeepsStale;
    hide ReadsPath;
    if m.effects.Some? {
      var touched := RecordTouched(r, s, m.effects.value.touched);
      var changed := Invalidate(r, touched, m.effects.value);
      RecordTouchedKeeps(r, s, m.effects.value.touched);
      SameRecordsKeepStale(s, touched, p);
      SameIsGood(s, touched);
      InvalidateKeepsStale(r, touched, m.effects.value, p);
      InvalidateIsGood(r, touched, m.effects.value);
      PromoteKeepsStale(r, changed, m.again, p);
      KeepsStaleTwice(s, touched, changed, p);
      KeepsStaleTwice(s, changed, Mutate(r, s, m), p);
    } else {
      PromoteKeepsStale(r, s, m.again, p);
    }
  }

  lemma ObserveKeepsStale(r: Rules, s: Context, o: Observation, p: Path)
    requires Good(s) && !Sees(r, Observed(o), p)
    ensures KeepsStale(s, Observe(r, s, o), p)
  {
    hide Promote;
    hide Mutate;
    hide Direct;
    hide Good;
    hide KeepsStale;
    hide Refreshes;
    hide ReadsPath;
    hide AnyStale;
    var direct := Direct(r, s, o);
    DirectIsGood(r, s, o);
    DirectKeepsStale(r, s, o, p);
    var diagnosed := if o.ok then direct else Promote(r, direct, o.failed);
    PromoteIsGood(r, direct, o.failed);
    PromoteKeepsStale(r, direct, o.failed, p);
    if !o.ok {
      KeepsStaleTwice(s, direct, diagnosed, p);
    }
    var changed := Changed(r, s, o);
    if o.mutation.Some? {
      MutateIsGood(r, diagnosed, o.mutation.value);
      MutateKeepsStale(r, diagnosed, o.mutation.value, p);
      KeepsStaleTwice(s, diagnosed, changed, p);
    }
    PromoteKeepsStale(r, changed, o.unverified, p);
    var last := Promote(r, changed, o.unverified);
    KeepsStaleTwice(s, changed, last, p);
    SameRecordsKeepStale(last, Observe(r, s, o), p);
    KeepsStaleTwice(s, last, Observe(r, s, o), p);
  }

  lemma ApplyKeepsStale(r: Rules, s: Context, op: Op, p: Path)
    requires Good(s) && !Sees(r, op, p) && Held(Apply(r, s, op), p)
    ensures Held(s, p) && (StaleAt(s, p) ==> StaleAt(Apply(r, s, op), p))
  {
    hide Observe;
    match op
    case Observed(o) => ObserveKeepsStale(r, s, o, p);
    case Refreshed(w) => RefreshKeepsStale(r, s, w, p);
    case UserChanged(ps) =>
      RecordUserKeeps(r, s, ps);
      SameRecordsKeepStale(s, Apply(r, s, op), p);
    case SetChanged(b) => SameRecordsKeepStale(s, Apply(r, s, op), p);
  }

  /** A stale record stays stale over every run in which neither a tool nor the runtime itself
      reads or writes its path, for as long as it is held. */
  lemma {:induction false} StaleUntilSeen(r: Rules, root: string, ops: seq<Op>, more: seq<Op>, p: Path)
    requires StaleAt(Run(r, root, ops), p) && Held(Run(r, root, ops + more), p)
    requires forall i :: 0 <= i < |more| ==> !Sees(r, more[i], p)
    ensures StaleAt(Run(r, root, ops + more), p)
  {
    hide Apply;
    hide Sees;
    if more == [] {
      assert ops + more == ops;
    } else {
      var n := |more| - 1;
      var all := ops + more;
      assert all[..|all| - 1] == ops + more[..n] && all[|all| - 1] == more[n];
      RunIsGood(r, root, ops + more[..n]);
      ApplyKeepsStale(r, Run(r, root, ops + more[..n]), more[n], p);
      StaleUntilSeen(r, root, ops, more[..n], p);
    }
  }

  /** But a full engine forgets its oldest record: reading one new file then drops the only
      stale one and clears the drift flag, although the stale file was not read again. */
  lemma EvictionForgetsStaleness(r: Rules, s: Context, f: ReadFile)
    requires Good(s) && |s.inspected| == MAX_INSPECTED_FILES && r.Relative(f.path)
    requires !Held(s, r.portable(f.path).value)
    requires forall i :: 1 <= i < |s.inspected| ==> !s.inspected[i].stale
    ensures var t := Observe(r, s, ReadTool(true, [f]));
      !AnyStale(t) && !t.workspaceChanged && !Held(t, s.inspected[0].path)
  {
    hide Good;
    var p := r.portable(f.path).value;
    GoodIsDistinct(s);
    ReadToolReads(r, s, f);
    assert FindPath(s.inspected, p) == |s.inspected|;
    var t := Upsert(s, p, f.contentHash);
    assert t.inspected == s.inspected[1..] + [InspectedFile(p, f.contentHash, Present, false)];
    assert ReadOne(r, s, f).inspected == t.inspected;
  }

  lemma ReadToolReads(r: Rules, s: Context, f: ReadFile)
    ensures Observe(r, s, ReadTool(true, [f])) == Settled(ReadOne(r, s, f), true)
  {
    hide ReadOne;
    var o := ReadTool(true, [f]);
    assert [f][..0] == [] && ReadAll(r, s, [f][..0]) == s;
    assert ReadAll(r, s, [f]) == ReadOne(r, s, f);
    assert Direct(r, s, o) == ReadOne(r, s, f);
    assert Promote(r, Changed(r, s, o), []) == Changed(r, s, o);
  }

  // ----- Excerpts come from reads -----

  /** An excerpt of rows that were read of some content; unless it says so, they are not cut. */
  ghost predicate TakenFrom(r: Rules, e: Excerpt, content: Bytes, limit: nat, range: LineRange) {
    range.start >= 1 &&
    var rows := RowsOf(content, limit, range);
    && rows != [] && e.startLine == range.start && e.endLine == range.start + |rows| - 1
    && e.text == ExcerptText(rows) && e.contentHash == Some(r.hash(content))
    && (IsCut(content, limit) ==> e.truncated)
  }

  ghost predicate FromRead(r: Rules, e: Excerpt) {
    exists content: Bytes, limit: nat, range: LineRange :: TakenFrom(r, e, content, limit, range)
  }

  /** A file of a read result that the read tool could have produced. */
  ghost predicate Honest(r: Rules, f: ReadFile) {
    f.rows == [] || exists content: Bytes, limit: nat, range: LineRange ::
      range.start >= 1 && f == ReadRows(r.hash, f.path, content, limit, range)
  }

  ghost predicate HonestOp(r: Rules, op: Op) {
    op.Observed? ==> forall i :: 0 <= i < |op.observation.seen| ==> Honest(r, op.observation.seen[i])
  }

  ghost predicate AllFromReads(r: Rules, s: Context) {
    forall e :: e in s.excerpts ==> FromRead(r, e)
  }

  lemma {:induction false} NumberedBounds(lines: seq<Bytes>, first: nat)
    requires lines != []
    ensures MinNumber(Numbered(lines, first)) == first && MaxNumber(Numbered(lines, first)) == first + |lines| - 1
  {
    if |lines| > 1 {
      var front := lines[..|lines| - 1];
      NumberedBounds(front, first);
      assert Numbered(lines, first)[..|lines| - 1] == Numbered(front, first);
    }
  }

  lemma ReadIsTaken(r: Rules, p: Path, f: ReadFile, content: Bytes, limit: nat, range: LineRange)
    requires range.start >= 1 && f == ReadRows(r.hash, f.path, content, limit, range) && ExcerptOf(p, f).Some?
    ensures TakenFrom(r, ExcerptOf(p, f).value, content, limit, range)
  {
    hide Built;
    hide Between;
    var rows := RowsOf(content, limit, range);
    assert f.rows == Numbered(rows, range.start);
    assert Texts(f.rows) == rows;
    NumberedBounds(rows, range.start);
  }

  lemma ExcerptIsFromRead(r: Rules, p: Path, f: ReadFile)
    requires Honest(r, f) && ExcerptOf(p, f).Some?
    ensures FromRead(r, ExcerptOf(p, f).value)
  {
    var content: Bytes, limit: nat, range: LineRange :|
      range.start >= 1 && f == ReadRows(r.hash, f.path, content, limit, range);
    ReadIsTaken(r, p, f, content, limit, range);
  }

  /** What the runtime reads itself is an excerpt of a complete read. */
  lemma AutomaticIsTaken(r: Rules, p: Path, content: Bytes, line: Option<nat>)
    requires AutoExcerpt(r.hash, p, content, line).Some?
    ensures TakenFrom(r, AutoExcerpt(r.hash, p, content, line).value, content, |content|, AutoRange(line))
    ensures FromRead(r, AutoExcerpt(r.hash, p, content, line).value)
  {
    hide Built;
    hide AppendAll;
    hide Between;
    var rows := Between(Lines(content), AutoRange(line));
    AppendedIsBuilt([], rows);
  }

  lemma UpsertKeepsExcerpts(s: Context, p: Path, hash: Option<Hash>)
    ensures forall e :: e in Upsert(s, p, hash).excerpts ==> e in s.excerpts
  {
  }

  lemma PushedIsOld(s: Context, x: Excerpt, e: Excerpt)
    requires e in PushExcerpt(s, x).excerpts
    ensures e == x || e in s.excerpts
  {
    var all := ExceptSpan(s.excerpts, x) + [x];
    assert e in all;
  }

  lemma {:induction false} ReadAllFromReads(r: Rules, s: Context, fs: seq<ReadFile>)
    requires AllFromReads(r, s) && forall i :: 0 <= i < |fs| ==> Honest(r, fs[i])
    ensures AllFromReads(r, ReadAll(r, s, fs))
  {
    hide Honest;
    hide FromRead;
    hide Upsert;
    hide ExcerptOf;
    hide PushExcerpt;
    if fs != [] {
      var before, f := ReadAll(r, s, fs[..|fs| - 1]), fs[|fs| - 1];
      ReadAllFromReads(r, s, fs[..|fs| - 1]);
      if r.Relative(f.path) {
        var p := r.portable(f.path).value;
        UpsertKeepsExcerpts(before, p, f.contentHash);
        var x := ExcerptOf(p, f);
        if x.Some? {
          ExcerptIsFromRead(r, p, f);
          forall e | e in ReadAll(r, s, fs).excerpts ensures FromRead(r, e) {
            PushedIsOld(Upsert(before, p, f.contentHash), x.value, e);
          }
        }
      }
    }
  }

  lemma {:induction false} WriteAllFromReads(r: Rules, s: Context, fs: seq<(Path, Option<Hash>)>)
    requires AllFromReads(r, s)
    ensures AllFromReads(r, WriteAll(r, s, fs))
  {
    hide FromRead;
    hide Upsert;
    if fs != [] {
      var n := |fs| - 1;
      var before := WriteAll(r, s, fs[..n]);
      WriteAllFromReads(r, s, fs[..n]);
      if r.Relative(fs[n].0) {
        UpsertKeepsExcerpts(before, r.portable(fs[n].0).value, fs[n].1);
      }
    }
  }

  lemma {:induction false} PromoteAllFromReads(r: Rules, s: Context, again: seq<AutoRead>)
    requires AllFromReads(r, s)
    ensures AllFromReads(r, PromoteAll(r, s, again))
  {
    hide FromRead;
    hide Upsert;
    hide PushExcerpt;
    hide AutoExcerpt;
    if again != [] {
      var front, last := again[..|again| - 1], again[|again| - 1];
      var before, found := PromoteAll(r, s, front), FoundExcerpt(r, last);
      PromoteAllFromReads(r, s, front);
      if found.Some? {
        AutomaticIsTaken(r, r.portable(last.path).value, last.content.value, last.line);
        UpsertKeepsExcerpts(before, found.value.path, found.value.contentHash);
        forall e | e in StoreAutomatic(before, found.value).excerpts ensures FromRead(r, e) {
          PushedIsOld(Upsert(before, found.value.path, found.value.contentHash), found.value, e);
        }
      }
    }
  }

  lemma PromoteFromReads(r: Rules, s: Context, again: seq<AutoRead>)
    requires AllFromReads(r, s)
    ensures AllFromReads(r, Promote(r, s, again))
  {
    hide FromRead;
    hide PromoteAll;
    PromoteAllFromReads(r, s, FirstEight(again));
  }

  lemma MutateFromReads(r: Rules, s: Context, m: Mutation)
    requires AllFromReads(r, s)
    ensures AllFromReads(r, Mutate(r, s, m))
  {
    hide FromRead;
    hide Promote;
    if m.effects.Some? {
      var touched := RecordTouched(r, s, m.effects.value.touched);
      RecordTouchedKeeps(r, s, m.effects.value.touched);
      PromoteFromReads(r, Invalidate(r, touched, m.effects.value), m.again);
    } else {
      PromoteFromReads(r, s, m.again);
    }
  }

  lemma ObserveFromReads(r: Rules, s: Context, o: Observation)
    requires AllFromReads(r, s) && HonestOp(r, Observed(o))
    ensures AllFromReads(r, Observe(r, s, o))
  {
    hide FromRead;
    hide Honest;
    hide ReadAll;
    hide WriteAll;
    hide Promote;
    hide Mutate;
    hide Refreshes;
    var written := if o.ok then WriteAll(r, s, o.written) else s;
    WriteAllFromReads(r, s, o.written);
    RecordUserKeeps(r, written, o.dirty);
    ReadAllFromReads(r, RecordUserAll(r, written, o.dirty), o.seen);
    var direct := Direct(r, s, o);
    PromoteFromReads(r, direct, o.failed);
    var diagnosed := if o.ok then direct else Promote(r, direct, o.failed);
    if o.mutation.Some? {
      MutateFromReads(r, diagnosed, o.mutation.value);
    }
    PromoteFromReads(r, Changed(r, s, o), o.unverified);
  }

  /** Over every run of honest reads, every excerpt is what the builder keeps of a read. */
  lemma {:induction false} RunExcerptsFromReads(r: Rules, root: string, ops: seq<Op>)
    requires forall i :: 0 <= i < |ops| ==> HonestOp(r, ops[i])
    ensures AllFromReads(r, Run(r, root, ops))
  {
    hide Honest;
    hide FromRead;
    hide Observe;
    if ops != [] {
      var s, op := Run(r, root, ops[..|ops| - 1]), ops[|ops| - 1];
      RunExcerptsFromReads(r, root, ops[..|ops| - 1]);
      assert HonestOp(r, op);
      if op.Observed? {
        ObserveFromReads(r, s, op.observation);
      } else if op.UserChanged? {
        RecordUserKeeps(r, s, op.paths);
      }
    }
  }
}
