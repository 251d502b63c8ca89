/** The changed paths and the excerpts of files read again. */
module EvidenceLists {
  // Which paths count as changed after a result or a refresh, and that the first files named by a
  // failure or a change are indeed read again.

  import opened Evidence
  import opened Excerpts
  import opened StaleRecords
  import opened Wrappers
  import Text

  // ----- Changed paths -----

  lemma {:induction false} ReadAllKeepsModified(r: Rules, s: Context, fs: seq<ReadFile>)
    ensures ReadAll(r, s, fs).modified == s.modified
  {
    if fs != [] {
      ReadAllKeepsModified(r, s, fs[..|fs| - 1]);
    }
  }

  lemma {:induction false} PromoteAllKeepsModified(r: Rules, s: Context, again: seq<AutoRead>)
    ensures PromoteAll(r, s, again).modified == s.modified
  {
    if again != [] {
      PromoteAllKeepsModified(r, s, again[..|again| - 1]);
    }
  }

  lemma PromoteKeepsModified(r: Rules, s: Context, again: seq<AutoRead>)
    ensures Promote(r, s, again).modified == s.modified
  {
    PromoteAllKeepsModified(r, s, FirstEight(again));
  }

  predicate Wrote(r: Rules, fs: seq<(Path, Option<Hash>)>, p: Path) {
    r.Relative(p) && exists i :: 0 <= i < |fs| && fs[i].0 == p
  }

  lemma RecordedPath(s: Context, p: Path)
    requires |s.modified| < MAX_CONTEXT_ITEMS
    ensures forall q :: q in RecordModified(s, p).modified <==> q in s.modified || q == p
    ensures |RecordModified(s, p).modified| <= |s.modified| + 1
  {
  }

  lemma UpsertKeepsModified(r: Rules, s: Context, p: Path, hash: Option<Hash>)
    ensures UpsertPath(r, s, p, hash).modified == s.modified
  {
  }

  lemma {:induction false} WritesAreChanges(r: Rules, s: Context, fs: seq<(Path, Option<Hash>)>)
    requires |s.modified| + |fs| <= MAX_CONTEXT_ITEMS
    ensures forall q :: q in WriteAll(r, s, fs).modified <==> q in s.modified || Wrote(r, fs, q)
    ensures |WriteAll(r, s, fs).modified| <= |s.modified| + |fs|
  {
    hide Upsert;
    if fs != [] {
      var n := |fs| - 1;
      var before, p := WriteAll(r, s, fs[..n]), fs[n].0;
      WritesAreChanges(r, s, fs[..n]);
      if r.Relative(p) {
        var seen := UpsertPath(r, before, p, fs[n].1);
        UpsertKeepsModified(r, before, p, fs[n].1);
        RecordedPath(seen, p);
      }
      assert fs == fs[..n] + [fs[n]];
      forall q ensures Wrote(r, fs, q) <==> Wrote(r, fs[..n], q) || (q == p && r.Relative(p)) {
        WroteOneMore(r, fs[..n], fs[n], q);
      }
    }
  }

  lemma WroteOneMore(r: Rules, fs: seq<(Path, Option<Hash>)>, f: (Path, Option<Hash>), q: Path)
    ensures Wrote(r, fs + [f], q) <==> Wrote(r, fs, q) || (q == f.0 && r.Relative(f.0))
  {
    var more := fs + [f];
    assert more[|fs|] == f && forall i :: 0 <= i < |fs| ==> more[i] == fs[i];
  }

  lemma {:induction false} TouchedAreChanges(r: Rules, s: Context, ps: seq<Path>)
    requires |s.modified| + |ps| <= MAX_CONTEXT_ITEMS
    ensures forall q :: q in RecordTouched(r, s, ps).modified <==> q in s.modified || (q in ps && r.Relative(q))
    ensures |RecordTouched(r, s, ps).modified| <= |s.modified| + |ps|
  {
    if ps != [] {
      var n := |ps| - 1;
      TouchedAreChanges(r, s, ps[..n]);
      assert ps == ps[..n] + [ps[n]];
      RecordedPath(RecordTouched(r, s, ps[..n]), ps[n]);
    }
  }

  function Touched(o: Observation): seq<Path> {
    if HasEffects(o) then o.mutation.value.effects.value.touched else []
  }

  /** As long as there is room for 48 of them, the changed paths after a result are those from before,
      those it wrote if it succeeded, and those its command touched. */
  lemma ChangesAfterObserve(r: Rules, s: Context, o: Observation)
    requires |s.modified| + |o.written| + |Touched(o)| <= 48
    ensures forall q :: q in Observe(r, s, o).modified <==>
      q in s.modified || (o.ok && Wrote(r, o.written, q)) || (q in Touched(o) && r.Relative(q))
  {
    hide ReadAll;
    hide WriteAll;
    hide Promote;
    hide Refreshes;
    hide Wrote;
    var written := if o.ok then WriteAll(r, s, o.written) else s;
    WritesAreChanges(r, s, o.written);
    RecordUserKeeps(r, written, o.dirty);
    ReadAllKeepsModified(r, RecordUserAll(r, written, o.dirty), o.seen);
    PromoteKeepsModified(r, Direct(r, s, o), o.failed);
    var t := if o.ok then Direct(r, s, o) else Promote(r, Direct(r, s, o), o.failed);
    assert t.modified == written.modified;
    if o.mutation.Some? {
      var m := o.mutation.value;
      if m.effects.Some? {
        TouchedAreChanges(r, t, m.effects.value.touched);
        PromoteKeepsModified(r, Invalidate(r, RecordTouched(r, t, m.effects.value.touched), m.effects.value), m.again);
      } else {
        PromoteKeepsModified(r, t, m.again);
      }
    }
    PromoteKeepsModified(r, Changed(r, s, o), o.unverified);
  }

  /** A refresh forgets the changed paths that are none of the workspace, and no others. */
  lemma ChangesAfterRefresh(r: Rules, s: Context, w: Workspace)
    ensures forall q :: q in Refresh(r, s, w).modified <==> q in s.modified && r.Relative(q)
    ensures Refresh(r, s, w).userModified == s.userModified
  {
    OnlyRelativeIs(r, s.modified);
  }

  lemma {:induction false} OnlyRelativeIs(r: Rules, ps: seq<Path>)
    ensures forall q :: q in OnlyRelative(r, ps) <==> q in ps && r.Relative(q)
  {
    if ps != [] {
      OnlyRelativeIs(r, ps[..|ps| - 1]);
      assert ps == ps[..|ps| - 1] + [ps[|ps| - 1]];
    }
  }

  // ----- No span is kept twice -----

  predicate SameSpan(e: Excerpt, x: Excerpt) {
    e.path == x.path && e.startLine == x.startLine && e.endLine == x.endLine
  }

  predicate SpansDiffer(es: seq<Excerpt>) {
    forall i, j :: 0 <= i < j < |es| ==> !SameSpan(es[i], es[j])
  }

  lemma {:induction false} ExceptSpanIs(es: seq<Excerpt>, x: Excerpt)
    ensures forall e :: e in ExceptSpan(es, x) <==> e in es && !SameSpan(e, x)
    ensures SpansDiffer(es) ==> SpansDiffer(ExceptSpan(es, x))
  {
    if es != [] {
      var n := |es| - 1;
      var front := ExceptSpan(es[..n], x);
      ExceptSpanIs(es[..n], x);
      assert es == es[..n] + [es[n]];
      if SpansDiffer(es) {
        forall i | 0 <= i < |front| ensures !SameSpan(front[i], es[n]) {
          assert front[i] in es[..n];
        }
      }
    }
  }

  predicate NoneLike(es: seq<Excerpt>, e: Excerpt) {
    forall x :: x in es ==> !SameSpan(x, e)
  }

  lemma FrontDiffers(es: seq<Excerpt>)
    requires es != [] && SpansDiffer(es)
    ensures SpansDiffer(es[..|es| - 1])
    ensures NoneLike(es[..|es| - 1], es[|es| - 1])
  {
  }

  lemma OneMoreDiffers(es: seq<Excerpt>, e: Excerpt)
    requires SpansDiffer(es) && NoneLike(es, e)
    ensures SpansDiffer(es + [e])
  {
  }

  lemma {:induction false} ExceptPathsKeepsSpans(es: seq<Excerpt>, ps: seq<Path>)
    requires SpansDiffer(es)
    ensures SpansDiffer(ExceptPaths(es, ps))
  {
    hide SpansDiffer;
    hide SameSpan;
    if es == [] {
      assert ExceptPaths(es, ps) == es;
    } else {
      var n := |es| - 1;
      FrontDiffers(es);
      ExceptPathsKeepsSpans(es[..n], ps);
      OneMoreDiffers(ExceptPaths(es[..n], ps), es[n]);
      assert ExceptPaths(es[..n], ps) + [] == ExceptPaths(es[..n], ps);
    }
  }

  lemma PushKeepsSpans(s: Context, e: Excerpt)
    requires SpansDiffer(s.excerpts)
    ensures SpansDiffer(PushExcerpt(s, e).excerpts)
  {
    var kept := ExceptSpan(s.excerpts, e);
    ExceptSpanIs(s.excerpts, e);
    forall i | 0 <= i < |kept| ensures !SameSpan(kept[i], e) {
      assert kept[i] in kept;
    }
  }

  lemma UpsertKeepsSpans(s: Context, p: Path, hash: Option<Hash>)
    requires SpansDiffer(s.excerpts)
    ensures SpansDiffer(Upsert(s, p, hash).excerpts)
  {
    ExceptPathsKeepsSpans(s.excerpts, [p]);
  }

  lemma {:induction false} ReadAllKeepsSpans(r: Rules, s: Context, fs: seq<ReadFile>)
    requires SpansDiffer(s.excerpts)
    ensures SpansDiffer(ReadAll(r, s, fs).excerpts)
  {
    hide Upsert;
    hide SpansDiffer;
    hide ExcerptOf;
    if fs != [] {
      var n := |fs| - 1;
      ReadAllKeepsSpans(r, s, fs[..n]);
      if r.Relative(fs[n].path) {
        var p, before := r.portable(fs[n].path).value, ReadAll(r, s, fs[..n]);
        UpsertKeepsSpans(before, p, fs[n].contentHash);
        if ExcerptOf(p, fs[n]).Some? {
          PushKeepsSpans(Upsert(before, p, fs[n].contentHash), ExcerptOf(p, fs[n]).value);
        }
      }
    }
  }

  lemma {:induction false} WriteAllKeepsSpans(r: Rules, s: Context, fs: seq<(Path, Option<Hash>)>)
    requires SpansDiffer(s.excerpts)
    ensures SpansDiffer(WriteAll(r, s, fs).excerpts)
  {
    hide Upsert;
    hide SpansDiffer;
    if fs != [] {
      var n := |fs| - 1;
      WriteAllKeepsSpans(r, s, fs[..n]);
      if r.Relative(fs[n].0) {
        var p, before := r.portable(fs[n].0).value, WriteAll(r, s, fs[..n]);
        UpsertKeepsSpans(before, p, fs[n].1);
        ExceptPathsKeepsSpans(Upsert(before, p, fs[n].1).excerpts, [fs[n].0]);
      }
    }
  }

  lemma {:induction false} PromoteAllKeepsSpans(r: Rules, s: Context, again: seq<AutoRead>)
    requires SpansDiffer(s.excerpts)
    ensures SpansDiffer(PromoteAll(r, s, again).excerpts)
  {
    hide Upsert;
    hide SpansDiffer;
    hide FoundExcerpt;
    if again != [] {
      var n := |again| - 1;
      var before, e := PromoteAll(r, s, again[..n]), FoundExcerpt(r, again[n]);
      PromoteAllKeepsSpans(r, s, again[..n]);
      if e.Some? {
        UpsertKeepsSpans(before, e.value.path, e.value.contentHash);
        PushKeepsSpans(Upsert(before, e.value.path, e.value.contentHash), e.value);
      }
    }
  }

  lemma PromoteKeepsSpans(r: Rules, s: Context, again: seq<AutoRead>)
    requires SpansDiffer(s.excerpts)
    ensures SpansDiffer(Promote(r, s, again).excerpts)
  {
    hide SpansDiffer;
    PromoteAllKeepsSpans(r, s, FirstEight(again));
  }

  lemma ObserveKeepsSpans(r: Rules, s: Context, o: Observation)
    requires SpansDiffer(s.excerpts)
    ensures SpansDiffer(Observe(r, s, o).excerpts)
  {
    hide ReadAll;
    hide WriteAll;
    hide Promote;
    hide Refreshes;
    hide SpansDiffer;
    var written := if o.ok then WriteAll(r, s, o.written) else s;
    WriteAllKeepsSpans(r, s, o.written);
    RecordUserKeeps(r, written, o.dirty);
    ReadAllKeepsSpans(r, RecordUserAll(r, written, o.dirty), o.seen);
    PromoteKeepsSpans(r, Direct(r, s, o), o.failed);
    var t := if o.ok then Direct(r, s, o) else Promote(r, Direct(r, s, o), o.failed);
    if o.mutation.Some? {
      ChangeKeepsSpans(r, t, o.mutation.value);
    }
    PromoteKeepsSpans(r, Changed(r, s, o), o.unverified);
  }

  lemma ChangeKeepsSpans(r: Rules, s: Context, m: Mutation)
    requires SpansDiffer(s.excerpts)
    ensures SpansDiffer(Mutate(r, s, m).excerpts)
  {
    hide Promote;
    if m.effects.Some? {
      RecordTouchedKeeps(r, s, m.effects.value.touched);
      ExceptPathsKeepsSpans(s.excerpts, m.effects.value.paths);
      PromoteKeepsSpans(r, Invalidate(r, RecordTouched(r, s, m.effects.value.touched), m.effects.value), m.again);
    } else {
      PromoteKeepsSpans(r, s, m.again);
    }
  }

  /** Over every run no two excerpts are of the same lines of the same file. */
  lemma {:induction false} RunKeepsSpans(r: Rules, root: string, ops: seq<Op>)
    ensures SpansDiffer(Run(r, root, ops).excerpts)
  {
    hide Observe;
    if ops != [] {
      var s, op := Run(r, root, ops[..|ops| - 1]), ops[|ops| - 1];
      RunKeepsSpans(r, root, ops[..|ops| - 1]);
      match op
      case Observed(o) => ObserveKeepsSpans(r, s, o);
      case Refreshed(w) => ExceptPathsKeepsSpans(s.excerpts, DriftedPaths(r, w, s.inspected));
      case UserChanged(ps) => RecordUserKeeps(r, s, ps);
      case SetChanged(b) =>
    }
  }

  // ----- Files that are read again -----

  /** One of the last n excerpts is of this file. */
  predicate IsRecent(es: seq<Excerpt>, p: Path, n: nat) {
    exists k :: 0 <= k < |es| && |es| - k <= n && es[k].path == p
  }

  lemma {:induction false} OthersStayRecent(es: seq<Excerpt>, paths: seq<Path>, p: Path, n: nat)
    requires IsRecent(es, p, n) && p !in paths
    ensures IsRecent(ExceptPaths(es, paths), p, n)
  {
    var m := |es| - 1;
    var front := ExceptPaths(es[..m], paths);
    if es[m].path == p {
      assert ExceptPaths(es, paths) == front + [es[m]];
      assert (front + [es[m]])[|front|].path == p;
    } else {
      var k :| 0 <= k < |es| && |es| - k <= n && es[k].path == p;
      assert es[..m][k].path == p && |es[..m]| - k <= n - 1;
      OthersStayRecent(es[..m], paths, p, n - 1);
      var j :| 0 <= j < |front| && |front| - j <= n - 1 && front[j].path == p;
      assert ExceptPaths(es, paths)[j] == front[j];
    }
  }

  lemma {:induction false} OtherSpansStayRecent(es: seq<Excerpt>, x: Excerpt, p: Path, n: nat)
    requires IsRecent(es, p, n) && x.path != p
    ensures IsRecent(ExceptSpan(es, x), p, n)
  {
    var m := |es| - 1;
    var front := ExceptSpan(es[..m], x);
    if es[m].path == p {
      assert ExceptSpan(es, x) == front + [es[m]];
      assert (front + [es[m]])[|front|].path == p;
    } else {
      var k :| 0 <= k < |es| && |es| - k <= n && es[k].path == p;
      assert es[..m][k].path == p && |es[..m]| - k <= n - 1;
      OtherSpansStayRecent(es[..m], x, p, n - 1);
      var j :| 0 <= j < |front| && |front| - j <= n - 1 && front[j].path == p;
      assert ExceptSpan(es, x)[j] == front[j];
    }
  }

  /** Storing an excerpt makes its file the most recent one and moves the others back by one. */
  lemma StoredIsRecent(s: Context, e: Excerpt, p: Path, n: nat)
    requires n < MAX_FILE_EXCERPTS
    ensures IsRecent(StoreAutomatic(s, e).excerpts, e.path, 1)
    ensures IsRecent(s.excerpts, p, n) ==> IsRecent(StoreAutomatic(s, e).excerpts, p, n + 1)
  {
    hide ExceptPaths;
    hide ExceptSpan;
    var t := Upsert(s, e.path, e.contentHash);
    var kept, all := ExceptSpan(t.excerpts, e), StoreAutomatic(s, e).excerpts;
    assert all[|all| - 1] == e;
    if IsRecent(s.excerpts, p, n) && p != e.path {
      OthersStayRecent(s.excerpts, [e.path], p, n);
      OtherSpansStayRecent(t.excerpts, e, p, n);
      var k :| 0 <= k < |kept| && |kept| - k <= n && kept[k].path == p;
      if |kept| + 1 > MAX_FILE_EXCERPTS {
        assert all[k - 1] == kept[k];
      } else {
        assert all[k] == kept[k];
      }
    }
  }

  lemma RecentFor(es: seq<Excerpt>, p: Path, m: nat, n: nat)
    requires IsRecent(es, p, m) && m <= n
    ensures IsRecent(es, p, n)
  {
  }

  lemma {:induction false} ReadAgainIsRecent(r: Rules, s: Context, again: seq<AutoRead>, i: nat)
    requires i < |again| <= MAX_AUTOMATIC_READS && FoundExcerpt(r, again[i]).Some?
    requires !Repeats(again[..i], again[i].path)
    ensures IsRecent(PromoteAll(r, s, again).excerpts, r.portable(again[i].path).value, |again| - i)
  {
    hide FoundExcerpt;
    hide StoreAutomatic;
    var n := |again| - 1;
    var front, last, p := again[..n], again[n], r.portable(again[i].path).value;
    var before, e := PromoteAll(r, s, front), FoundExcerpt(r, last);
    if i < n {
      assert front[..i] == again[..i];
      ReadAgainIsRecent(r, s, front, i);
    }
    if e.Some? && !Repeats(front, last.path) {
      StoredIsRecent(before, e.value, p, n - i);
    } else {
      RecentFor(before.excerpts, p, n - i, n - i + 1);
    }
  }

  /** Of the first eight files to be read again, every one that has some text, the first of its path,
      has a new excerpt. */
  lemma FirstEightAreReadAgain(r: Rules, s: Context, again: seq<AutoRead>, i: nat)
    requires s.root != "" && i < |again| && i < 8 && FoundExcerpt(r, again[i]).Some?
    requires !Repeats(again[..i], again[i].path)
    ensures IsRecent(Promote(r, s, again).excerpts, r.portable(again[i].path).value, 8)
  {
    hide FoundExcerpt;
    var first := FirstEight(again);
    assert first[..i] == again[..i];
    ReadAgainIsRecent(r, s, first, i);
    RecentFor(PromoteAll(r, s, first).excerpts, r.portable(again[i].path).value, |first| - i, 8);
  }

  function Smaller(a: nat, b: nat): nat {
    if a < b then a else b
  }

  /** A file that the runtime reads itself gives an excerpt exactly when it is text of at most four
      megabytes and reaches far enough: of its first 96 lines, or from eight lines before a
      diagnostic to sixteen after it. */
  lemma AutomaticLines(hash: Bytes -> Hash, p: Path, content: Bytes, line: Option<nat>)
    ensures var e, lines := AutoExcerpt(hash, p, content, line), |Text.Lines(content)|;
      var first := if line.Some? && line.value > 8 then line.value - 8 else 1;
      var last := if line.None? then 96 else if line.value == 0 then 17 else line.value + 16;
      && (e.Some? <==> |content| <= 4 * 1024 * 1024 && !Binary(content) && first <= lines)
      && (e.Some? ==>
            && e.value.startLine == first && e.value.endLine == Smaller(last, lines)
            && var text := AppendAll([], Between(Text.Lines(content), LineRange(first, last)));
               (e.value.truncated <==> last < lines || |text| > 4096))
  {
    hide Binary;
    hide Text.Lines;
  }
}
