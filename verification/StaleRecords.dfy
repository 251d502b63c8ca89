/** What one tool result makes stale, and what it makes fresh. */
module StaleRecords {
  // A result shows files, may change the workspace, and has files read again.  What is read after
  // the change is fresh, what the change affects is stale, and everything else is as before.

  import opened Evidence
  import opened EvidenceRuns
  import opened Excerpts
  import opened InspectedQueue
  import opened Text
  import opened Wrappers

  /** The files seen before the change of a result takes effect. */
  function SeenFirst(r: Rules, root: string, o: Observation): seq<Path> {
    (if o.ok then PortablesOfWrites(r, o.written) else []) + PortablesOfReads(r, o.seen)
    + (if o.ok then [] else Found(r, root, o.failed))
  }

  /** The files read after it. */
  function SeenLast(r: Rules, root: string, o: Observation): seq<Path> {
    (if o.mutation.Some? then Found(r, root, o.mutation.value.again) else []) + Found(r, root, o.unverified)
  }

  /** The change of the result may affect every file. */
  predicate AffectsAll(o: Observation) {
    && o.mutation.Some? && o.mutation.value.effects.Some?
    && (o.mutation.value.effects.value.uncertain || o.mutation.value.effects.value.paths == [])
  }

  /** The change of the result names a path that overlaps this one. */
  predicate AffectsNear(r: Rules, o: Observation, p: Path) {
    && o.mutation.Some? && o.mutation.value.effects.Some?
    && exists k :: 0 <= k < |o.mutation.value.effects.value.paths|
         && r.overlap(p, o.mutation.value.effects.value.paths[k])
  }

  predicate Affects(r: Rules, o: Observation, p: Path) {
    AffectsAll(o) || AffectsNear(r, o, p)
  }

  // ----- Steps in which files are only seen -----

  /** From s to t these files were seen: they are fresh, and any other record is as it was. */
  predicate Freshens(s: Context, t: Context, ps: seq<Path>, p: Path) {
    Held(t, p) ==> if p in ps then !StaleAt(t, p) else Held(s, p) && (StaleAt(t, p) <==> StaleAt(s, p))
  }

  lemma FreshensTwice(s: Context, t: Context, u: Context, ps: seq<Path>, more: seq<Path>, p: Path)
    requires Freshens(s, t, ps, p) && Freshens(t, u, more, p)
    ensures Freshens(s, u, ps + more, p)
  {
    hide Held;
    hide StaleAt;
    assert p in ps + more <==> p in ps || p in more;
  }

  lemma SameRecordsFreshen(s: Context, t: Context, p: Path)
    requires t.inspected == s.inspected
    ensures Freshens(s, t, [], p)
  {
  }

  lemma UpsertFreshens(s: Context, q: Path, hash: Option<Hash>, p: Path)
    requires DistinctPaths(s.inspected)
    ensures Freshens(s, Upsert(s, q, hash), [q], p)
  {
    var t, i := Upsert(s, q, hash), FindPath(s.inspected, q);
    if Held(t, p) {
      if i < |s.inspected| {
        ReplacedRecord(s, t, i, p);
      } else {
        AppendedRecord(s, t, q, hash, p);
      }
    }
  }

  lemma ReplacedRecord(s: Context, t: Context, i: nat, p: Path)
    requires i < |s.inspected| == |t.inspected| && DistinctPaths(s.inspected)
    requires t.inspected == s.inspected[i := t.inspected[i]] && t.inspected[i].path == s.inspected[i].path
    requires !t.inspected[i].stale && Held(t, p)
    ensures if p == s.inspected[i].path then !StaleAt(t, p) else Held(s, p) && (StaleAt(t, p) <==> StaleAt(s, p))
  {
    var k :| 0 <= k < |t.inspected| && t.inspected[k].path == p;
    if p != s.inspected[i].path {
      assert k != i && s.inspected[k] == t.inspected[k];
      if StaleAt(s, p) {
        var j :| 0 <= j < |s.inspected| && s.inspected[j].path == p && s.inspected[j].stale;
        assert t.inspected[j] == s.inspected[j];
      }
    }
  }

  lemma AppendedRecord(s: Context, t: Context, q: Path, hash: Option<Hash>, p: Path)
    requires DistinctPaths(s.inspected) && !Held(s, q) && Held(t, p)
    requires t.inspected == Pushed(s.inspected, InspectedFile(q, hash, Present, false), MAX_INSPECTED_FILES)
    ensures if p == q then !StaleAt(t, p) else Held(s, p) && (StaleAt(t, p) <==> StaleAt(s, p))
  {
    var d := if |s.inspected| + 1 > MAX_INSPECTED_FILES then 1 else 0;
    var n := |t.inspected| - 1;
    assert t.inspected[n] == InspectedFile(q, hash, Present, false);
    assert forall k :: 0 <= k < n ==> t.inspected[k] == s.inspected[k + d];
    var k :| 0 <= k < |t.inspected| && t.inspected[k].path == p;
    if p != q {
      assert s.inspected[k + d].path == p;
      if StaleAt(s, p) {
        var j :| 0 <= j < |s.inspected| && s.inspected[j].path == p && s.inspected[j].stale;
        assert j == k + d;
      }
    }
  }

  lemma {:induction false} ReadAllFreshens(r: Rules, s: Context, fs: seq<ReadFile>, p: Path)
    requires Good(s)
    ensures Freshens(s, ReadAll(r, s, fs), PortablesOfReads(r, fs), p)
  {
    hide Upsert;
    hide ExcerptOf;
    hide Good;
    hide Freshens;
    if fs == [] {
      SameRecordsFreshen(s, s, p);
    } else {
      var n := |fs| - 1;
      var before, f := ReadAll(r, s, fs[..n]), fs[n];
      ReadAllFreshens(r, s, fs[..n], p);
      ReadAllIsGood(r, s, fs[..n]);
      GoodIsDistinct(before);
      if r.Relative(f.path) {
        var q := r.portable(f.path).value;
        UpsertFreshens(before, q, f.contentHash, p);
        FreshensOne(before, Upsert(before, q, f.contentHash), ReadAll(r, s, fs), [q], p);
        FreshensTwice(s, before, ReadAll(r, s, fs), PortablesOfReads(r, fs[..n]), [q], p);
      }
    }
  }

  lemma FreshensOne(s: Context, t: Context, u: Context, ps: seq<Path>, p: Path)
    requires Freshens(s, t, ps, p) && u.inspected == t.inspected
    ensures Freshens(s, u, ps, p)
  {
  }

  lemma {:induction false} WriteAllFreshens(r: Rules, s: Context, fs: seq<(Path, Option<Hash>)>, p: Path)
    requires Good(s)
    ensures Freshens(s, WriteAll(r, s, fs), PortablesOfWrites(r, fs), p)
  {
    hide Upsert;
    hide Good;
    hide Freshens;
    if fs == [] {
      SameRecordsFreshen(s, s, p);
    } else {
      var n := |fs| - 1;
      var before := WriteAll(r, s, fs[..n]);
      WriteAllFreshens(r, s, fs[..n], p);
      WriteAllIsGood(r, s, fs[..n]);
      GoodIsDistinct(before);
      if r.Relative(fs[n].0) {
        var q := r.portable(fs[n].0).value;
        UpsertFreshens(before, q, fs[n].1, p);
        FreshensOne(before, Upsert(before, q, fs[n].1), WriteAll(r, s, fs), [q], p);
        FreshensTwice(s, before, WriteAll(r, s, fs), PortablesOfWrites(r, fs[..n]), [q], p);
      }
    }
  }

  lemma {:induction false} PromoteAllFreshens(r: Rules, s: Context, again: seq<AutoRead>, p: Path)
    requires Good(s)
    ensures Freshens(s, PromoteAll(r, s, again), FoundAll(r, again), p)
  {
    hide Upsert;
    hide Good;
    hide Freshens;
    hide FoundExcerpt;
    hide PushExcerpt;
    if again == [] {
      SameRecordsFreshen(s, s, p);
    } else {
      var front, a := again[..|again| - 1], again[|again| - 1];
      var before, e := PromoteAll(r, s, front), FoundExcerpt(r, a);
      PromoteAllFreshens(r, s, front, p);
      PromoteAllIsGood(r, s, front);
      GoodIsDistinct(before);
      if !Repeats(front, a.path) && e.Some? {
        UpsertFreshens(before, e.value.path, e.value.contentHash, p);
        StoreSameRecords(before, e.value);
        FreshensOne(
          before, Upsert(before, e.value.path, e.value.contentHash), PromoteAll(r, s, again), [e.value.path], p);
        FreshensTwice(s, before, PromoteAll(r, s, again), FoundAll(r, front), [e.value.path], p);
      } else {
        assert FoundAll(r, front) + [] == FoundAll(r, front);
        assert PromoteAll(r, s, again) == before;
      }
    }
  }

  lemma StoreSameRecords(s: Context, e: Excerpt)
    ensures StoreAutomatic(s, e).inspected == Upsert(s, e.path, e.contentHash).inspected
  {
  }

  lemma PromoteFreshens(r: Rules, s: Context, again: seq<AutoRead>, p: Path)
    requires Good(s)
    ensures Freshens(s, Promote(r, s, again), Found(r, s.root, again), p)
  {
    hide Good;
    hide Freshens;
    SameRecordsFreshen(s, s, p);
    PromoteAllFreshens(r, s, FirstEight(again), p);
  }

  lemma DirectFreshens(r: Rules, s: Context, o: Observation, p: Path)
    requires Good(s)
    ensures Freshens(s, Direct(r, s, o),
      (if o.ok then PortablesOfWrites(r, o.written) else []) + PortablesOfReads(r, o.seen), p)
  {
    hide WriteAll;
    hide ReadAll;
    hide Good;
    hide Freshens;
    hide PortablesOfReads;
    hide PortablesOfWrites;
    var wrote := if o.ok then PortablesOfWrites(r, o.written) else [];
    var written := if o.ok then WriteAll(r, s, o.written) else s;
    var dirty := RecordUserAll(r, written, o.dirty);
    WriteAllFreshens(r, s, o.written, p);
    SameRecordsFreshen(s, s, p);
    WriteAllIsGood(r, s, o.written);
    RecordUserKeeps(r, written, o.dirty);
    SameIsGood(written, dirty);
    FreshensOne(s, written, dirty, wrote, p);
    ReadAllFreshens(r, dirty, o.seen, p);
    FreshensTwice(s, dirty, Direct(r, s, o), wrote, PortablesOfReads(r, o.seen), p);
  }

  // ----- The change -----

  /** From s to t the change of the result took effect: what it affects is stale, and everything
      else is as it was. */
  predicate Staled(r: Rules, o: Observation, s: Context, t: Context, p: Path) {
    (Held(t, p) <==> Held(s, p)) && (Held(t, p) ==> (StaleAt(t, p) <==> Affects(r, o, p) || StaleAt(s, p)))
  }

  lemma InvalidateStales(r: Rules, s: Context, o: Observation, p: Path)
    requires o.mutation.Some? && o.mutation.value.effects.Some?
    ensures Staled(r, o, s, Invalidate(r, s, o.mutation.value.effects.value), p)
  {
    var e := o.mutation.value.effects.value;
    var t := Invalidate(r, s, e);
    assert |t.inspected| == |s.inspected|;
    forall i | 0 <= i < |s.inspected| ensures t.inspected[i].path == s.inspected[i].path
      && (t.inspected[i].stale <==> s.inspected[i].stale || Affects(r, o, s.inspected[i].path)) {
      MarkStaleAt(r, s.inspected, e.Everything(), e.paths, i);
    }
    if Held(s, p) {
      var i :| 0 <= i < |s.inspected| && s.inspected[i].path == p;
      assert t.inspected[i].path == p;
    }
    if StaleAt(s, p) {
      var i :| 0 <= i < |s.inspected| && s.inspected[i].path == p && s.inspected[i].stale;
      assert t.inspected[i].stale;
    }
  }

  lemma MarkStaleAt(r: Rules, fs: seq<InspectedFile>, everything: bool, paths: seq<Path>, i: nat)
    requires i < |fs|
    ensures MarkStale(r, fs, everything, paths)[i].stale <==>
      fs[i].stale || everything || exists k :: 0 <= k < |paths| && r.overlap(fs[i].path, paths[k])
  {
  }

  /** The state after the change took effect and before anything is read again. */
  function AfterChange(r: Rules, s: Context, o: Observation): Context {
    var direct := Direct(r, s, o);
    var diagnosed := if o.ok then direct else Promote(r, direct, o.failed);
    if o.mutation.Some? && o.mutation.value.effects.Some?
    then
      var effects := o.mutation.value.effects.value;
      Invalidate(r, RecordTouched(r, diagnosed, effects.touched), effects)
    else diagnosed
  }

  lemma BeforeChange(r: Rules, s: Context, o: Observation, p: Path)
    requires Good(s)
    ensures var diagnosed := if o.ok then Direct(r, s, o) else Promote(r, Direct(r, s, o), o.failed);
      Good(diagnosed) && diagnosed.root == s.root && Freshens(s, diagnosed, SeenFirst(r, s.root, o), p)
  {
    hide Direct;
    hide Promote;
    hide Good;
    hide Freshens;
    hide Found;
    hide PortablesOfReads;
    hide PortablesOfWrites;
    var direct := Direct(r, s, o);
    var first := (if o.ok then PortablesOfWrites(r, o.written) else []) + PortablesOfReads(r, o.seen);
    DirectFreshens(r, s, o, p);
    DirectIsGood(r, s, o);
    DirectKeepsRoot(r, s, o);
    if o.ok {
      assert SeenFirst(r, s.root, o) == first;
    } else {
      PromoteFreshens(r, direct, o.failed, p);
      PromoteIsGood(r, direct, o.failed);
      PromoteKeepsRoot(r, direct, o.failed);
      FreshensTwice(s, direct, Promote(r, direct, o.failed), first, Found(r, s.root, o.failed), p);
    }
  }

  lemma DirectKeepsRoot(r: Rules, s: Context, o: Observation)
    ensures Direct(r, s, o).root == s.root && Direct(r, s, o).workspaceChanged == s.workspaceChanged
  {
    hide WriteAll;
    hide ReadAll;
    var written := if o.ok then WriteAll(r, s, o.written) else s;
    WriteAllKeepsRoot(r, s, o.written);
    RecordUserKeeps(r, written, o.dirty);
    ReadAllKeepsRoot(r, RecordUserAll(r, written, o.dirty), o.seen);
  }

  lemma ChangeStales(r: Rules, s: Context, o: Observation, p: Path)
    requires Good(s)
    ensures var t := AfterChange(r, s, o);
      && Good(t) && t.root == s.root
      && (Held(t, p) ==> (StaleAt(t, p) <==> Affects(r, o, p) || (p !in SeenFirst(r, s.root, o) && StaleAt(s, p))))
  {
    hide Direct;
    hide Promote;
    hide Good;
    hide SeenFirst;
    hide Invalidate;
    hide Held;
    hide StaleAt;
    BeforeChange(r, s, o, p);
    var diagnosed := if o.ok then Direct(r, s, o) else Promote(r, Direct(r, s, o), o.failed);
    if o.mutation.Some? && o.mutation.value.effects.Some? {
      var e := o.mutation.value.effects.value;
      var touched := RecordTouched(r, diagnosed, e.touched);
      RecordTouchedKeeps(r, diagnosed, e.touched);
      SameIsGood(diagnosed, touched);
      InvalidateStales(r, touched, o, p);
      InvalidateIsGood(r, touched, e);
      SameHeld(diagnosed, touched, p);
      InvalidateKeepsRoot(r, touched, e);
    }
  }

  lemma SameHeld(s: Context, t: Context, p: Path)
    requires s.inspected == t.inspected
    ensures (Held(s, p) <==> Held(t, p)) && (StaleAt(s, p) <==> StaleAt(t, p))
  {
  }

  lemma InvalidateKeepsRoot(r: Rules, s: Context, e: Effects)
    ensures Invalidate(r, s, e).root == s.root && Invalidate(r, s, e).workspaceChanged
  {
  }

  lemma ReadAgain(r: Rules, s: Context, o: Observation, p: Path)
    requires Good(s)
    ensures var t := AfterChange(r, s, o);
      && Observe(r, s, o).inspected == Promote(r, Changed(r, s, o), o.unverified).inspected
      && Freshens(t, Observe(r, s, o), SeenLast(r, s.root, o), p)
  {
    hide Direct;
    hide Promote;
    hide Good;
    hide Freshens;
    hide Found;
    hide Invalidate;
    hide Refreshes;
    hide AnyStale;
    var t, changed := AfterChange(r, s, o), Changed(r, s, o);
    ChangeStales(r, s, o, p);
    var again := if o.mutation.Some? then Found(r, s.root, o.mutation.value.again) else [];
    if o.mutation.Some? {
      PromoteFreshens(r, t, o.mutation.value.again, p);
      PromoteIsGood(r, t, o.mutation.value.again);
      PromoteKeepsRoot(r, t, o.mutation.value.again);
    } else {
      SameRecordsFreshen(t, changed, p);
    }
    PromoteFreshens(r, changed, o.unverified, p);
    FreshensTwice(t, changed, Promote(r, changed, o.unverified), again, Found(r, s.root, o.unverified), p);
    FreshensOne(t, Promote(r, changed, o.unverified), Observe(r, s, o), SeenLast(r, s.root, o), p);
  }

  /** After any result, a file that still has a record is stale exactly when it was not read after
      the change of the result, and the change affects it, or it was stale before and was not seen. */
  lemma StaleAfterObserveIff(r: Rules, s: Context, o: Observation, p: Path)
    requires Good(s) && Held(Observe(r, s, o), p)
    ensures StaleAt(Observe(r, s, o), p) <==>
      && p !in SeenLast(r, s.root, o)
      && (Affects(r, o, p) || (p !in SeenFirst(r, s.root, o) && StaleAt(s, p)))
  {
    hide Observe;
    hide AfterChange;
    hide Good;
    hide SeenFirst;
    hide SeenLast;
    hide Held;
    hide StaleAt;
    hide Affects;
    ReadAgain(r, s, o, p);
    ChangeStales(r, s, o, p);
  }

  // ----- The drift flag -----

  ghost predicate NoneStale(s: Context) {
    forall p :: !StaleAt(s, p)
  }

  predicate HasEffects(o: Observation) {
    o.mutation.Some? && o.mutation.value.effects.Some?
  }

  /** A shell command of known effects, after which one to eight files were read again, all of them
      different and found. */
  predicate ReadBack(r: Rules, root: string, o: Observation) {
    && o.shell && HasEffects(o) && !o.mutation.value.effects.value.uncertain && root != ""
    && 1 <= |o.mutation.value.again| <= 8
    && (forall i :: 0 <= i < |o.mutation.value.again| ==> FoundExcerpt(r, o.mutation.value.again[i]).Some?)
    && (forall i, j :: 0 <= i < j < |o.mutation.value.again| ==>
          o.mutation.value.again[i].path != o.mutation.value.again[j].path)
  }

  lemma NoneStaleIs(s: Context)
    ensures AnyStale(s) <==> !NoneStale(s)
  {
    if AnyStale(s) {
      var i :| 0 <= i < |s.inspected| && s.inspected[i].stale;
      assert StaleAt(s, s.inspected[i].path);
    }
  }

  lemma ChangeFlags(r: Rules, s: Context, o: Observation)
    ensures var t := AfterChange(r, s, o);
      t.root == s.root && (t.workspaceChanged <==> s.workspaceChanged || HasEffects(o))
  {
    hide Direct;
    hide Promote;
    hide Invalidate;
    DirectKeepsRoot(r, s, o);
    PromoteKeepsRoot(r, Direct(r, s, o), o.failed);
    var diagnosed := if o.ok then Direct(r, s, o) else Promote(r, Direct(r, s, o), o.failed);
    if HasEffects(o) {
      var e := o.mutation.value.effects.value;
      RecordTouchedKeeps(r, diagnosed, e.touched);
      InvalidateKeepsRoot(r, RecordTouched(r, diagnosed, e.touched), e);
    }
  }

  /** Drift is flagged after a result exactly when it was before or the result has effects, unless
      the result is a successful look at the repository, or a command whose files were all read
      back, and leaves nothing stale. */
  lemma DriftAfterObserveIff(r: Rules, s: Context, o: Observation)
    ensures var t := Observe(r, s, o);
      t.workspaceChanged <==>
      && (s.workspaceChanged || HasEffects(o))
      && !(o.ok && NoneStale(t) && (o.looks || (ReadBack(r, s.root, o) && NoneStale(Changed(r, s, o)))))
  {
    hide Direct;
    hide Promote;
    hide Invalidate;
    hide AnyStale;
    hide NoneStale;
    hide FoundExcerpt;
    var t, changed := AfterChange(r, s, o), Changed(r, s, o);
    ChangeFlags(r, s, o);
    if o.mutation.Some? {
      PromoteKeepsRoot(r, t, o.mutation.value.again);
    }
    PromoteKeepsRoot(r, changed, o.unverified);
    var last := Promote(r, changed, o.unverified);
    NoneStaleIs(changed);
    NoneStaleIs(last);
    NoneStaleIs(Observe(r, s, o));
    SameStale(last, Observe(r, s, o));
    assert Refreshes(r, s, o) <==> ReadBack(r, s.root, o) && NoneStale(changed);
  }

  lemma SameStale(s: Context, t: Context)
    requires s.inspected == t.inspected
    ensures AnyStale(s) <==> AnyStale(t)
  {
  }

  // ----- Excerpts -----

  /** The change of the result names this path. */
  predicate Named(o: Observation, p: Path) {
    HasEffects(o) && p in o.mutation.value.effects.value.paths
  }

  lemma {:induction false} PromoteAllExcerpts(r: Rules, s: Context, again: seq<AutoRead>, e: Excerpt)
    requires e in PromoteAll(r, s, again).excerpts
    ensures e in s.excerpts || e.path in FoundAll(r, again)
  {
    hide Upsert;
    hide PushExcerpt;
    hide FoundExcerpt;
    if again != [] {
      var front, a := again[..|again| - 1], again[|again| - 1];
      var before, x := PromoteAll(r, s, front), FoundExcerpt(r, a);
      if !Repeats(front, a.path) && x.Some? {
        var seen := Upsert(before, x.value.path, x.value.contentHash);
        UpsertKeepsExcerpts(before, x.value.path, x.value.contentHash);
        assert PromoteAll(r, s, again) == PushExcerpt(seen, x.value);
        PushedIsOld(seen, x.value, e);
        if e != x.value {
          PromoteAllExcerpts(r, s, front, e);
        }
      } else {
        PromoteAllExcerpts(r, s, front, e);
      }
    }
  }

  lemma PromoteExcerpts(r: Rules, s: Context, again: seq<AutoRead>, e: Excerpt)
    requires e in Promote(r, s, again).excerpts
    ensures e in s.excerpts || e.path in Found(r, s.root, again)
  {
    if s.root != "" {
      PromoteAllExcerpts(r, s, FirstEight(again), e);
    }
  }

  lemma ChangeExcerpts(r: Rules, s: Context, o: Observation, e: Excerpt)
    requires e in AfterChange(r, s, o).excerpts
    ensures !AffectsAll(o) && !Named(o, e.path)
  {
    hide Direct;
    hide Promote;
  }

  /** After any result, no excerpt is left of a file that its change names, and none at all if its
      change may affect every file, apart from those of files that were read after it. */
  lemma NoStaleExcerptIsLeft(r: Rules, s: Context, o: Observation, e: Excerpt)
    requires e in Observe(r, s, o).excerpts && e.path !in SeenLast(r, s.root, o)
    ensures !AffectsAll(o) && !Named(o, e.path)
  {
    hide Direct;
    hide Promote;
    hide Found;
    hide Invalidate;
    hide Refreshes;
    var t, changed := AfterChange(r, s, o), Changed(r, s, o);
    ChangeFlags(r, s, o);
    PromoteExcerpts(r, changed, o.unverified, e);
    if o.mutation.Some? {
      PromoteKeepsRoot(r, t, o.mutation.value.again);
      PromoteExcerpts(r, t, o.mutation.value.again, e);
    }
    ChangeExcerpts(r, s, o, e);
  }

  lemma {:induction false} QuietReads(r: Rules, s: Context, fs: seq<ReadFile>)
    requires PortablesOfReads(r, fs) == []
    ensures ReadAll(r, s, fs) == s
  {
    if fs != [] {
      QuietReads(r, s, fs[..|fs| - 1]);
    }
  }

  lemma {:induction false} QuietWrites(r: Rules, s: Context, fs: seq<(Path, Option<Hash>)>)
    requires PortablesOfWrites(r, fs) == []
    ensures WriteAll(r, s, fs) == s
  {
    if fs != [] {
      QuietWrites(r, s, fs[..|fs| - 1]);
    }
  }

  lemma {:induction false} QuietPromotes(r: Rules, s: Context, again: seq<AutoRead>)
    requires FoundAll(r, again) == []
    ensures PromoteAll(r, s, again) == s
  {
    if again != [] {
      QuietPromotes(r, s, again[..|again| - 1]);
    }
  }

  lemma QuietPromote(r: Rules, s: Context, again: seq<AutoRead>)
    requires Found(r, s.root, again) == []
    ensures Promote(r, s, again) == s
  {
    if s.root != "" {
      QuietPromotes(r, s, FirstEight(again));
    }
  }

  /** A result in which no file is seen keeps exactly the excerpts that its change does not affect. */
  lemma UnaffectedExcerptsStay(r: Rules, s: Context, o: Observation, e: Excerpt)
    requires SeenFirst(r, s.root, o) == [] && SeenLast(r, s.root, o) == []
    ensures e in Observe(r, s, o).excerpts <==> e in s.excerpts && !AffectsAll(o) && !Named(o, e.path)
  {
    hide Found;
    hide PortablesOfReads;
    hide PortablesOfWrites;
    hide Promote;
    hide ReadAll;
    hide WriteAll;
    hide Refreshes;
    ChangeFlags(r, s, o);
    QuietDirect(r, s, o);
    var diagnosed := if o.ok then Direct(r, s, o) else Promote(r, Direct(r, s, o), o.failed);
    if !o.ok {
      QuietPromote(r, Direct(r, s, o), o.failed);
    }
    assert diagnosed.excerpts == s.excerpts;
    if HasEffects(o) {
      RecordTouchedKeeps(r, diagnosed, o.mutation.value.effects.value.touched);
    }
    var t := AfterChange(r, s, o);
    if o.mutation.Some? {
      QuietPromote(r, t, o.mutation.value.again);
    }
    QuietPromote(r, Changed(r, s, o), o.unverified);
  }

  lemma QuietDirect(r: Rules, s: Context, o: Observation)
    requires (o.ok ==> PortablesOfWrites(r, o.written) == []) && PortablesOfReads(r, o.seen) == []
    ensures Direct(r, s, o).excerpts == s.excerpts && Direct(r, s, o).root == s.root
  {
    hide ReadAll;
    hide WriteAll;
    if o.ok {
      QuietWrites(r, s, o.written);
    }
    RecordUserKeeps(r, s, o.dirty);
    QuietReads(r, RecordUserAll(r, s, o.dirty), o.seen);
  }

  // ----- What is remembered of a file -----

  /** The record of a file as it was just seen, with its hash if the result gave one. */
  predicate RecordedAs(t: Context, q: Path, hash: Option<Hash>) {
    exists i :: 0 <= i < |t.inspected| && t.inspected[i].path == q && t.inspected[i].lastState == Present
      && !t.inspected[i].stale && (hash.Some? ==> t.inspected[i].contentHash == hash)
  }

  /** Seeing a file records it, with its hash if that is known and the old one otherwise, and
      changes no other record; a new hash drops the excerpts of the file. */
  lemma UpsertRecords(s: Context, q: Path, hash: Option<Hash>)
    ensures RecordedAs(Upsert(s, q, hash), q, hash)
    ensures forall f :: f in Upsert(s, q, hash).inspected && f.path != q ==> f in s.inspected
    ensures DistinctPaths(s.inspected) && hash.None? ==> KeepsHashes(s, Upsert(s, q, hash))
    ensures forall e :: e in Upsert(s, q, hash).excerpts <==>
      e in s.excerpts && !(e.path == q && HashChanges(s, q, hash))
  {
    var t, i := Upsert(s, q, hash), FindPath(s.inspected, q);
    var k := if i < |s.inspected| then i else |t.inspected| - 1;
    assert t.inspected[k].path == q;
    forall f | f in t.inspected && f.path != q ensures f in s.inspected {
      if i == |s.inspected| {
        assert f in s.inspected + [InspectedFile(q, hash, Present, false)];
      }
    }
  }

  /** A file that both contexts have a record of has the same hash in both. */
  predicate KeepsHashes(s: Context, t: Context) {
    forall f, g :: f in s.inspected && g in t.inspected && f.path == g.path ==> g.contentHash == f.contentHash
  }

  /** The first record of the file has another hash. */
  predicate HashChanges(s: Context, q: Path, hash: Option<Hash>) {
    var i := FindPath(s.inspected, q);
    i < |s.inspected| && hash.Some? && s.inspected[i].contentHash.Some? && s.inspected[i].contentHash != hash
  }

  /** A read of a file with some text is remembered: its record has the hash of the content, and its
      excerpt, taken from the content, is the newest one. */
  lemma ReadIsRemembered(r: Rules, s: Context, path: Path, content: Bytes, limit: nat, range: LineRange, i: nat)
    requires r.Relative(path) && range.start >= 1 && !Binary(Shown(content, limit))
    requires i < |RowsOf(content, limit, range)| && RowsOf(content, limit, range)[i] != []
    ensures var t := Observe(r, s, ReadTool(true, [ReadRows(r.hash, path, content, limit, range)]));
      && RecordedAs(t, r.portable(path).value, Some(r.hash(content)))
      && t.excerpts != [] && t.excerpts[|t.excerpts| - 1].path == r.portable(path).value
      && TakenFrom(r, t.excerpts[|t.excerpts| - 1], content, limit, range)
      && (t.excerpts[|t.excerpts| - 1].truncated <==> IsCut(content, limit))
  {
    hide Binary;
    hide Between;
    hide Upsert;
    hide RowsOf;
    hide Built;
    hide TakenFrom;
    hide ExceptSpan;
    var f, p := ReadRows(r.hash, path, content, limit, range), r.portable(path).value;
    ReadToolReads(r, s, f);
    UpsertRecords(s, p, f.contentHash);
    assert Texts(f.rows) == RowsOf(content, limit, range);
    SomethingIsBuilt([], RowsOf(content, limit, range), i);
    ReadIsTaken(r, p, f, content, limit, range);
  }

  lemma {:induction false} SomethingIsBuilt(text: Bytes, rows: seq<Bytes>, i: nat)
    requires text != [] || (i < |rows| && rows[i] != [])
    ensures Built(text, rows) != []
    decreases |rows|
  {
    if rows != [] {
      var longer := Appended(text, rows[0]);
      if |longer| < MAX_EXCERPT_BYTES {
        SomethingIsBuilt(longer, rows[1..], if i > 0 then i - 1 else 0);
      }
    }
  }

  /** A write is remembered: its file is recorded with the hash the result gave, counts as modified,
      and has no excerpt left. */
  lemma WriteIsRemembered(r: Rules, s: Context, path: Path, hash: Option<Hash>, looks: bool)
    requires r.Relative(path)
    ensures var t := Observe(r, s, Observation(true, looks, false, [(path, hash)], [], [], [], None, []));
      && RecordedAs(t, r.portable(path).value, hash)
      && path in t.modified
      && forall e :: e in t.excerpts ==> e.path != path
  {
    hide Upsert;
    var fs, q := [(path, hash)], r.portable(path).value;
    assert fs[..0] == [] && WriteAll(r, s, fs[..0]) == s;
    assert WriteAll(r, s, fs) == WriteOne(r, s, path, hash);
    UpsertRecords(s, q, hash);
    assert RecordModified(Upsert(s, q, hash), path).inspected == Upsert(s, q, hash).inspected;
    PushedIsThere(Upsert(s, q, hash).modified, path, MAX_CONTEXT_ITEMS);
    assert RecordUserAll(r, WriteAll(r, s, fs), []) == WriteAll(r, s, fs);
    assert Promote(r, WriteAll(r, s, fs), []) == WriteAll(r, s, fs);
  }

  /** A dirty path of a git status that the session did not change itself counts as the user's. */
  lemma DirtyPathIsTheUsers(r: Rules, s: Context, dirty: seq<Path>)
    requires dirty != [] && r.Relative(dirty[|dirty| - 1])
    ensures var p, t := dirty[|dirty| - 1], RecordUserAll(r, s, dirty);
      p in t.userModified <==> p !in s.modified || p in RecordUserAll(r, s, dirty[..|dirty| - 1]).userModified
  {
    var before := RecordUserAll(r, s, dirty[..|dirty| - 1]);
    RecordUserKeeps(r, s, dirty[..|dirty| - 1]);
    PushedIsThere(before.userModified, dirty[|dirty| - 1], MAX_USER_MODIFIED);
  }

  lemma PushedIsThere<T>(s: seq<T>, x: T, cap: nat)
    requires cap > 0
    ensures x in Pushed(s, x, cap)
  {
    assert Pushed(s, x, cap)[|Pushed(s, x, cap)| - 1] == x;
  }

  // ----- What a refresh notices -----

  /** The file is there, small enough to be hashed. */
  predicate IsThere(r: Rules, w: Workspace, p: Path) {
    r.Relative(p) && r.portable(p).value in w.files && |w.files[r.portable(p).value]| <= MAX_HASHED_BYTES
  }

  /** The file is there, and not with another hash than its record has. */
  predicate Matches(r: Rules, w: Workspace, f: InspectedFile) {
    && IsThere(r, w, f.path)
    && (f.contentHash.Some? ==> f.contentHash.value == r.hash(w.files[r.portable(f.path).value]))
  }

  /** Of a file that does not match its record it is news, unless it was missing and still is. */
  predicate IsNews(r: Rules, w: Workspace, f: InspectedFile) {
    r.Relative(f.path) && !Matches(r, w, f) && (IsThere(r, w, f.path) || f.lastState == Present)
  }

  predicate NewsOf(r: Rules, w: Workspace, fs: seq<InspectedFile>, p: Path) {
    exists i :: 0 <= i < |fs| && fs[i].path == p && IsNews(r, w, fs[i])
  }

  lemma {:induction false} DriftedAreNews(r: Rules, w: Workspace, fs: seq<InspectedFile>)
    ensures forall p :: p in DriftedPaths(r, w, fs) <==> NewsOf(r, w, fs, p)
  {
    if fs != [] {
      var n := |fs| - 1;
      DriftedAreNews(r, w, fs[..n]);
      forall p ensures p in DriftedPaths(r, w, fs) <==> NewsOf(r, w, fs, p) {
        assert p in DriftedPaths(r, w, fs) <==>
          p in DriftedPaths(r, w, fs[..n]) || (p == fs[n].path && IsNews(r, w, fs[n]));
        if NewsOf(r, w, fs[..n], p) {
          var i :| 0 <= i < n && fs[..n][i].path == p && IsNews(r, w, fs[..n][i]);
          assert fs[i].path == p && IsNews(r, w, fs[i]);
        }
        if NewsOf(r, w, fs, p) && !(p == fs[n].path && IsNews(r, w, fs[n])) {
          var i :| 0 <= i <= n && fs[i].path == p && IsNews(r, w, fs[i]);
          assert fs[..n][i].path == p && IsNews(r, w, fs[..n][i]);
        }
      }
    }
  }

  /** A refresh flags drift exactly when it was flagged, the root is another one, a record is of no
      file of the workspace, or some record is news; and drops the excerpts of the files that are. */
  lemma RefreshNoticesIff(r: Rules, s: Context, w: Workspace)
    ensures Refresh(r, s, w).workspaceChanged <==> (s.workspaceChanged || (s.root != "" && s.root != w.root)
      || exists i :: 0 <= i < |s.inspected| && (!r.Relative(s.inspected[i].path) || IsNews(r, w, s.inspected[i])))
    ensures forall e :: e in Refresh(r, s, w).excerpts <==> e in s.excerpts && !NewsOf(r, w, s.inspected, e.path)
  {
    DriftedAreNews(r, w, s.inspected);
    if exists i :: 0 <= i < |s.inspected| && IsNews(r, w, s.inspected[i]) {
      var i :| 0 <= i < |s.inspected| && IsNews(r, w, s.inspected[i]);
      assert NewsOf(r, w, s.inspected, s.inspected[i].path);
    }
    if DriftedPaths(r, w, s.inspected) != [] {
      assert NewsOf(r, w, s.inspected, DriftedPaths(r, w, s.inspected)[0]);
    }
  }

  predicate Differs(r: Rules, w: Workspace, fs: seq<InspectedFile>, p: Path) {
    exists i :: 0 <= i < |fs| && fs[i].path == p && !Matches(r, w, fs[i])
  }

  /** After a refresh a record is stale exactly when it was, or the file does not match it. */
  lemma StaleAfterRefreshIff(r: Rules, s: Context, w: Workspace, p: Path)
    requires Good(s)
    ensures Held(Refresh(r, s, w), p) <==> Held(s, p) && r.Relative(p)
    ensures r.Relative(p) ==> (StaleAt(Refresh(r, s, w), p) <==> StaleAt(s, p) || Differs(r, w, s.inspected, p))
  {
    hide Matches;
    hide RefreshAll;
    var gs := Refresh(r, s, w).inspected;
    RefreshedOnes(r, w, s.inspected);
    if Held(s, p) && r.Relative(p) {
      var i :| 0 <= i < |s.inspected| && s.inspected[i].path == p;
      var _ := RefreshedIs(r, w, s.inspected, i);
    }
    if r.Relative(p) && (StaleAt(s, p) || Differs(r, w, s.inspected, p)) {
      var i :| 0 <= i < |s.inspected| && s.inspected[i].path == p
        && (s.inspected[i].stale || !Matches(r, w, s.inspected[i]));
      var _ := RefreshedIs(r, w, s.inspected, i);
    }
    forall k | 0 <= k < |gs| && gs[k].path == p
      ensures Held(s, p) && r.Relative(p) && (gs[k].stale ==> StaleAt(s, p) || Differs(r, w, s.inspected, p))
    {
      var _ := RefreshedFrom(r, w, s.inspected, gs[k]);
    }
  }

  lemma RefreshedIs(r: Rules, w: Workspace, fs: seq<InspectedFile>, i: nat) returns (k: nat)
    requires MissingIsStale(fs) && i < |fs| && r.Relative(fs[i].path)
    ensures k < |RefreshAll(r, w, fs)| && RefreshAll(r, w, fs)[k].path == fs[i].path
    ensures RefreshAll(r, w, fs)[k].stale <==> fs[i].stale || !Matches(r, w, fs[i])
  {
    hide RefreshOne;
    hide RefreshAll;
    hide LiveHash;
    hide Matches;
    RefreshedOnes(r, w, fs);
    OneRefreshed(r, w, fs[i]);
    k :| 0 <= k < |RefreshAll(r, w, fs)| && RefreshAll(r, w, fs)[k] == RefreshOne(fs[i], LiveHash(r, w, fs[i].path));
  }

  lemma RefreshedFrom(r: Rules, w: Workspace, fs: seq<InspectedFile>, g: InspectedFile) returns (i: nat)
    requires MissingIsStale(fs) && g in RefreshAll(r, w, fs)
    ensures i < |fs| && fs[i].path == g.path && r.Relative(g.path)
    ensures g.stale <==> fs[i].stale || !Matches(r, w, fs[i])
  {
    hide RefreshOne;
    hide RefreshAll;
    hide LiveHash;
    hide Matches;
    RefreshedOnes(r, w, fs);
    i :| 0 <= i < |fs| && r.Relative(fs[i].path) && g == RefreshOne(fs[i], LiveHash(r, w, fs[i].path));
    OneRefreshed(r, w, fs[i]);
  }

  /** What a refresh makes of one record.  Its hash becomes that of the file, unless the file is not
      there or the record was stale without one; a missing file that is there again counts as present
      only with the hash it had. */
  lemma OneRefreshed(r: Rules, w: Workspace, f: InspectedFile)
    requires f.lastState == Missing ==> f.stale
    ensures var g := RefreshOne(f, LiveHash(r, w, f.path));
      && g.path == f.path && (g.stale <==> f.stale || !Matches(r, w, f))
      && (g.lastState == Missing <==> !IsThere(r, w, f.path) || (f.lastState == Missing && !Matches(r, w, f)))
      && g.contentHash == if IsThere(r, w, f.path) && !(f.stale && f.contentHash.None?)
                          then Some(r.hash(w.files[r.portable(f.path).value])) else f.contentHash
  {
  }

  lemma {:induction false} RefreshedOnes(r: Rules, w: Workspace, fs: seq<InspectedFile>)
    ensures forall i :: 0 <= i < |fs| && r.Relative(fs[i].path) ==>
      RefreshOne(fs[i], LiveHash(r, w, fs[i].path)) in RefreshAll(r, w, fs)
    ensures forall g :: g in RefreshAll(r, w, fs) ==>
      exists i :: 0 <= i < |fs| && r.Relative(fs[i].path) && g == RefreshOne(fs[i], LiveHash(r, w, fs[i].path))
  {
    hide RefreshOne;
    hide LiveHash;
    if fs != [] {
      var n := |fs| - 1;
      RefreshedOnes(r, w, fs[..n]);
      forall i | 0 <= i < |fs| && r.Relative(fs[i].path)
        ensures RefreshOne(fs[i], LiveHash(r, w, fs[i].path)) in RefreshAll(r, w, fs)
      {
        if i < n {
          assert fs[..n][i] == fs[i];
        }
      }
    }
  }
}
