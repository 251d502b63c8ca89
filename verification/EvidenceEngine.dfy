/** The engine that keeps the evidence, on mutable fields: refreshing, observing tool results, reading
    files again by itself, and finishing a turn. */
module EvidenceEngine {
  import opened Evidence
  import opened Excerpts
  import opened Wrappers

  /** Compares one record with the live hash of its file. */
  method RefreshRecord(f: InspectedFile, live: Option<Hash>) returns (file: InspectedFile, drifted: bool)
    ensures file == RefreshOne(f, live) && drifted == Drifted(f, live)
  {
    file, drifted := f, false;
    if live.Some? {
      if file.contentHash.Some? && file.contentHash != live {
        file := file.(stale := true, contentHash := live);
        drifted := true;
      } else if file.stale {
        file := file.(lastState := Present);
      } else if file.contentHash.None? {
        file := file.(contentHash := live);
      } else {
        file := file.(lastState := Present);
      }
    } else if file.lastState == Present {
      file := file.(stale := true, lastState := Missing);
      drifted := true;
    }
  }

  /** The loop over all records; records of foreign paths are dropped. */
  method RefreshRecords(r: Rules, w: Workspace, fs: seq<InspectedFile>)
    returns (kept: seq<InspectedFile>, stale: seq<Path>, invalid: bool)
    ensures kept == RefreshAll(r, w, fs) && stale == DriftedPaths(r, w, fs) && invalid == AnyForeign(r, fs)
  {
    hide RefreshOne;
    hide Drifted;
    hide LiveHash;
    kept, stale, invalid := [], [], false;
    for i := 0 to |fs|
      invariant kept == RefreshAll(r, w, fs[..i]) && stale == DriftedPaths(r, w, fs[..i])
      invariant invalid <==> exists j :: 0 <= j < i && !r.Relative(fs[j].path)
    {
      assert fs[..i + 1][..i] == fs[..i];
      if !r.Relative(fs[i].path) {
        invalid := true;
        continue;
      }
      var file, drifted := RefreshRecord(fs[i], LiveHash(r, w, fs[i].path));
      kept := kept + [file];
      if drifted {
        stale := stale + [fs[i].path];
      }
    }
    assert fs[..|fs|] == fs;
  }

  lemma RepeatsMore(some: seq<AutoRead>, i: nat)
    requires i < |some|
    ensures forall p :: Repeats(some[..i + 1], p) <==> Repeats(some[..i], p) || some[i].path == p
  {
    forall p ensures Repeats(some[..i + 1], p) <==> Repeats(some[..i], p) || some[i].path == p {
      if Repeats(some[..i], p) {
        var k :| 0 <= k < i && some[..i][k].path == p;
        assert some[..i + 1][k].path == p;
      }
      if some[i].path == p {
        assert some[..i + 1][i].path == p;
      }
    }
  }

  lemma FoundNothing(r: Rules, a: AutoRead)
    requires a.content.None?
    ensures FoundExcerpt(r, a).None?
  {
  }

  lemma FoundIs(r: Rules, a: AutoRead)
    requires r.Relative(a.path) && a.content.Some?
    ensures FoundExcerpt(r, a) == AutoExcerpt(r.hash, r.portable(a.path).value, a.content.value, a.line)
  {
  }

  lemma FoundIsRelative(r: Rules, a: AutoRead)
    requires Canonical(r)
    ensures FoundExcerpt(r, a).Some? ==>
      r.Relative(a.path) && r.portable(FoundExcerpt(r, a).value.path) == Some(FoundExcerpt(r, a).value.path)
  {
  }

  class ContextEngine {
    const rules: Rules
    var root: string
    var workspaceChanged: bool
    var inspected: seq<InspectedFile>
    var excerpts: seq<Excerpt>
    var modified: seq<Path>
    var userModified: seq<Path>

    function State(): Context reads this {
      Context(root, workspaceChanged, inspected, excerpts, modified, userModified)
    }

    constructor (rules: Rules, root: string)
      ensures this.rules == rules && State() == EmptyContext(root)
    {
      this.rules, this.root := rules, root;
      workspaceChanged, inspected, excerpts, modified, userModified := false, [], [], [], [];
    }

    method RefreshAgainstWorkspace(w: Workspace) returns (stale: seq<Path>)
      modifies this
      ensures State() == Refresh(rules, old(State()), w)
      ensures stale == DriftedPaths(rules, w, old(inspected))
    {
      hide RefreshAll;
      hide DriftedPaths;
      hide ExceptPaths;
      hide AnyForeign;
      if root != "" && root != w.root {
        workspaceChanged := true;
      }
      root := w.root;
      var kept, invalid;
      kept, stale, invalid := RefreshRecords(rules, w, inspected);
      inspected := kept;
      if invalid {
        workspaceChanged := true;
      }
      if stale != [] {
        workspaceChanged := true;
      }
      excerpts := ExceptPaths(excerpts, stale);
      modified := OnlyRelative(rules, modified);
    }

    method UpsertInspected(path: Path, hash: Option<Hash>)
      modifies this`inspected, this`excerpts
      ensures State() == UpsertPath(rules, old(State()), path, hash)
    {
      var portable := rules.portable(path);
      if portable.None? {
        return;
      }
      var p := portable.value;
      var i := FindPath(inspected, p);
      if i < |inspected| {
        var f := inspected[i];
        var changed := hash.Some? && f.contentHash.Some? && f.contentHash != hash;
        if hash.Some? {
          f := f.(contentHash := hash);
        }
        f := f.(lastState := Present, stale := false);
        inspected := inspected[i := f];
        if changed {
          excerpts := ExceptPaths(excerpts, [p]);
        }
        return;
      }
      inspected := inspected + [InspectedFile(p, hash, Present, false)];
      if |inspected| > MAX_INSPECTED_FILES {
        inspected := inspected[1..];
      }
    }

    /** Records the files of one read result. */
    method ObserveRead(files: seq<ReadFile>)
      requires Canonical(rules)
      modifies this`inspected, this`excerpts
      ensures State() == ReadAll(rules, old(State()), files)
    {
      hide Upsert;
      for i := 0 to |files|
        invariant State() == ReadAll(rules, old(State()), files[..i])
      {
        assert files[..i + 1][..i] == files[..i];
        var file := files[i];
        if !rules.Relative(file.path) {
          continue;
        }
        var path := rules.portable(file.path).value;
        UpsertInspected(path, file.contentHash);
        if file.rows != [] {
          var text := ExcerptFromLines(Texts(file.rows));
          if text != [] {
            var e := ExcerptOf(path, file).value;
            excerpts := ExceptSpan(excerpts, e) + [e];
            if |excerpts| > MAX_FILE_EXCERPTS {
              excerpts := excerpts[1..];
            }
          }
        }
      }
      assert files[..|files|] == files;
    }

    method ObserveWrite(path: Path, hash: Option<Hash>)
      modifies this`inspected, this`excerpts, this`modified
      ensures State() == WriteOne(rules, old(State()), path, hash)
    {
      hide Upsert;
      if !rules.Relative(path) {
        return;
      }
      UpsertInspected(path, hash);
      if path !in modified {
        modified := modified + [path];
        if |modified| > MAX_CONTEXT_ITEMS {
          modified := modified[1..];
        }
      }
      excerpts := ExceptPaths(excerpts, [path]);
    }

    method InvalidateCommandEffects(e: Effects)
      modifies this`inspected, this`excerpts, this`workspaceChanged
      ensures State() == Invalidate(rules, old(State()), e)
    {
      inspected := MarkStale(rules, inspected, e.Everything(), e.paths);
      excerpts := if e.Everything() then [] else ExceptPaths(excerpts, e.paths);
      workspaceChanged := true;
    }

    method RecordUserModified(paths: seq<Path>)
      modifies this`userModified
      ensures State() == RecordUserAll(rules, old(State()), paths)
    {
      for i := 0 to |paths|
        invariant State() == RecordUserAll(rules, old(State()), paths[..i])
      {
        assert paths[..i + 1][..i] == paths[..i];
        var path := paths[i];
        if !rules.Relative(path) || path in modified || path in userModified {
          continue;
        }
        userModified := userModified + [path];
        if |userModified| > MAX_USER_MODIFIED {
          userModified := userModified[1..];
        }
      }
      assert paths[..|paths|] == paths;
    }

    method RecordTouchedPaths(paths: seq<Path>)
      modifies this`modified
      ensures State() == RecordTouched(rules, old(State()), paths)
    {
      for i := 0 to |paths|
        invariant State() == RecordTouched(rules, old(State()), paths[..i])
      {
        assert paths[..i + 1][..i] == paths[..i];
        if rules.Relative(paths[i]) && paths[i] !in modified {
          modified := modified + [paths[i]];
          if |modified| > MAX_CONTEXT_ITEMS {
            modified := modified[1..];
          }
        }
      }
      assert paths[..|paths|] == paths;
    }

    method StoreAutomaticExcerpt(e: Excerpt)
      requires rules.portable(e.path) == Some(e.path)
      modifies this`inspected, this`excerpts
      ensures State() == StoreAutomatic(old(State()), e)
    {
      hide Upsert;
      UpsertInspected(e.path, e.contentHash);
      excerpts := ExceptSpan(excerpts, e) + [e];
      if |excerpts| > MAX_FILE_EXCERPTS {
        excerpts := excerpts[1..];
      }
    }

    /** Reads the first eight files again, each once. */
    method PromoteEvidence(again: seq<AutoRead>)
      requires Canonical(rules)
      modifies this`inspected, this`excerpts
      ensures State() == Promote(rules, old(State()), again)
    {
      hide StoreAutomatic;
      hide FoundExcerpt;
      hide AutoExcerpt;
      if root == "" {
        return;
      }
      var some := if |again| > MAX_AUTOMATIC_READS then again[..MAX_AUTOMATIC_READS] else again;
      var seen: seq<Path> := [];
      for i := 0 to |some|
        invariant State() == PromoteAll(rules, old(State()), some[..i])
        invariant forall p :: rules.Relative(p) ==> (p in seen <==> Repeats(some[..i], p))
      {
        assert some[..i + 1][..i] == some[..i] && some[..i + 1] == some[..i] + [some[i]];
        RepeatsMore(some, i);
        var read := some[i];
        FoundIsRelative(rules, read);
        if !rules.Relative(read.path) || read.path in seen {
          continue;
        }
        seen := seen + [read.path];
        if read.content.None? {
          FoundNothing(rules, read);
          continue;
        }
        var e := ReadAutoExcerpt(rules.hash, rules.portable(read.path).value, read.content.value, read.line);
        FoundIs(rules, read);
        if e.Some? {
          StoreAutomaticExcerpt(e.value);
        }
      }
      assert some[..|some|] == some;
    }

    /** Folds one tool result into the evidence. */
    method ObserveResult(o: Observation)
      requires Canonical(rules)
      modifies this
      ensures State() == Observe(rules, old(State()), o)
    {
      hide ReadAll;
      hide WriteOne;
      hide RecordUserAll;
      hide RecordTouched;
      hide Invalidate;
      hide Promote;
      hide AnyStale;
      hide AllRefreshed;
      ghost var s := State();
      if o.ok {
        for i := 0 to |o.written|
          invariant State() == WriteAll(rules, s, o.written[..i])
        {
          assert o.written[..i + 1][..i] == o.written[..i];
          ObserveWrite(o.written[i].0, o.written[i].1);
        }
        assert o.written[..|o.written|] == o.written;
      }
      RecordUserModified(o.dirty);
      ObserveRead(o.seen);
      assert State() == Direct(rules, s, o);
      if !o.ok {
        PromoteEvidence(o.failed);
      }
      var refreshed := false;
      if o.mutation.Some? {
        var m := o.mutation.value;
        if m.effects.Some? {
          RecordTouchedPaths(m.effects.value.touched);
          InvalidateCommandEffects(m.effects.value);
        }
        PromoteEvidence(m.again);
        ObserveKeepsRoot(rules, s, o);
        refreshed := o.shell && m.effects.Some? && !m.effects.value.uncertain && AllRefreshed(rules, root, m.again)
          && !AnyStale(State());
      }
      assert State() == Changed(rules, s, o);
      PromoteEvidence(o.unverified);
      ClearDrift(o.ok && (o.looks || refreshed));
    }

    method ClearDrift(ok: bool)
      modifies this`workspaceChanged
      ensures State() == Settled(old(State()), ok)
    {
      if ok && forall i :: 0 <= i < |inspected| ==> !inspected[i].stale {
        workspaceChanged := false;
      }
    }

    /** Applies the completion criteria at the end of a turn. */
    method FinishTurn(gate: Gate) returns (ready: bool)
      ensures ready <==> Finishes(rules, State(), gate)
    {
      if workspaceChanged {
        return false;
      }
      for i := 0 to |inspected|
        invariant forall j :: 0 <= j < i ==> !inspected[j].stale
      {
        if inspected[i].stale {
          return false;
        }
      }
      return gate(modified, UserChangesPreserved(rules, State()));
    }
  }
}
