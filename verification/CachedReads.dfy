/** When a read is answered without running it. */
module CachedReads {
  // The other half of the cache: what it answers, and that what was just read is answered.

  import opened Evidence
  import opened EvidenceRuns
  import opened Excerpts
  import opened ReadPolicy
  import opened StaleRecords
  import opened Wrappers
  import Guardrails
  import Text

  predicate AsksForAll(t: Target) {
    t.start.None? && t.end.None?
  }

  predicate AsksForLines(t: Target) {
    t.start.Some? && t.end.Some? && 1 <= t.start.value <= t.end.value
  }

  /** The file has a fresh record, with the hash that it has now. */
  predicate IsKnown(r: Rules, s: Context, w: Workspace, p: Path) {
    && IsThere(r, w, p)
    && InspectedFile(p, Some(r.hash(w.files[r.portable(p).value])), Present, false) in s.inspected
  }

  /** An excerpt of the file as it is now that has every line asked for. */
  predicate Offers(r: Rules, w: Workspace, e: Excerpt, t: Target)
    requires IsThere(r, w, t.path)
  {
    && e.path == t.path && e.contentHash == Some(r.hash(w.files[r.portable(t.path).value]))
    && (AsksForAll(t) ==> e.startLine == 1 && !e.truncated)
    && (AsksForLines(t) ==> e.startLine <= t.start.value && t.end.value <= e.endLine)
  }

  /** The excerpt is the newest that offers the lines, and still has text where they begin. */
  predicate Serves(r: Rules, s: Context, w: Workspace, t: Target, k: nat)
    requires IsThere(r, w, t.path)
  {
    && k < |s.excerpts| && Offers(r, w, s.excerpts[k], t)
    && (forall m :: k < m < |s.excerpts| ==> !Offers(r, w, s.excerpts[m], t))
    && StartsInText(s.excerpts[k], t)
  }

  predicate StartsInText(e: Excerpt, t: Target) {
    && e.startLine <= e.endLine
    && |Text.Lines(e.text)| > if AsksForLines(t) && t.start.value >= e.startLine then t.start.value - e.startLine else 0
  }

  lemma {:induction false} UsableIsFound(fs: seq<InspectedFile>, p: Path)
    ensures FindUsable(fs, p) < |fs| <==> exists i :: 0 <= i < |fs| && Usable(fs[i], p)
  {
    if fs != [] && !Usable(fs[0], p) {
      UsableIsFound(fs[1..], p);
      if i :| 0 <= i < |fs| && Usable(fs[i], p) {
        assert fs[1..][i - 1] == fs[i];
      }
    }
  }

  lemma {:induction false} NewestIsFound(es: seq<Excerpt>, p: Path, hash: Hash, wanted: Wanted, k: nat)
    requires k < |es| && Covers(es[k], p, hash, wanted)
    requires forall m :: k < m < |es| ==> !Covers(es[m], p, hash, wanted)
    ensures FindExcerpt(es, p, hash, wanted) == Some(es[k])
  {
    if k < |es| - 1 {
      NewestIsFound(es[..|es| - 1], p, hash, wanted, k);
    }
  }

  lemma {:induction false} FoundIsNewest(es: seq<Excerpt>, p: Path, hash: Hash, wanted: Wanted) returns (k: nat)
    requires FindExcerpt(es, p, hash, wanted).Some?
    ensures k < |es| && FindExcerpt(es, p, hash, wanted) == Some(es[k]) && Covers(es[k], p, hash, wanted)
    ensures forall m :: k < m < |es| ==> !Covers(es[m], p, hash, wanted)
  {
    if Covers(es[|es| - 1], p, hash, wanted) {
      k := |es| - 1;
    } else {
      k := FoundIsNewest(es[..|es| - 1], p, hash, wanted);
    }
  }

  lemma WantedIs(t: Target)
    ensures WantedOf(t).Whole? <==> AsksForAll(t)
    ensures WantedOf(t).Lines? <==> AsksForLines(t)
    ensures AsksForLines(t) ==> WantedOf(t) == Lines(LineRange(t.start.value, t.end.value))
  {
  }

  lemma KnownIffUsable(r: Rules, s: Context, w: Workspace, p: Path)
    requires DistinctPaths(s.inspected) && r.Relative(p)
    ensures var i := FindUsable(s.inspected, p);
      IsKnown(r, s, w, p) <==>
        i < |s.inspected| && LiveHash(r, w, p) == Some(s.inspected[i].contentHash.value)
  {
    UsableIsFound(s.inspected, p);
  }

  /** The rows given from an excerpt are its lines from the first one asked for on. */
  lemma QuotedRows(e: Excerpt, t: Target)
    requires AsksForAll(t) || AsksForLines(t)
    requires AsksForLines(t) ==> e.startLine <= t.start.value && t.end.value <= e.endLine
    ensures var rows := Quote(e, WantedOf(t));
      && (rows != [] <==> StartsInText(e, t))
      && forall k :: 0 <= k < |rows| ==>
           var low := if AsksForLines(t) then t.start.value else e.startLine;
           k + low - e.startLine < |Text.Lines(e.text)|
           && rows[k] == Row(low + k, Text.Lines(e.text)[k + low - e.startLine])
  {
    hide Text.Lines;
    WantedIs(t);
    QuoteIsSelection(e, WantedOf(t));
    var quoted := Text.Lines(e.text);
    SelectNumbered(quoted, e.startLine, Low(e, WantedOf(t)), High(e, WantedOf(t)));
  }

  /** A target is answered exactly when it asks for the whole file or for lines, its file has a fresh
      record with the hash it has now, and the newest excerpt that offers the lines serves them. */
  lemma AnsweredIff(r: Rules, s: Context, w: Workspace, t: Target)
    requires DistinctPaths(s.inspected)
    ensures AnswerOne(r, s, w, t).Some? <==>
      ((AsksForAll(t) || AsksForLines(t)) && IsKnown(r, s, w, t.path) && exists k: nat :: Serves(r, s, w, t, k))
  {
    hide Quote;
    hide FindUsable;
    hide FindExcerpt;
    hide StartsInText;
    hide DistinctPaths;
    WantedIs(t);
    if r.Relative(t.path) && !WantedOf(t).Unsupported? {
      KnownIffUsable(r, s, w, t.path);
      if IsKnown(r, s, w, t.path) {
        var hash := r.hash(w.files[r.portable(t.path).value]);
        assert forall e :: Covers(e, t.path, hash, WantedOf(t)) <==> Offers(r, w, e, t);
        assert Source(r, s, w, t) == FindExcerpt(s.excerpts, t.path, hash, WantedOf(t));
        if FindExcerpt(s.excerpts, t.path, hash, WantedOf(t)).Some? {
          var k := FoundIsNewest(s.excerpts, t.path, hash, WantedOf(t));
          QuotedRows(s.excerpts[k], t);
          assert AnswerOne(r, s, w, t).Some? ==> Serves(r, s, w, t, k);
        }
        if k: nat :| Serves(r, s, w, t, k) {
          NewestIsFound(s.excerpts, t.path, hash, WantedOf(t), k);
          QuotedRows(s.excerpts[k], t);
          assert AnswerOne(r, s, w, t).Some?;
        }
      } else {
        assert AnswerOne(r, s, w, t).None?;
      }
    } else {
      assert !IsKnown(r, s, w, t.path) || !(AsksForAll(t) || AsksForLines(t));
    }
  }

  lemma {:induction false} AllAnswered(r: Rules, s: Context, w: Workspace, ts: seq<Target>)
    ensures AnswerAll(r, s, w, ts).Some? <==> forall i :: 0 <= i < |ts| ==> AnswerOne(r, s, w, ts[i]).Some?
    ensures AnswerAll(r, s, w, ts).Some? ==>
      && |AnswerAll(r, s, w, ts).value| == |ts|
      && forall i :: 0 <= i < |ts| ==> AnswerOne(r, s, w, ts[i]) == Some(AnswerAll(r, s, w, ts).value[i])
  {
    hide AnswerOne;
    if ts != [] {
      AllAnswered(r, s, w, ts[..|ts| - 1]);
    }
  }

  /** A read is answered exactly when nothing drifted, it sets no limit of its own, names one to 64
      targets, and every one of them is answered; the answers come in the order of the targets. */
  lemma CachedReadIff(r: Rules, s: Context, w: Workspace, q: Request)
    ensures CachedRead(r, s, w, q).Some? <==>
      (!s.workspaceChanged && q.maxBytes.None? && 1 <= |q.targets| <= 64
       && forall i :: 0 <= i < |q.targets| ==> AnswerOne(r, s, w, q.targets[i]).Some?)
    ensures CachedRead(r, s, w, q).Some? ==>
      && |CachedRead(r, s, w, q).value| == |q.targets|
      && forall i :: 0 <= i < |q.targets| ==>
           AnswerOne(r, s, w, q.targets[i]) == Some(CachedRead(r, s, w, q).value[i])
  {
    hide AnswerOne;
    AllAnswered(r, s, w, q.targets);
  }

  /** What was just read is answered when it is asked for again: lines of the range, or the whole file
      after a read of it from its start that was not cut, as long as the file stays as it is and the
      excerpt has text where they begin. */
  lemma ReadAgainIsAnswered(
    r: Rules, s: Context, w: Workspace, p: Path, limit: nat, range: LineRange, i: nat, t: Target)
    requires Good(s) && r.portable(p) == Some(p) && p in w.files && |w.files[p]| <= MAX_HASHED_BYTES
    requires range.start >= 1 && !Binary(Shown(w.files[p], limit))
    requires i < |RowsOf(w.files[p], limit, range)| && RowsOf(w.files[p], limit, range)[i] != []
    requires t.path == p && (AsksForAll(t) || AsksForLines(t))
    requires AsksForAll(t) ==> range.start == 1 && !IsCut(w.files[p], limit)
    requires var rows := RowsOf(w.files[p], limit, range);
      && (AsksForLines(t) ==> range.start <= t.start.value && t.end.value < range.start + |rows|)
      && |Text.Lines(ExcerptText(rows))| > if AsksForLines(t) then t.start.value - range.start else 0
    ensures var after := Observe(r, s, ReadTool(true, [ReadRows(r.hash, p, w.files[p], limit, range)]));
      AnswerOne(r, after, w, t).Some?
  {
    hide Observe;
    hide ReadRows;
    hide ExcerptText;
    hide Text.Lines;
    hide RowsOf;
    hide Good;
    hide AnswerOne;
    hide Binary;
    var f := ReadRows(r.hash, p, w.files[p], limit, range);
    var after := Observe(r, s, ReadTool(true, [f]));
    ReadIsRemembered(r, s, p, w.files[p], limit, range, i);
    ApplyIsGood(r, s, Observed(ReadTool(true, [f])));
    GoodIsDistinct(after);
    assert IsKnown(r, after, w, p);
    assert Serves(r, after, w, t, |after.excerpts| - 1);
    AnsweredIff(r, after, w, t);
  }

  // ----- Before a call -----

  /** A call runs exactly when it is no read that the cache answers, its circuit is not open, and
      the workflow does not refuse its change. */
  lemma RunsIff(r: Rules, p: Policy, s: Context, w: Workspace, a: Action)
    ensures Preflight(r, p, s, w, a).None? <==>
      && !p.mutationRefused(s, a)
      && (p.optimizations ==>
            && !(a.tool == "read" && a.isRead && CachedRead(r, s, w, a.request).Some?)
            && !(a.counted && Guardrails.Blocks(p.failures, a.key)))
  {
    hide CachedRead;
  }
}
