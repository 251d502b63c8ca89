/** Compacting the session log, and what a resumed session reads from it. */
module SessionCompaction {
  // Resuming folds over all records.  Compaction keeps only the last header and the last
  // turns, renumbered.  The lemmas say exactly which parts of the resumed state survive.

  import opened Wrappers
  import opened SessionLog

  // ----- The fold of a resume -----

  datatype Resume = Resume(
    workspaceRoot: Option<string>, model: Option<string>, continuation: Option<string>,
    context: Option<Context>, transcript: Option<seq<string>>)

  const NOTHING := Resume(None, None, None, None, None)

  /** One record's effect; `keep` decides which continuations may be restored. */
  function Fold1(keep: string -> Option<string>, s: Resume, r: Record): Resume {
    match r
    case Started(root, model) => s.(workspaceRoot := Some(root), model := model)
    case Finished => s
    case TurnSnapshot(snap) => FoldSnapshot(keep, s, snap)
    case Checkpoint(snap) => FoldSnapshot(keep, s, snap)
  }

  function FoldSnapshot(keep: string -> Option<string>, s: Resume, snap: Snapshot): Resume {
    Resume(
      s.workspaceRoot,
      if snap.context.model.Some? then snap.context.model else s.model,
      if snap.continuation.Some? then keep(snap.continuation.value) else None,
      Some(snap.context),
      if snap.transcript != [] then Some(snap.transcript) else s.transcript)
  }

  function Resumed(keep: string -> Option<string>, lines: seq<Line>): Resume {
    if lines == [] then NOTHING
    else Fold1(keep, Resumed(keep, lines[..|lines| - 1]), lines[|lines| - 1].record)
  }

  method ResumeFold(keep: string -> Option<string>, lines: seq<Line>) returns (s: Resume)
    ensures s == Resumed(keep, lines)
  {
    s := NOTHING;
    for i := 0 to |lines|
      invariant s == Resumed(keep, lines[..i])
    {
      assert lines[..i + 1][..i] == lines[..i];
      s := Fold1(keep, s, lines[i].record);
    }
    assert lines[..|lines|] == lines;
  }

  // ----- Compaction -----

  function LastStarted(lines: seq<Line>): Option<Line> {
    if lines == [] then None
    else if lines[|lines| - 1].record.Started? then Some(lines[|lines| - 1])
    else LastStarted(lines[..|lines| - 1])
  }

  function Turns(lines: seq<Line>): seq<Line> {
    if lines == [] then []
    else
      var front, last := Turns(lines[..|lines| - 1]), lines[|lines| - 1];
      if last.record.HasSnapshot() then front + [last] else front
  }

  function LastTurns(turns: seq<Line>): seq<Line> {
    if |turns| <= MAX_STORED_TURNS then turns else turns[|turns| - MAX_STORED_TURNS..]
  }

  function DroppedTurns(turns: seq<Line>): seq<Line> {
    if |turns| <= MAX_STORED_TURNS then [] else turns[..|turns| - MAX_STORED_TURNS]
  }

  function Renumbered(lines: seq<Line>): seq<Line> {
    seq(|lines|, i requires 0 <= i < |lines| => lines[i].(sequence := i + 1, schemaVersion := SCHEMA_VERSION))
  }

  function Kept(lines: seq<Line>): seq<Line> {
    var started := LastStarted(lines);
    (if started.Some? then [started.value] else []) + LastTurns(Turns(lines))
  }

  function Compacted(lines: seq<Line>): seq<Line> {
    Renumbered(Kept(lines))
  }

  /** The compaction loop: a header slot, and a window of turns that drops its oldest. */
  method CompactLines(lines: seq<Line>) returns (kept: seq<Line>)
    ensures kept == Compacted(lines)
  {
    var started: Option<Line> := None;
    var turns: seq<Line> := [];
    for i := 0 to |lines|
      invariant started == LastStarted(lines[..i])
      invariant turns == LastTurns(Turns(lines[..i]))
    {
      assert lines[..i + 1][..i] == lines[..i];
      var line := lines[i];
      if line.record.Started? {
        started := Some(line);
      } else if line.record.HasSnapshot() {
        turns := turns + [line];
        if |turns| > MAX_STORED_TURNS {
          turns := turns[1..];
        }
      }
    }
    assert lines[..|lines|] == lines;
    var all := (if started.Some? then [started.value] else []) + turns;
    kept := [];
    for i := 0 to |all|
      invariant kept == Renumbered(all)[..i]
    {
      kept := kept + [all[i].(sequence := i + 1, schemaVersion := SCHEMA_VERSION)];
    }
  }

  // ----- What the fold depends on -----

  predicate AllSnapshots(turns: seq<Line>) {
    forall i :: 0 <= i < |turns| ==> turns[i].record.HasSnapshot()
  }

  lemma {:induction false} TurnsAreSnapshots(lines: seq<Line>)
    ensures AllSnapshots(Turns(lines))
  {
    if lines != [] {
      TurnsAreSnapshots(lines[..|lines| - 1]);
    }
  }

  function LastModel(turns: seq<Line>): Option<string>
    requires AllSnapshots(turns)
  {
    if turns == [] then None
    else
      var last := turns[|turns| - 1].record.snapshot;
      if last.context.model.Some? then last.context.model else LastModel(turns[..|turns| - 1])
  }

  function LastTranscript(turns: seq<Line>): Option<seq<string>>
    requires AllSnapshots(turns)
  {
    if turns == [] then None
    else
      var last := turns[|turns| - 1].record.snapshot;
      if last.transcript != [] then Some(last.transcript) else LastTranscript(turns[..|turns| - 1])
  }

  /** Everything but the model is a function of the last header and the turns. */
  lemma {:induction false} ResumedFromTurns(keep: string -> Option<string>, lines: seq<Line>)
    ensures AllSnapshots(Turns(lines))
    ensures var s, turns := Resumed(keep, lines), Turns(lines);
      && s.workspaceRoot == (match LastStarted(lines) case Some(l) => Some(StartedRoot(l)) case None => None)
      && s.transcript == LastTranscript(turns)
      && (turns == [] ==> s.context == None && s.continuation == None)
      && (turns != [] ==>
            var last := turns[|turns| - 1].record.snapshot;
            && s.context == Some(last.context)
            && s.continuation == (if last.continuation.Some? then keep(last.continuation.value) else None))
  {
    TurnsAreSnapshots(lines);
    if lines != [] {
      ResumedFromTurns(keep, lines[..|lines| - 1]);
    }
  }

  function StartedRoot(l: Line): string {
    if l.record.Started? then l.record.workspaceRoot else ""
  }

  /** When the only header comes first, the model is the last one a turn names, or else its own. */
  lemma {:induction false} ResumedModel(keep: string -> Option<string>, lines: seq<Line>)
    requires OneHeader(lines)
    ensures AllSnapshots(Turns(lines)) && LastStarted(lines) == Some(lines[0])
    ensures var named := LastModel(Turns(lines));
      Resumed(keep, lines).model == if named.Some? then named else lines[0].record.model
  {
    TurnsAreSnapshots(lines);
    if |lines| > 1 {
      ResumedModel(keep, lines[..|lines| - 1]);
    } else {
      assert lines[..0] == [];
    }
  }

  // ----- Compaction against the fold -----

  /** Renumbering and reschema-ing do not touch records, so the fold cannot see them. */
  lemma {:induction false} RenumberedSameRecords(keep: string -> Option<string>, lines: seq<Line>, other: seq<Line>)
    requires |lines| == |other| && forall i :: 0 <= i < |lines| ==> lines[i].record == other[i].record
    ensures Resumed(keep, lines) == Resumed(keep, other)
    ensures |Turns(lines)| == |Turns(other)|
    ensures forall i :: 0 <= i < |Turns(lines)| ==> Turns(lines)[i].record == Turns(other)[i].record
    ensures LastStarted(lines).Some? <==> LastStarted(other).Some?
    ensures LastStarted(lines).Some? ==> LastStarted(lines).value.record == LastStarted(other).value.record
  {
    if lines != [] {
      var n := |lines| - 1;
      RenumberedSameRecords(keep, lines[..n], other[..n]);
    }
  }

  lemma {:induction false} TurnsOfSnapshots(turns: seq<Line>)
    requires AllSnapshots(turns)
    ensures Turns(turns) == turns && LastStarted(turns) == None
  {
    if turns != [] {
      TurnsOfSnapshots(turns[..|turns| - 1]);
    }
  }

  lemma {:induction false} TurnsConcat(u: seq<Line>, v: seq<Line>)
    ensures Turns(u + v) == Turns(u) + Turns(v)
    ensures LastStarted(u + v) == if LastStarted(v).Some? then LastStarted(v) else LastStarted(u)
  {
    if v == [] {
      assert u + v == u;
    } else {
      var n := |v| - 1;
      assert (u + v)[..|u| + n] == u + v[..n];
      TurnsConcat(u, v[..n]);
    }
  }

  lemma {:induction false} LastStartedIsHeader(lines: seq<Line>)
    ensures LastStarted(lines).Some? ==> LastStarted(lines).value.record.Started?
  {
    if lines != [] {
      LastStartedIsHeader(lines[..|lines| - 1]);
    }
  }

  lemma HeaderAlone(header: Line)
    requires header.record.Started?
    ensures Turns([header]) == [] && LastStarted([header]) == Some(header)
  {
    assert [header][..0] == [];
  }

  /** The kept lines have the same last header, and as turns exactly the last ones. */
  lemma KeptShape(lines: seq<Line>)
    ensures LastStarted(Kept(lines)) == LastStarted(lines)
    ensures Turns(Kept(lines)) == LastTurns(Turns(lines))
  {
    var started, turns := LastStarted(lines), LastTurns(Turns(lines));
    TurnsAreSnapshots(lines);
    LastStartedIsHeader(lines);
    TurnsOfSnapshots(turns);
    var head := if started.Some? then [started.value] else [];
    if started.Some? {
      HeaderAlone(started.value);
    }
    TurnsConcat(head, turns);
  }

  /** A header followed by at most the window of turns is kept as it is. */
  lemma KeptFixpoint(head: seq<Line>, turns: seq<Line>)
    requires |head| <= 1 && forall i :: 0 <= i < |head| ==> head[i].record.Started?
    requires AllSnapshots(turns) && |turns| <= MAX_STORED_TURNS
    ensures Kept(head + turns) == head + turns
  {
    TurnsOfSnapshots(turns);
    TurnsConcat(head, turns);
    if head != [] {
      assert head == [head[0]];
      HeaderAlone(head[0]);
    }
  }

  /** Compacting twice is compacting once. */
  lemma CompactionIsIdempotent(lines: seq<Line>)
    ensures Compacted(Compacted(lines)) == Compacted(lines)
  {
    TurnsAreSnapshots(lines);
    LastStartedIsHeader(lines);
    var again := Compacted(lines);
    var n := if LastStarted(lines).Some? then 1 else 0;
    assert again == again[..n] + again[n..];
    KeptFixpoint(again[..n], again[n..]);
  }

  lemma {:induction false} CompactionShortens(lines: seq<Line>)
    ensures |Turns(lines)| + (if LastStarted(lines).Some? then 1 else 0) <= |lines|
    ensures |Compacted(lines)| <= |lines|
  {
    if lines != [] {
      CompactionShortens(lines[..|lines| - 1]);
    }
  }

  /** A resume of the compacted log finds the same workspace, context and continuation as a
      resume of the full one. */
  lemma CompactionKeepsWork(keep: string -> Option<string>, lines: seq<Line>)
    ensures var s, t := Resumed(keep, lines), Resumed(keep, Compacted(lines));
      s.workspaceRoot == t.workspaceRoot && s.context == t.context && s.continuation == t.continuation
  {
    hide Kept;
    hide Resumed;
    RenumberedSameRecords(keep, Compacted(lines), Kept(lines));
    KeptShape(lines);
    ResumedFromTurns(keep, lines);
    ResumedFromTurns(keep, Kept(lines));
  }

  lemma SplitTurns(turns: seq<Line>)
    requires AllSnapshots(turns)
    ensures turns == DroppedTurns(turns) + LastTurns(turns)
    ensures AllSnapshots(DroppedTurns(turns)) && AllSnapshots(LastTurns(turns))
  {
  }

  lemma {:induction false} LastTranscriptConcat(u: seq<Line>, v: seq<Line>)
    requires AllSnapshots(u) && AllSnapshots(v)
    ensures LastTranscript(u + v) == if LastTranscript(v).Some? then LastTranscript(v) else LastTranscript(u)
  {
    if v == [] {
      assert u + v == u;
    } else {
      var n := |v| - 1;
      assert (u + v)[..|u| + n] == u + v[..n];
      LastTranscriptConcat(u, v[..n]);
    }
  }

  lemma {:induction false} LastModelConcat(u: seq<Line>, v: seq<Line>)
    requires AllSnapshots(u) && AllSnapshots(v)
    ensures LastModel(u + v) == if LastModel(v).Some? then LastModel(v) else LastModel(u)
  {
    if v == [] {
      assert u + v == u;
    } else {
      var n := |v| - 1;
      assert (u + v)[..|u| + n] == u + v[..n];
      LastModelConcat(u, v[..n]);
    }
  }

  predicate NamesTranscript(turns: seq<Line>)
    requires AllSnapshots(turns)
  {
    exists i :: 0 <= i < |turns| && turns[i].record.snapshot.transcript != []
  }

  lemma {:induction false} LastTranscriptExists(turns: seq<Line>)
    requires AllSnapshots(turns)
    ensures LastTranscript(turns).Some? <==> NamesTranscript(turns)
  {
    if turns != [] {
      var n := |turns| - 1;
      LastTranscriptExists(turns[..n]);
      if NamesTranscript(turns[..n]) {
        var i :| 0 <= i < n && turns[..n][i].record.snapshot.transcript != [];
        assert turns[i].record.snapshot.transcript != [];
      }
    }
  }

  /** The resumed transcripts of the full and of the compacted log. */
  lemma ResumedTranscripts(keep: string -> Option<string>, lines: seq<Line>)
    ensures AllSnapshots(Turns(lines))
    ensures Resumed(keep, lines).transcript == LastTranscript(Turns(lines))
    ensures Resumed(keep, Compacted(lines)).transcript == LastTranscript(LastTurns(Turns(lines)))
  {
    ResumedFromTurns(keep, lines);
    ResumedFromTurns(keep, Kept(lines));
    KeptShape(lines);
    RenumberedSameRecords(keep, Compacted(lines), Kept(lines));
  }

  /** The transcript survives exactly when a kept turn has one, or no dropped turn does. */
  lemma CompactionKeepsTranscriptIff(keep: string -> Option<string>, lines: seq<Line>)
    ensures AllSnapshots(Turns(lines))
    ensures Resumed(keep, Compacted(lines)).transcript == Resumed(keep, lines).transcript
      <==> NamesTranscript(LastTurns(Turns(lines))) || !NamesTranscript(DroppedTurns(Turns(lines)))
  {
    ResumedTranscripts(keep, lines);
    var turns := Turns(lines);
    var dropped, kept := DroppedTurns(turns), LastTurns(turns);
    SplitTurns(turns);
    LastTranscriptConcat(dropped, kept);
    LastTranscriptExists(dropped);
    LastTranscriptExists(kept);
  }

  /** One header, at the start: what a session writes that is started once. */
  predicate OneHeader(lines: seq<Line>) {
    && lines != [] && lines[0].record.Started?
    && forall i :: 1 <= i < |lines| ==> !lines[i].record.Started?
  }

  lemma KeptHasOneHeader(lines: seq<Line>)
    requires OneHeader(lines) && LastStarted(lines) == Some(lines[0])
    ensures OneHeader(Kept(lines)) && Kept(lines)[0] == lines[0]
  {
    TurnsAreSnapshots(lines);
    var kept, turns := Kept(lines), LastTurns(Turns(lines));
    forall i | 1 <= i < |kept| ensures kept[i].record.HasSnapshot() {
      assert kept[i] == turns[i - 1];
    }
  }

  /** The resumed models of the full and of the compacted log. */
  lemma ResumedModels(keep: string -> Option<string>, lines: seq<Line>)
    requires OneHeader(lines)
    ensures AllSnapshots(Turns(lines))
    ensures var named, kept := LastModel(Turns(lines)), LastModel(LastTurns(Turns(lines)));
      && Resumed(keep, lines).model == (if named.Some? then named else lines[0].record.model)
      && Resumed(keep, Compacted(lines)).model == (if kept.Some? then kept else lines[0].record.model)
  {
    ResumedModel(keep, lines);
    KeptHasOneHeader(lines);
    ResumedModel(keep, Kept(lines));
    KeptShape(lines);
    RenumberedSameRecords(keep, Compacted(lines), Kept(lines));
  }

  /** With one header at the start, the model survives exactly when a kept turn names one, no
      dropped turn does, or the last dropped one names the header's own model. */
  lemma CompactionKeepsModelIff(keep: string -> Option<string>, lines: seq<Line>)
    requires OneHeader(lines)
    ensures AllSnapshots(Turns(lines))
    ensures var kept, dropped := LastModel(LastTurns(Turns(lines))), LastModel(DroppedTurns(Turns(lines)));
      Resumed(keep, Compacted(lines)).model == Resumed(keep, lines).model <==>
        kept.Some? || dropped == None || dropped == lines[0].record.model
  {
    ResumedModels(keep, lines);
    var turns := Turns(lines);
    SplitTurns(turns);
    LastModelConcat(DroppedTurns(turns), LastTurns(turns));
  }
}
