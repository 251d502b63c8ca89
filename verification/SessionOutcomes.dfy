/** When an append succeeds, and what a resume restores. */
module SessionOutcomes {
  // Said of the records of the log, by their places.

  import opened Wrappers
  import opened SessionLog
  import opened SessionCompaction
  import opened SessionStore

  // ----- When an append succeeds -----

  predicate AllShort(c: Codec, lines: seq<Line>) {
    forall i :: 0 <= i < |lines| ==> |c.encode(lines[i])| < MAX_LINE_BYTES
  }

  /** One more encoded record replays exactly when it is short, of schema 3 to 6, and not one too
      many. */
  lemma OneMoreRecordIff(c: Codec, l: Line, rest: seq<Byte>, acc: seq<Line>)
    requires CodecLaws(c) && |acc| <= MAX_LINES
    ensures Replay(c, Encoded(c, l) + rest, acc) ==
      if |c.encode(l)| >= MAX_LINE_BYTES then Failure(LineTooLong)
      else if !(3 <= l.schemaVersion <= 6) then Failure(UnsupportedSchema)
      else if |acc| == MAX_LINES then Failure(TooManyLines)
      else Replay(c, rest, acc + [l])
  {
    hide CodecLaws;
    hide Replay;
    hide ReadLine;
    var x := Encoded(c, l);
    assert x[..|x|] == x;
    LastPieceIsOneLine(c, l, |x|);
    ReplayOneLine(c, x, acc);
    ReplayContinues(c, x, rest, acc);
    ReadEncoded(c, l);
  }

  lemma ReadEncoded(c: Codec, l: Line)
    requires CodecLaws(c)
    ensures ReadLine(c, Encoded(c, l)) ==
      if |c.encode(l)| >= MAX_LINE_BYTES then Bad(LineTooLong)
      else if 3 <= l.schemaVersion <= 6 then Take(l) else Bad(UnsupportedSchema)
  {
    assert EncodesOneLine(c, l);
  }

  /** Written records replay exactly when they are all short and not too many. */
  lemma {:induction false} WrittenReplaysIff(c: Codec, lines: seq<Line>, acc: seq<Line>)
    requires CodecLaws(c) && forall l :: l in lines ==> SupportedSchema(l.schemaVersion)
    requires |acc| <= MAX_LINES
    ensures Replay(c, EncodeAll(c, lines), acc).Success? <==> AllShort(c, lines) && |acc| + |lines| <= MAX_LINES
    decreases |lines|
  {
    hide CodecLaws;
    hide Replay;
    if lines == [] {
      ReplayNothing(c, acc);
    } else {
      var rest := lines[1..];
      OneMoreRecordIff(c, lines[0], EncodeAll(c, rest), acc);
      assert lines == [lines[0]] + rest;
      assert AllShort(c, lines) <==> |c.encode(lines[0])| < MAX_LINE_BYTES && AllShort(c, rest) by {
        assert forall i :: 0 <= i < |rest| ==> rest[i] == lines[i + 1];
      }
      if |c.encode(lines[0])| < MAX_LINE_BYTES && |acc| < MAX_LINES {
        WrittenReplaysIff(c, rest, acc + [lines[0]]);
      }
    }
  }

  /** The record that an append writes. */
  function NewLine(rules: Rules, next: nat, sessionId: string, turnId: Option<string>, record: Record): Line {
    Line(SCHEMA_VERSION, next, sessionId, turnId, rules.sanitize(record))
  }

  /** The log is rewritten first because the record would make it too large, and then it is not. */
  ghost predicate CompactionMakesRoom(c: Codec, lines: seq<Line>, line: Line) {
    && |EncodeAll(c, Compacted(lines))| + |c.encode(line)| + 1 <= MAX_FILE_BYTES
    && AllShort(c, Compacted(lines))
  }

  /** An append succeeds exactly when the record holds no secret and is short, and the log has room
      for it as it is, or has room once it is compacted. */
  lemma AppendSucceedsIff(
    rules: Rules, file: seq<Byte>, lines: seq<Line>, next: nat, sessionId: string, turnId: Option<string>,
    record: Record)
    requires CodecLaws(rules.codec) && Terminated(file) && ReplayFile(rules.codec, file) == Success(lines)
    ensures var c, line := rules.codec, NewLine(rules, next, sessionId, turnId, record);
      AppendSpec(rules, file, next, sessionId, turnId, record).result.Success? <==>
        && !rules.secret(c.encode(line)) && |c.encode(line)| < MAX_LINE_BYTES
        && (if |file| + |c.encode(line)| + 1 <= MAX_FILE_BYTES then |lines| < MAX_LINES
            else CompactionMakesRoom(c, lines, line))
  {
    hide CodecLaws;
    hide Replay;
    hide Compacted;
    var c, line := rules.codec, NewLine(rules, next, sessionId, turnId, record);
    if |file| + |c.encode(line)| + 1 <= MAX_FILE_BYTES {
      assert file + c.encode(line) + [NL] == file + Encoded(c, line);
      AppendReplaysIff(c, file, lines, line);
    } else {
      assert EncodeAll(c, Compacted(lines)) + c.encode(line) + [NL]
        == EncodeAll(c, Compacted(lines)) + Encoded(c, line);
      CompactedAppendIff(c, lines, line);
    }
  }

  lemma CompactedIsSmall(lines: seq<Line>)
    ensures |Compacted(lines)| <= MAX_STORED_TURNS + 1
  {
  }

  /** The compacted log and one more record replay exactly when all of them are short. */
  lemma CompactedAppendIff(c: Codec, lines: seq<Line>, line: Line)
    requires CodecLaws(c) && line.schemaVersion == SCHEMA_VERSION
    ensures Replay(c, EncodeAll(c, Compacted(lines)) + Encoded(c, line), []).Success? <==>
      AllShort(c, Compacted(lines)) && |c.encode(line)| < MAX_LINE_BYTES
  {
    hide CodecLaws;
    hide Replay;
    hide Compacted;
    var kept := Compacted(lines);
    CompactedIsSmall(lines);
    CompactedLinesAreCurrent(lines);
    WrittenReplaysIff(c, kept, []);
    ReplayEncodedExact(c, kept, []);
    ReplayContinues(c, EncodeAll(c, kept), Encoded(c, line), []);
    if AllShort(c, kept) {
      assert [] + kept == kept;
      OneMoreRecordIff(c, line, [], kept);
      ReplayNothing(c, kept + [line]);
      assert Encoded(c, line) + [] == Encoded(c, line);
    }
  }

  /** A record that is refused because it is too long or holds a secret leaves the log alone; an append
      that succeeds returns the record it wrote. */
  lemma RefusedRecordIsNotWritten(
    rules: Rules, file: seq<Byte>, next: nat, sessionId: string, turnId: Option<string>, record: Record)
    ensures var e := rules.codec.encode(NewLine(rules, next, sessionId, turnId, record));
      var o := AppendSpec(rules, file, next, sessionId, turnId, record);
      && (|e| > MAX_LINE_BYTES ==> o == Outcome(file, next, Failure(RecordTooLong)))
      && (|e| <= MAX_LINE_BYTES && rules.secret(e) ==> o == Outcome(file, next, Failure(ContainsSecret)))
      && (o.result.Success? ==> o.result.value == NewLine(rules, next, sessionId, turnId, record))
  {
  }

  // ----- What a resume restores -----

  predicate IsLast(lines: seq<Line>, i: nat, of: Line -> bool) {
    i < |lines| && of(lines[i]) && forall j :: i < j < |lines| ==> !of(lines[j])
  }

  predicate IsNone(lines: seq<Line>, of: Line -> bool) {
    forall j :: 0 <= j < |lines| ==> !of(lines[j])
  }

  const IsHeader: Line -> bool := (l: Line) => l.record.Started?
  const IsTurn: Line -> bool := (l: Line) => l.record.TurnSnapshot? || l.record.Checkpoint?
  const HasTranscript: Line -> bool :=
    (l: Line) => (l.record.TurnSnapshot? || l.record.Checkpoint?) && l.record.snapshot.transcript != []
  const SetsModel: Line -> bool :=
    (l: Line) => l.record.Started?
      || ((l.record.TurnSnapshot? || l.record.Checkpoint?) && l.record.snapshot.context.model.Some?)

  function ModelOf(l: Line): Option<string> {
    match l.record
    case Started(_, model) => model
    case TurnSnapshot(snap) => snap.context.model
    case Checkpoint(snap) => snap.context.model
    case Finished => None
  }

  function KeptContinuation(keep: string -> Option<string>, c: Option<string>): Option<string> {
    match c
    case Some(text) => keep(text)
    case None => None
  }

  /** A resume has the root of the last header, context and continuation of the last turn, the last
      transcript, and the model of the last header or turn that names one. */
  lemma {:induction false} ResumeRestores(keep: string -> Option<string>, lines: seq<Line>)
    ensures var s := Resumed(keep, lines);
      && (IsNone(lines, IsHeader) ==> s.workspaceRoot == None)
      && (IsNone(lines, IsTurn) ==> s.context == None && s.continuation == None)
      && (IsNone(lines, HasTranscript) ==> s.transcript == None)
      && (IsNone(lines, SetsModel) ==> s.model == None)
  {
    if lines != [] {
      ResumeRestores(keep, lines[..|lines| - 1]);
    }
  }

  lemma {:induction false} ResumeRestoresHeader(keep: string -> Option<string>, lines: seq<Line>, i: nat)
    requires IsLast(lines, i, IsHeader)
    ensures Resumed(keep, lines).workspaceRoot == Some(lines[i].record.workspaceRoot)
  {
    if i < |lines| - 1 {
      ResumeRestoresHeader(keep, lines[..|lines| - 1], i);
    }
  }

  lemma {:induction false} ResumeRestoresTurn(keep: string -> Option<string>, lines: seq<Line>, i: nat)
    requires IsLast(lines, i, IsTurn)
    ensures var s, snap := Resumed(keep, lines), lines[i].record.snapshot;
      s.context == Some(snap.context) && s.continuation == KeptContinuation(keep, snap.continuation)
  {
    if i < |lines| - 1 {
      ResumeRestoresTurn(keep, lines[..|lines| - 1], i);
    }
  }

  lemma {:induction false} ResumeRestoresTranscript(keep: string -> Option<string>, lines: seq<Line>, i: nat)
    requires IsLast(lines, i, HasTranscript)
    ensures Resumed(keep, lines).transcript == Some(lines[i].record.snapshot.transcript)
  {
    if i < |lines| - 1 {
      ResumeRestoresTranscript(keep, lines[..|lines| - 1], i);
    }
  }

  lemma {:induction false} ResumeRestoresModel(keep: string -> Option<string>, lines: seq<Line>, i: nat)
    requires IsLast(lines, i, SetsModel)
    ensures Resumed(keep, lines).model == ModelOf(lines[i])
  {
    if i < |lines| - 1 {
      ResumeRestoresModel(keep, lines[..|lines| - 1], i);
    }
  }

  // ----- What a compaction keeps -----

  function CountOf(lines: seq<Line>, of: Line -> bool): nat {
    if lines == [] then 0 else CountOf(lines[..|lines| - 1], of) + if of(lines[|lines| - 1]) then 1 else 0
  }

  lemma {:induction false} TurnsCount(lines: seq<Line>)
    ensures |Turns(lines)| == CountOf(lines, IsTurn)
  {
    if lines != [] {
      TurnsCount(lines[..|lines| - 1]);
    }
  }

  /** A turn stands as far from the end as there are turns after it. */
  lemma TurnIsAt(lines: seq<Line>, i: nat)
    requires i < |lines| && IsTurn(lines[i])
    ensures var after := CountOf(lines[i + 1..], IsTurn);
      after < |Turns(lines)| && Turns(lines)[|Turns(lines)| - 1 - after] == lines[i]
  {
    var front, rest := lines[..i + 1], lines[i + 1..];
    assert front[..|front| - 1] == lines[..i];
    assert lines == front + rest;
    TurnsConcat(front, rest);
    TurnsCount(rest);
    assert Turns(front) == Turns(lines[..i]) + [lines[i]];
  }

  lemma {:induction false} NoHeader(lines: seq<Line>)
    requires IsNone(lines, IsHeader)
    ensures LastStarted(lines) == None
  {
    if lines != [] {
      NoHeader(lines[..|lines| - 1]);
    }
  }

  lemma {:induction false} HeaderIs(lines: seq<Line>, i: nat)
    requires IsLast(lines, i, IsHeader)
    ensures LastStarted(lines) == Some(lines[i])
  {
    if i < |lines| - 1 {
      HeaderIs(lines[..|lines| - 1], i);
    }
  }

  function Restamped(l: Line, sequence: nat): Line {
    Line(SCHEMA_VERSION, sequence, l.sessionId, l.turnId, l.record)
  }

  /** A compaction keeps as many records as there is a header and turns, at most 64. */
  lemma CompactionSize(lines: seq<Line>)
    ensures var turns := CountOf(lines, IsTurn);
      |Compacted(lines)| == (if turns <= 64 then turns else 64) + if IsNone(lines, IsHeader) then 0 else 1
  {
    TurnsCount(lines);
    if IsNone(lines, IsHeader) {
      NoHeader(lines);
    } else {
      var i := LastHeader(lines);
      HeaderIs(lines, i);
    }
  }

  /** The last header comes first, with number one. */
  lemma CompactionKeepsHeader(lines: seq<Line>, i: nat)
    requires IsLast(lines, i, IsHeader)
    ensures Compacted(lines) != [] && Compacted(lines)[0] == Restamped(lines[i], 1)
  {
    HeaderIs(lines, i);
  }

  /** Each of the last 64 turns stands as far from the end as there are turns after it, and has the
      number of its place. */
  lemma CompactionKeepsTurn(lines: seq<Line>, i: nat)
    requires i < |lines| && IsTurn(lines[i]) && CountOf(lines[i + 1..], IsTurn) < MAX_STORED_TURNS
    ensures var k := |Compacted(lines)| - 1 - CountOf(lines[i + 1..], IsTurn);
      0 <= k < |Compacted(lines)| && Compacted(lines)[k] == Restamped(lines[i], k + 1)
  {
    hide CountOf;
    hide Turns;
    TurnIsAt(lines, i);
  }

  lemma {:induction false} LastHeader(lines: seq<Line>) returns (i: nat)
    requires !IsNone(lines, IsHeader)
    ensures IsLast(lines, i, IsHeader)
  {
    var n := |lines| - 1;
    if IsHeader(lines[n]) {
      i := n;
    } else {
      i := LastHeader(lines[..n]);
    }
  }
}
