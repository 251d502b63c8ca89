/** The fast summary of a session: its header, and the last turn found in a tail window. */
module SessionSummary {
  // Listing sessions must not replay every log, so the summary reads the first line and the
  // last bytes of the file.  The lemmas compare it with a full replay.

  import opened Wrappers
  import opened SessionLog
  import opened SessionCompaction

  const TAIL_BYTES: nat := MAX_LINE_BYTES * 2 + 2

  datatype Summary = Summary(model: Option<string>, lastTurn: Option<string>, workspace: string)

  function ParseSummaryLine(c: Codec, text: seq<Byte>, id: string): Result<Line, Error> {
    if |text| > MAX_LINE_BYTES then Failure(LineTooLong)
    else
      match c.decode(text)
      case None => Failure(BadRecord)
      case Some(line) =>
        if !SupportedSchema(line.schemaVersion) then Failure(UnsupportedSchema)
        else if line.sessionId != id then Failure(SessionMismatch)
        else Success(line)
  }

  /** Where the window's first whole line begins, as an offset into the file. */
  ghost function WindowStart(file: seq<Byte>): (p: nat)
    ensures p <= |file|
  {
    if |file| <= TAIL_BYTES then 0
    else |file| - TAIL_BYTES + LineLength(file[|file| - TAIL_BYTES..])
  }

  /** The file up to and including its last newline. */
  function CompletePart(b: seq<Byte>): (r: seq<Byte>)
    ensures r <= b && Terminated(r)
  {
    if Terminated(b) then b else CompletePart(b[..|b| - 1])
  }

  /** The newest turn among the lines, searched from the end; a bad line on the way fails. */
  function ScanBack(c: Codec, chunks: seq<seq<Byte>>, id: string): Result<Option<Snapshot>, Error> {
    if chunks == [] then Success(None)
    else
      var front, last := chunks[..|chunks| - 1], chunks[|chunks| - 1];
      if c.trim(last) == [] then ScanBack(c, front, id)
      else
        match ParseSummaryLine(c, c.trim(last), id)
        case Failure(e) => Failure(e)
        case Success(line) =>
          if line.record.HasSnapshot() then Success(Some(line.record.snapshot)) else ScanBack(c, front, id)
  }

  /** A line that the scan passes over: blank, or a record of no turn. */
  predicate PassedOver(c: Codec, chunk: seq<Byte>, id: string) {
    c.trim(chunk) == [] || (ParseSummaryLine(c, c.trim(chunk), id).Success?
                            && !ParseSummaryLine(c, c.trim(chunk), id).value.record.HasSnapshot())
  }

  /** The scan ends at the last line that it does not pass over: with its turn, or with its error. */
  lemma {:induction false} ScanEnds(c: Codec, chunks: seq<seq<Byte>>, id: string, i: nat)
    requires i < |chunks| && !PassedOver(c, chunks[i], id)
    requires forall j :: i < j < |chunks| ==> PassedOver(c, chunks[j], id)
    ensures var line := ParseSummaryLine(c, c.trim(chunks[i]), id);
      ScanBack(c, chunks, id) ==
        if line.Failure? then Failure(line.error) else Success(Some(line.value.record.snapshot))
  {
    if i < |chunks| - 1 {
      ScanEnds(c, chunks[..|chunks| - 1], id, i);
    }
  }

  lemma {:induction false} ScanFindsNothing(c: Codec, chunks: seq<seq<Byte>>, id: string)
    requires forall j :: 0 <= j < |chunks| ==> PassedOver(c, chunks[j], id)
    ensures ScanBack(c, chunks, id) == Success(None)
  {
    if chunks != [] {
      ScanFindsNothing(c, chunks[..|chunks| - 1], id);
    }
  }

  /** A line of the tail: one record of this session, of schema 3 to 6 and at most 256 kilobytes. */
  lemma SummaryLineIff(c: Codec, text: seq<Byte>, id: string)
    ensures ParseSummaryLine(c, text, id).Success? <==>
      (|text| <= 256 * 1024 && c.decode(text).Some? && 3 <= c.decode(text).value.schemaVersion <= 6
       && c.decode(text).value.sessionId == id)
    ensures ParseSummaryLine(c, text, id).Success? ==> c.decode(text) == Some(ParseSummaryLine(c, text, id).value)
  {
    var line := c.decode(text);
    assert line.Some? ==> (SupportedSchema(line.value.schemaVersion) <==> 3 <= line.value.schemaVersion <= 6);
  }

  ghost function SummarySpec(c: Codec, file: seq<Byte>, id: string): Result<Summary, Error> {
    if |file| > MAX_FILE_BYTES then Failure(FileTooLarge)
    else if file == [] then Failure(Empty)
    else
      var header := file[..LineLength(file)];
      if !c.utf8(header) then Failure(BadText)
      else if |header| > MAX_LINE_BYTES then Failure(LineTooLong)
      else
        match ParseSummaryLine(c, c.trim(header), id)
        case Failure(e) => Failure(e)
        case Success(line) =>
          if !line.record.Started? then Failure(MissingHeader)
          else
            var tail := CompletePart(file[WindowStart(file)..]);
            if !c.utf8(tail) then Failure(BadText)
            else
              match ScanBack(c, Chunks(tail), id)
              case Failure(e) => Failure(e)
              case Success(None) => Success(Summary(line.record.model, None, line.record.workspaceRoot))
              case Success(Some(snap)) =>
                Success(Summary(
                  if snap.context.model.Some? then snap.context.model else line.record.model,
                  Some(snap.turnId), line.record.workspaceRoot))
  }

  // ----- The reading code -----

  lemma SplitFirst(b: seq<Byte>, n: nat, x: seq<Byte>, rest: seq<Byte>)
    requires b == x + rest && b != [] && n == LineLength(b) == |x|
    ensures Chunks(b) == [x] + Chunks(rest)
  {
    assert b[..n] == x && b[n..] == rest;
  }

  method SplitLines(b: seq<Byte>) returns (lines: seq<seq<Byte>>)
    ensures lines == Chunks(b)
  {
    lines := [];
    var pos := 0;
    assert b[0..] == b;
    while pos < |b|
      invariant 0 <= pos <= |b|
      invariant lines + Chunks(b[pos..]) == Chunks(b)
    {
      var end := ReadUntilNewline(b, pos);
      SplitFirst(b[pos..], end - pos, b[pos..end], b[end..]);
      lines := lines + [b[pos..end]];
      pos := end;
    }
    assert b[pos..] == [];
  }

  method FindLastTurn(c: Codec, lines: seq<seq<Byte>>, id: string) returns (found: Result<Option<Snapshot>, Error>)
    ensures found == ScanBack(c, lines, id)
  {
    var i := |lines|;
    assert lines[..i] == lines;
    while i > 0
      invariant 0 <= i <= |lines|
      invariant ScanBack(c, lines, id) == ScanBack(c, lines[..i], id)
    {
      i := i - 1;
      assert lines[..i + 1][..i] == lines[..i];
      if c.trim(lines[i]) == [] {
        continue;
      }
      var line := ParseSummaryLine(c, c.trim(lines[i]), id);
      if line.Failure? {
        return Failure(line.error);
      }
      if line.value.record.HasSnapshot() {
        return Success(Some(line.value.record.snapshot));
      }
    }
    found := Success(None);
  }

  lemma CompletePartStep(b: seq<Byte>, end: nat)
    requires 0 < end <= |b| && b[end - 1] != NL
    ensures CompletePart(b[..end]) == CompletePart(b[..end - 1])
  {
    assert b[..end][..end - 1] == b[..end - 1];
  }

  lemma CompletePartIs(b: seq<Byte>)
    requires Terminated(b)
    ensures CompletePart(b) == b
  {
  }

  /** The whole lines of the tail window. */
  method ReadTail(file: seq<Byte>) returns (tail: seq<Byte>)
    ensures tail == CompletePart(file[WindowStart(file)..])
  {
    hide CompletePart;
    var start := 0;
    if |file| > TAIL_BYTES {
      start := ReadUntilNewline(file, |file| - TAIL_BYTES);
    }
    tail := file[start..];
    var end := |tail|;
    assert tail[..end] == tail;
    while end > 0 && tail[end - 1] != NL
      invariant 0 <= end <= |tail|
      invariant CompletePart(tail) == CompletePart(tail[..end])
    {
      CompletePartStep(tail, end);
      end := end - 1;
    }
    CompletePartIs(tail[..end]);
    tail := tail[..end];
  }

  method SummaryFromFile(c: Codec, file: seq<Byte>, id: string) returns (summary: Result<Summary, Error>)
    ensures summary == SummarySpec(c, file, id)
  {
    if |file| > MAX_FILE_BYTES {
      return Failure(FileTooLarge);
    }
    if file == [] {
      return Failure(Empty);
    }
    var headerEnd := ReadUntilNewline(file, 0);
    assert file[0..] == file;
    var header := file[..headerEnd];
    if !c.utf8(header) {
      return Failure(BadText);
    }
    if headerEnd > MAX_LINE_BYTES {
      return Failure(LineTooLong);
    }
    var line := ParseSummaryLine(c, c.trim(header), id);
    if line.Failure? {
      return Failure(line.error);
    }
    if !line.value.record.Started? {
      return Failure(MissingHeader);
    }
    var tail := ReadTail(file);
    if !c.utf8(tail) {
      return Failure(BadText);
    }
    var lines := SplitLines(tail);
    var found := FindLastTurn(c, lines, id);
    if found.Failure? {
      return Failure(found.error);
    }
    var root, model := line.value.record.workspaceRoot, line.value.record.model;
    if found.value.None? {
      return Success(Summary(model, None, root));
    }
    var snap := found.value.value;
    summary := Success(Summary(
      if snap.context.model.Some? then snap.context.model else model, Some(snap.turnId), root));
  }

  // ----- Replay, line by line -----

  /** The records of the lines that hold one. */
  function Taken(c: Codec, chunks: seq<seq<Byte>>): seq<Line> {
    if chunks == [] then []
    else
      var front, r := Taken(c, chunks[..|chunks| - 1]), ReadLine(c, chunks[|chunks| - 1]);
      if r.Take? then front + [r.line] else front
  }

  predicate Readable(c: Codec, chunks: seq<seq<Byte>>) {
    forall x :: x in chunks ==> ReadLine(c, x).Skip? || ReadLine(c, x).Take?
  }

  lemma {:induction false} TakenConcat(c: Codec, u: seq<seq<Byte>>, v: seq<seq<Byte>>)
    ensures Taken(c, u + v) == Taken(c, u) + Taken(c, v)
  {
    if v == [] {
      assert u + v == u;
    } else {
      assert (u + v)[..|u + v| - 1] == u + v[..|v| - 1];
      TakenConcat(c, u, v[..|v| - 1]);
    }
  }

  lemma TakenOne(c: Codec, x: seq<Byte>)
    ensures Taken(c, [x]) == if ReadLine(c, x).Take? then [ReadLine(c, x).line] else []
  {
    var none: seq<seq<Byte>> := [x][..0];
    assert none == [] && Taken(c, none) == [];
  }

  lemma TakenCons(c: Codec, x: seq<Byte>, rest: seq<seq<Byte>>)
    ensures var r := ReadLine(c, x);
      Taken(c, [x] + rest) == if r.Take? then [r.line] + Taken(c, rest) else Taken(c, rest)
  {
    TakenConcat(c, [x], rest);
    TakenOne(c, x);
  }

  /** When a log replays, a complete first line is skipped or taken, and the rest replays. */
  lemma OneLineReplays(c: Codec, chunks: seq<seq<Byte>>, acc: seq<Line>)
    requires chunks != [] && chunks[0] != [] && chunks[0][|chunks[0]| - 1] == NL
    requires ReplayChunks(c, chunks, acc).Success?
    ensures var r := ReadLine(c, chunks[0]);
      && (r.Skip? || r.Take?)
      && ReplayChunks(c, chunks, acc) == ReplayChunks(c, chunks[1..], if r.Take? then acc + [r.line] else acc)
  {
  }

  lemma TakenFromSecond(c: Codec, chunks: seq<seq<Byte>>, acc: seq<Line>)
    requires chunks != [] && Readable(c, chunks[1..])
    requires ReadLine(c, chunks[0]).Skip? || ReadLine(c, chunks[0]).Take?
    ensures var r, rest := ReadLine(c, chunks[0]), Taken(c, chunks[1..]);
      acc + Taken(c, chunks) == (if r.Take? then acc + [r.line] else acc) + rest
    ensures Readable(c, chunks)
  {
    hide ReadLine;
    TakenCons(c, chunks[0], chunks[1..]);
    assert chunks == [chunks[0]] + chunks[1..];
  }

  lemma {:induction false} ReplayedLinesAreTaken(c: Codec, chunks: seq<seq<Byte>>, acc: seq<Line>)
    requires forall x :: x in chunks ==> x != [] && x[|x| - 1] == NL
    requires ReplayChunks(c, chunks, acc).Success?
    ensures Readable(c, chunks) && ReplayChunks(c, chunks, acc).value == acc + Taken(c, chunks)
  {
    if chunks == [] {
      assert acc + [] == acc;
    } else {
      var r := ReadLine(c, chunks[0]);
      OneLineReplays(c, chunks, acc);
      ReplayedLinesAreTaken(c, chunks[1..], if r.Take? then acc + [r.line] else acc);
      TakenFromSecond(c, chunks, acc);
    }
  }

  function LastSnapshot(lines: seq<Line>): Option<Snapshot> {
    if lines == [] then None
    else
      var r := lines[|lines| - 1].record;
      if r.HasSnapshot() then Some(r.snapshot) else LastSnapshot(lines[..|lines| - 1])
  }

  lemma {:induction false} LastSnapshotConcat(u: seq<Line>, v: seq<Line>)
    ensures LastSnapshot(u + v) == if LastSnapshot(v).Some? then LastSnapshot(v) else LastSnapshot(u)
  {
    if v == [] {
      assert u + v == u;
    } else {
      assert (u + v)[..|u + v| - 1] == u + v[..|v| - 1];
      LastSnapshotConcat(u, v[..|v| - 1]);
    }
  }

  predicate OfSession(lines: seq<Line>, id: string) {
    forall i :: 0 <= i < |lines| ==> lines[i].sessionId == id
  }

  /** On readable lines of one session the backward scan finds the last snapshot among them. */
  lemma {:induction false} ScanFindsLast(c: Codec, chunks: seq<seq<Byte>>, id: string)
    requires TextLaws(c) && Readable(c, chunks) && OfSession(Taken(c, chunks), id)
    ensures ScanBack(c, chunks, id) == Success(LastSnapshot(Taken(c, chunks)))
  {
    if chunks != [] {
      var n := |chunks| - 1;
      var front, x := chunks[..n], chunks[n];
      assert x in chunks && c.trim(x) <= x;
      var r := ReadLine(c, x);
      if r.Take? {
        var taken := Taken(c, chunks);
        assert taken[|taken| - 1] == r.line && taken[..|taken| - 1] == Taken(c, front);
        assert forall i :: 0 <= i < |Taken(c, front)| ==> Taken(c, front)[i] == taken[i];
      }
      ScanFindsLast(c, front, id);
    }
  }

  lemma {:induction false} ReadableIsText(c: Codec, b: seq<Byte>)
    requires TextLaws(c) && Terminated(b) && Readable(c, Chunks(b))
    ensures c.utf8(b)
    decreases |b|
  {
    if b != [] {
      var x, rest := SplitLine(b);
      ChunksCons(x, rest);
      assert x in Chunks(b);
      assert forall y :: y in Chunks(rest) ==> y in Chunks(b);
      ReadableIsText(c, rest);
    }
  }

  // ----- The summary against a full replay -----

  /** A complete log of one session: it replays, and its first line is the session header. */
  ghost predicate SessionLogOf(c: Codec, file: seq<Byte>, id: string, lines: seq<Line>) {
    && file != [] && Terminated(file)
    && ReplayFile(c, file) == Success(lines) && OfSession(lines, id)
    && ReadLine(c, file[..LineLength(file)]).Take?
    && ReadLine(c, file[..LineLength(file)]).line.record.Started?
  }

  predicate LineBoundary(file: seq<Byte>, p: nat) {
    p <= |file| && (p == 0 || file[p - 1] == NL)
  }

  lemma WindowStartsAtLine(file: seq<Byte>)
    requires Terminated(file)
    ensures LineBoundary(file, WindowStart(file))
  {
    if |file| > TAIL_BYTES {
      var w := |file| - TAIL_BYTES;
      var n := LineLength(file[w..]);
      assert file[w..][n - 1] == file[w + n - 1];
      assert n == |file[w..]| ==> file[w + n - 1] == file[|file| - 1];
    }
  }

  lemma SplitAtBoundary(file: seq<Byte>, p: nat)
    requires Terminated(file) && LineBoundary(file, p)
    ensures Terminated(file[..p]) && Terminated(file[p..])
    ensures Chunks(file) == Chunks(file[..p]) + Chunks(file[p..])
  {
    assert file == file[..p] + file[p..];
    assert p < |file| ==> file[p..][|file| - p - 1] == file[|file| - 1];
    ChunksConcat(file[..p], file[p..]);
  }

  lemma ReplayIsTaken(c: Codec, file: seq<Byte>, id: string, lines: seq<Line>)
    requires SessionLogOf(c, file, id, lines)
    ensures Readable(c, Chunks(file)) && lines == Taken(c, Chunks(file))
  {
    ChunksOfTerminated(file);
    ReplayedLinesAreTaken(c, Chunks(file), []);
    assert [] + Taken(c, Chunks(file)) == Taken(c, Chunks(file));
  }

  /** The records that the window holds. */
  ghost function WindowLines(c: Codec, file: seq<Byte>): seq<Line> {
    Taken(c, Chunks(file[WindowStart(file)..]))
  }

  /** What the summary should say, given the header and the last turn that the window holds. */
  function SummaryOf(header: Line, snap: Option<Snapshot>): Summary
    requires header.record.Started?
  {
    Summary(
      if snap.Some? && snap.value.context.model.Some? then snap.value.context.model else header.record.model,
      if snap.Some? then Some(snap.value.turnId) else None, header.record.workspaceRoot)
  }

  /** The summary of a complete log never fails, and reports header and window. */
  lemma SummaryReadsWindow(c: Codec, file: seq<Byte>, id: string, lines: seq<Line>)
    requires TextLaws(c) && SessionLogOf(c, file, id, lines)
    ensures exists before :: lines == before + WindowLines(c, file)
    ensures lines != [] && lines[0].record.Started?
    ensures SummarySpec(c, file, id) == Success(SummaryOf(lines[0], LastSnapshot(WindowLines(c, file))))
  {
    hide Readable;
    hide Taken;
    hide LastSnapshot;
    hide Chunks;
    hide TextLaws;
    hide OfSession;
    hide SummarySpec;
    hide CompletePart;
    var p := WindowStart(file);
    WindowStartsAtLine(file);
    SplitAtBoundary(file, p);
    ReplayIsTaken(c, file, id, lines);
    var u, v := Chunks(file[..p]), Chunks(file[p..]);
    TakenConcat(c, u, v);
    TailIsReadable(c, u, v, id);
    assert lines == Taken(c, u) + WindowLines(c, file);
    HeaderIsFirst(c, file, id, lines);
    WindowIsScanned(c, file, id);
  }

  lemma TailIsReadable(c: Codec, u: seq<seq<Byte>>, v: seq<seq<Byte>>, id: string)
    requires Readable(c, u + v) && OfSession(Taken(c, u) + Taken(c, v), id)
    ensures Readable(c, v) && OfSession(Taken(c, v), id)
  {
    var all := Taken(c, u) + Taken(c, v);
    forall i | 0 <= i < |Taken(c, v)| ensures Taken(c, v)[i].sessionId == id {
      assert all[|Taken(c, u)| + i] == Taken(c, v)[i];
    }
    assert forall x :: x in v ==> x in u + v;
  }

  /** A readable window with a good header before it: the scan finds its last turn. */
  lemma WindowIsScanned(c: Codec, file: seq<Byte>, id: string)
    requires TextLaws(c) && file != [] && |file| <= MAX_FILE_BYTES && Terminated(file[WindowStart(file)..])
    requires Readable(c, Chunks(file[WindowStart(file)..])) && OfSession(WindowLines(c, file), id)
    requires var header := file[..LineLength(file)];
      c.utf8(header) && |header| <= MAX_LINE_BYTES && ParseSummaryLine(c, c.trim(header), id).Success?
      && ParseSummaryLine(c, c.trim(header), id).value.record.Started?
    ensures var header := ParseSummaryLine(c, c.trim(file[..LineLength(file)]), id).value;
      SummarySpec(c, file, id) == Success(SummaryOf(header, LastSnapshot(WindowLines(c, file))))
  {
    hide Readable;
    hide Taken;
    hide LastSnapshot;
    hide ParseSummaryLine;
    hide Chunks;
    hide ScanBack;
    hide OfSession;
    hide TextLaws;
    var tail := file[WindowStart(file)..];
    ScanFindsLast(c, Chunks(tail), id);
    ReadableIsText(c, tail);
    assert CompletePart(tail) == tail;
  }

  lemma FirstChunk(file: seq<Byte>)
    requires file != []
    ensures Chunks(file) == [file[..LineLength(file)]] + Chunks(file[LineLength(file)..])
  {
  }

  lemma HeaderIsFirst(c: Codec, file: seq<Byte>, id: string, lines: seq<Line>)
    requires TextLaws(c) && SessionLogOf(c, file, id, lines)
    ensures var header := file[..LineLength(file)];
      && c.utf8(header) && |header| <= MAX_LINE_BYTES
      && ParseSummaryLine(c, c.trim(header), id) == Success(ReadLine(c, header).line)
      && lines != [] && lines[0] == ReadLine(c, header).line
  {
    hide LineLength;
    hide Chunks;
    hide Taken;
    hide Readable;
    ReplayIsTaken(c, file, id, lines);
    var x, rest := file[..LineLength(file)], file[LineLength(file)..];
    assert c.trim(x) <= x;
    FirstChunk(file);
    TakenConcat(c, [x], Chunks(rest));
    TakenOne(c, x);
    assert lines[0] == ReadLine(c, x).line;
  }

  /** Whenever the summary reports a last turn, it is the last turn of a full replay. */
  lemma SummaryAgreesWithReplay(c: Codec, file: seq<Byte>, id: string, lines: seq<Line>)
    requires TextLaws(c) && SessionLogOf(c, file, id, lines)
    ensures SummarySpec(c, file, id).Success?
    ensures var turn := SummarySpec(c, file, id).value.lastTurn;
      turn.Some? ==> LastSnapshot(lines).Some? && turn.value == LastSnapshot(lines).value.turnId
  {
    SummaryReadsWindow(c, file, id, lines);
    var before :| lines == before + WindowLines(c, file);
    LastSnapshotConcat(before, WindowLines(c, file));
  }

  lemma {:induction false} LastNamedModel(lines: seq<Line>)
    requires LastSnapshot(lines).Some? && LastSnapshot(lines).value.context.model.Some?
    ensures AllSnapshots(Turns(lines)) && LastModel(Turns(lines)) == LastSnapshot(lines).value.context.model
  {
    TurnsAreSnapshots(lines);
    if !lines[|lines| - 1].record.HasSnapshot() {
      LastNamedModel(lines[..|lines| - 1]);
    }
  }

  /** With one header at the start, the reported workspace is the resumed one, and the reported
      model is the resumed one exactly when the last turn in the window names a model, no turn
      of the log does, or the last one that does names that of the header. */
  lemma SummaryModelIff(c: Codec, file: seq<Byte>, id: string, lines: seq<Line>, keep: string -> Option<string>)
    requires TextLaws(c) && SessionLogOf(c, file, id, lines) && OneHeader(lines)
    ensures SummarySpec(c, file, id).Success? && AllSnapshots(Turns(lines))
    ensures Some(SummarySpec(c, file, id).value.workspace) == Resumed(keep, lines).workspaceRoot
    ensures var shown, named := LastSnapshot(WindowLines(c, file)), LastModel(Turns(lines));
      SummarySpec(c, file, id).value.model == Resumed(keep, lines).model <==>
        (shown.Some? && shown.value.context.model.Some?) || named == None || named == lines[0].record.model
  {
    hide SummarySpec;
    hide Turns;
    hide LastModel;
    hide Resumed;
    SummaryReadsWindow(c, file, id, lines);
    ResumedModel(keep, lines);
    ResumedFromTurns(keep, lines);
    var before :| lines == before + WindowLines(c, file);
    LastSnapshotConcat(before, WindowLines(c, file));
    var shown := LastSnapshot(WindowLines(c, file));
    if shown.Some? && shown.value.context.model.Some? {
      LastNamedModel(lines);
    }
  }

  function NamingTurn(id: string, sequence: nat, model: Option<string>): Line {
    Line(SCHEMA_VERSION, sequence, id, None, TurnSnapshot(Snapshot("t", Context(model, ""), None, [])))
  }

  /** A header that names no model, a turn that names x, and one that names none. */
  function ForgetfulLog(id: string): seq<Line> {
    [Line(SCHEMA_VERSION, 1, id, None, Started("w", None)), NamingTurn(id, 2, Some("x")), NamingTurn(id, 3, None)]
  }

  lemma EncodedIsSessionLog(c: Codec, lines: seq<Line>, id: string)
    requires CodecLaws(c) && lines != [] && |lines| <= MAX_LINES && |EncodeAll(c, lines)| <= MAX_FILE_BYTES
    requires forall l :: l in lines ==> SupportedSchema(l.schemaVersion) && |c.encode(l)| < MAX_LINE_BYTES
    requires OfSession(lines, id) && lines[0].record.Started?
    ensures SessionLogOf(c, EncodeAll(c, lines), id, lines)
  {
    hide CodecLaws;
    hide Replay;
    hide ReadLine;
    var file, x := EncodeAll(c, lines), Encoded(c, lines[0]);
    ReplayEncoded(c, lines, []);
    assert [] + lines == lines;
    assert x[..|x|] == x;
    LastPieceIsOneLine(c, lines[0], |x|);
    ReadPiece(c, lines[0], |x|);
    FirstLineOfMore(x, EncodeAll(c, lines[1..]));
  }

  lemma ForgetfulModels(id: string)
    ensures LastSnapshot(ForgetfulLog(id)).Some? && LastSnapshot(ForgetfulLog(id)).value.context.model == None
    ensures OneHeader(ForgetfulLog(id)) && AllSnapshots(Turns(ForgetfulLog(id)))
    ensures LastModel(Turns(ForgetfulLog(id))) == Some("x")
  {
    var lines := ForgetfulLog(id);
    var turns := [lines[1], lines[2]];
    HeaderAlone(lines[0]);
    TurnsOfSnapshots(turns);
    TurnsConcat([lines[0]], turns);
    assert lines == [lines[0]] + turns;
    assert turns[..1] == [lines[1]] && LastModel([lines[1]]) == Some("x");
  }

  /** The summary of such a log shows no model, although a resume finds x. */
  lemma SummaryMissesModel(c: Codec, id: string, keep: string -> Option<string>)
    requires CodecLaws(c) && |EncodeAll(c, ForgetfulLog(id))| <= TAIL_BYTES
    requires forall l :: l in ForgetfulLog(id) ==> |c.encode(l)| < MAX_LINE_BYTES
    ensures var file, lines := EncodeAll(c, ForgetfulLog(id)), ForgetfulLog(id);
      && ReplayFile(c, file) == Success(lines) && Resumed(keep, lines).model == Some("x")
      && SummarySpec(c, file, id) == Success(Summary(None, Some("t"), "w"))
  {
    hide SummarySpec;
    hide CodecLaws;
    hide Resumed;
    hide LastModel;
    hide Turns;
    hide Taken;
    hide EncodeAll;
    hide Replay;
    var file, lines := EncodeAll(c, ForgetfulLog(id)), ForgetfulLog(id);
    EncodedIsSessionLog(c, lines, id);
    LawsOfText(c);
    SummaryReadsWindow(c, file, id, lines);
    ReplayIsTaken(c, file, id, lines);
    assert file[WindowStart(file)..] == file;
    ForgetfulModels(id);
    ResumedModel(keep, lines);
  }

  lemma LawsOfText(c: Codec)
    requires CodecLaws(c)
    ensures TextLaws(c)
  {
  }

  /** A log split around its last turn: line x holds it, and no line of v holds another. */
  ghost predicate LastTurnAt(c: Codec, file: seq<Byte>, u: seq<Byte>, x: seq<Byte>, v: seq<Byte>) {
    && file == u + x + v && Terminated(u) && Terminated(v) && IsFirstLine(x, |x|) && x[|x| - 1] == NL
    && ReadLine(c, x).Take? && ReadLine(c, x).line.record.HasSnapshot()
    && LastSnapshot(Taken(c, Chunks(v))) == None
  }

  /** The summary reports a last turn exactly when its line starts inside the window: the file
      fits the window, or line and rest are shorter than it. */
  lemma SummaryReportsTurnIff(
    c: Codec, file: seq<Byte>, id: string, lines: seq<Line>, u: seq<Byte>, x: seq<Byte>, v: seq<Byte>)
    requires TextLaws(c) && SessionLogOf(c, file, id, lines) && LastTurnAt(c, file, u, x, v)
    ensures SummarySpec(c, file, id).Success?
    ensures SummarySpec(c, file, id).value.lastTurn.Some? <==> |file| <= TAIL_BYTES || |x| + |v| < TAIL_BYTES
  {
    SummaryReadsWindow(c, file, id, lines);
    if |file| <= TAIL_BYTES || |x| + |v| < TAIL_BYTES {
      TurnInsideWindow(c, file, u, x, v);
    } else {
      TurnOutsideWindow(c, file, u, x, v);
    }
  }

  lemma TurnInsideWindow(c: Codec, file: seq<Byte>, u: seq<Byte>, x: seq<Byte>, v: seq<Byte>)
    requires LastTurnAt(c, file, u, x, v)
    requires |file| <= TAIL_BYTES || |x| + |v| < TAIL_BYTES
    ensures LastSnapshot(WindowLines(c, file)).Some?
  {
    var p := WindowStart(file);
    assert file == u + (x + v);
    WindowBeforeTurn(file, u, x + v);
    DropPrefix(u, x + v, p);
    WindowHoldsTurn(c, u[p..], x, v);
  }

  lemma DropPrefix(u: seq<Byte>, rest: seq<Byte>, p: nat)
    requires p <= |u| && Terminated(u)
    ensures (u + rest)[p..] == u[p..] + rest && Terminated(u[p..])
  {
  }

  lemma TurnOutsideWindow(c: Codec, file: seq<Byte>, u: seq<Byte>, x: seq<Byte>, v: seq<Byte>)
    requires LastTurnAt(c, file, u, x, v) && Terminated(file)
    requires |file| > TAIL_BYTES && |x| + |v| >= TAIL_BYTES
    ensures LastSnapshot(WindowLines(c, file)) == None
  {
    var p := WindowStart(file);
    WindowStartsAtLine(file);
    WindowAfterTurn(file, u, x, v);
    var q := p - |u| - |x|;
    assert file[p..] == v[q..];
    assert q > 0 ==> v[q - 1] == file[p - 1];
    SplitAtBoundary(v, q);
    TakenConcat(c, Chunks(v[..q]), Chunks(v[q..]));
    LastSnapshotConcat(Taken(c, Chunks(v[..q])), Taken(c, Chunks(v[q..])));
  }

  lemma WindowBeforeTurn(file: seq<Byte>, u: seq<Byte>, rest: seq<Byte>)
    requires file == u + rest && Terminated(u)
    requires |file| <= TAIL_BYTES || |rest| < TAIL_BYTES
    ensures WindowStart(file) <= |u|
  {
    if |file| > TAIL_BYTES {
      var w := |file| - TAIL_BYTES;
      var tail := file[w..];
      var n := LineLength(tail);
      var k := |u| - 1 - w;
      assert 0 <= k < |tail| && tail[k] == u[|u| - 1] == NL;
      assert n - 1 <= k;
    }
  }

  lemma WindowAfterTurn(file: seq<Byte>, u: seq<Byte>, x: seq<Byte>, v: seq<Byte>)
    requires file == u + x + v && IsFirstLine(x, |x|)
    requires |file| > TAIL_BYTES && |x| + |v| >= TAIL_BYTES
    ensures WindowStart(file) >= |u| + |x|
  {
    var w := |file| - TAIL_BYTES;
    var n := LineLength(file[w..]);
    assert file[w..][n - 1] == file[w + n - 1];
    assert forall j :: |u| <= j < |u| + |x| - 1 ==> file[j] == x[j - |u|] && file[j] != NL;
  }

  lemma WindowHoldsTurn(c: Codec, w: seq<Byte>, x: seq<Byte>, v: seq<Byte>)
    requires Terminated(w) && IsFirstLine(x, |x|) && x[|x| - 1] == NL
    requires ReadLine(c, x).Take? && ReadLine(c, x).line.record.HasSnapshot()
    ensures LastSnapshot(Taken(c, Chunks(w + (x + v)))).Some?
  {
    ChunksConcat(w, x + v);
    ChunksCons(x, v);
    var line := ReadLine(c, x).line;
    TakenConcat(c, [x], Chunks(v));
    TakenOne(c, x);
    assert [line][..0] == [];
    LastSnapshotConcat([line], Taken(c, Chunks(v)));
    TakenConcat(c, Chunks(w), Chunks(x + v));
    LastSnapshotConcat(Taken(c, Chunks(w)), Taken(c, Chunks(x + v)));
  }

  /** In particular a log whose last line is a turn always shows that turn. */
  lemma SummaryShowsFinalTurn(
    c: Codec, file: seq<Byte>, id: string, lines: seq<Line>, u: seq<Byte>, x: seq<Byte>)
    requires TextLaws(c) && SessionLogOf(c, file, id, lines) && LastTurnAt(c, file, u, x, [])
    ensures SummarySpec(c, file, id).Success? && LastSnapshot(lines).Some?
    ensures SummarySpec(c, file, id).value.lastTurn == Some(LastSnapshot(lines).value.turnId)
  {
    SummaryReportsTurnIff(c, file, id, lines, u, x, []);
    SummaryAgreesWithReplay(c, file, id, lines);
  }
}
