/** The session log and its replay. */
module SessionLog {
  // The log is an append-only file of newline-terminated records.
  // The file is a byte sequence.  The record codec stays abstract; what is assumed of it
  // is exactly what JSON text gives: an encoding holds no newline, decodes to its record,
  // and no proper prefix of it decodes.

  import opened Wrappers

  const NL: Byte := 10

  const MAX_FILE_BYTES: nat := 2 * 1024 * 1024
  const MAX_LINE_BYTES: nat := 256 * 1024
  const MAX_LINES: nat := 4096
  const MAX_STORED_TURNS: nat := 64
  const SCHEMA_VERSION: nat := 6
  const MIN_SCHEMA_VERSION: nat := 3

  datatype Context = Context(model: Option<string>, body: string)

  datatype Snapshot = Snapshot(
    turnId: string, context: Context, continuation: Option<string>, transcript: seq<string>)

  datatype Record =
    | Started(workspaceRoot: string, model: Option<string>)
    | TurnSnapshot(snapshot: Snapshot)
    | Checkpoint(snapshot: Snapshot)
    | Finished
  {
    predicate HasSnapshot() {
      TurnSnapshot? || Checkpoint?
    }
  }

  datatype Line = Line(
    schemaVersion: nat, sequence: nat, sessionId: string, turnId: Option<string>, record: Record)

  datatype Error =
    | FileTooLarge | LineTooLong | BadText | BadRecord | UnsupportedSchema | TooManyLines
    | RecordTooLong | ContainsSecret | StillTooLarge | Empty | MissingHeader | SessionMismatch

  /** Text and record handling that the log relies on: UTF-8 validity, trimming of trailing
      white space, and the JSON codec of one record. */
  datatype Codec = Codec(
    encode: Line -> seq<Byte>,
    decode: seq<Byte> -> Option<Line>,
    utf8: seq<Byte> -> bool,
    trim: seq<Byte> -> seq<Byte>)

  ghost predicate TextLaws(c: Codec) {
    && (forall x :: c.trim(x) <= x)
    && (forall x: seq<Byte> :: c.trim(x + [NL]) == c.trim(x))
    && c.utf8([])
    && (forall x, y :: c.utf8(x) && c.utf8(y) ==> c.utf8(x + y))
  }

  ghost predicate EncodesOneLine(c: Codec, l: Line) {
    var e := c.encode(l);
    && e != [] && NL !in e
    && c.utf8(e) && c.utf8(e + [NL])
    && c.trim(e) == e
    && c.decode(e) == Some(l)
  }

  /** A record cut short is not a record. */
  ghost predicate PrefixFree(c: Codec, l: Line) {
    forall p :: p < c.encode(l) ==> c.decode(p) == None
  }

  ghost predicate CodecLaws(c: Codec) {
    TextLaws(c) && forall l :: EncodesOneLine(c, l) && PrefixFree(c, l)
  }

  predicate SupportedSchema(version: nat) {
    MIN_SCHEMA_VERSION <= version <= SCHEMA_VERSION
  }

  predicate Terminated(b: seq<Byte>) {
    b == [] || b[|b| - 1] == NL
  }

  // ----- Replay -----

  /** The first n bytes of b are its first line, newline included if there is one. */
  predicate IsFirstLine(b: seq<Byte>, n: int) {
    && 1 <= n <= |b|
    && (forall i :: 0 <= i < n - 1 ==> b[i] != NL)
    && (b[n - 1] == NL || n == |b|)
  }

  lemma {:induction false} FirstLineExists(b: seq<Byte>)
    requires b != []
    ensures exists n :: IsFirstLine(b, n)
  {
    var n := 1;
    while b[n - 1] != NL && n < |b|
      invariant 1 <= n <= |b| && forall i :: 0 <= i < n - 1 ==> b[i] != NL
      decreases |b| - n
    {
      n := n + 1;
    }
    assert IsFirstLine(b, n);
  }

  ghost function LineLength(b: seq<Byte>): (n: nat)
    requires b != []
    ensures IsFirstLine(b, n)
  {
    FirstLineExists(b);
    var n :| IsFirstLine(b, n);
    n
  }

  lemma FirstLineIs(b: seq<Byte>, n: nat)
    requires IsFirstLine(b, n)
    ensures LineLength(b) == n
  {
    assert IsFirstLine(b, LineLength(b));
  }

  /** What replay makes of one line: skip it, stop, fail, or take its record. */
  datatype LineResult = Skip | Stop | Bad(error: Error) | Take(line: Line)

  function ReadLine(c: Codec, chunk: seq<Byte>): LineResult {
    var ended := chunk != [] && chunk[|chunk| - 1] == NL;
    if |chunk| > MAX_LINE_BYTES then Bad(LineTooLong)
    else if !c.utf8(chunk) then if ended then Bad(BadText) else Stop
    else if c.trim(chunk) == [] then Skip
    else
      match c.decode(c.trim(chunk))
      case Some(line) => if SupportedSchema(line.schemaVersion) then Take(line) else Bad(UnsupportedSchema)
      case None => if ended then Bad(BadRecord) else Stop
  }

  /** The lines of a file, newlines included; only the last may lack one. */
  ghost function Chunks(b: seq<Byte>): seq<seq<Byte>> {
    if b == [] then [] else [b[..LineLength(b)]] + Chunks(b[LineLength(b)..])
  }

  function ReplayChunks(c: Codec, chunks: seq<seq<Byte>>, lines: seq<Line>): Result<seq<Line>, Error> {
    if chunks == [] then Success(lines)
    else
      match ReadLine(c, chunks[0])
      case Bad(e) => Failure(e)
      case Stop => Success(lines)
      case Skip => ReplayChunks(c, chunks[1..], lines)
      case Take(line) =>
        if |lines| + 1 > MAX_LINES then Failure(TooManyLines) else ReplayChunks(c, chunks[1..], lines + [line])
  }

  ghost function Replay(c: Codec, b: seq<Byte>, lines: seq<Line>): Result<seq<Line>, Error> {
    ReplayChunks(c, Chunks(b), lines)
  }

  ghost function ReplayFile(c: Codec, file: seq<Byte>): Result<seq<Line>, Error> {
    if |file| > MAX_FILE_BYTES then Failure(FileTooLarge) else Replay(c, file, [])
  }

  /** The reading loop of the store. */
  method ParseLines(c: Codec, file: seq<Byte>) returns (result: Result<seq<Line>, Error>)
    ensures result == Replay(c, file, [])
  {
    var lines: seq<Line> := [];
    var pos := 0;
    assert file[0..] == file;
    while pos < |file|
      invariant 0 <= pos <= |file|
      invariant Replay(c, file, []) == Replay(c, file[pos..], lines)
    {
      var end := ReadUntilNewline(file, pos);
      var buffer := file[pos..end];
      ghost var rest := file[pos..];
      assert rest[..end - pos] == buffer && rest[end - pos..] == file[end..];
      pos := end;
      match ReadLine(c, buffer) {
        case Bad(e) => return Failure(e);
        case Stop => return Success(lines);
        case Skip =>
        case Take(line) =>
          lines := lines + [line];
          if |lines| > MAX_LINES {
            return Failure(TooManyLines);
          }
      }
    }
    assert file[pos..] == [];
    result := Success(lines);
  }

  method ReadUntilNewline(file: seq<Byte>, pos: nat) returns (end: nat)
    requires pos < |file|
    ensures pos < end <= |file| && end - pos == LineLength(file[pos..])
  {
    end := pos + 1;
    while file[end - 1] != NL && end < |file|
      invariant pos < end <= |file|
      invariant forall i :: pos <= i < end - 1 ==> file[i] != NL
      decreases |file| - end
    {
      end := end + 1;
    }
    assert IsFirstLine(file[pos..], end - pos);
    FirstLineIs(file[pos..], end - pos);
  }

  lemma FirstLineOfMore(b: seq<Byte>, more: seq<Byte>)
    requires b != [] && (b[LineLength(b) - 1] == NL || more == [])
    ensures var n := LineLength(b);
      LineLength(b + more) == n && (b + more)[..n] == b[..n] && (b + more)[n..] == b[n..] + more
  {
    assert IsFirstLine(b + more, LineLength(b));
    FirstLineIs(b + more, LineLength(b));
  }

  lemma RestIsTerminated(b: seq<Byte>)
    requires b != [] && Terminated(b)
    ensures Terminated(b[LineLength(b)..]) && b[LineLength(b) - 1] == NL
  {
    var n := LineLength(b);
    assert n < |b| ==> b[n..][|b| - n - 1] == b[|b| - 1];
  }

  lemma ChunksCons(x: seq<Byte>, rest: seq<Byte>)
    requires IsFirstLine(x, |x|) && (x[|x| - 1] == NL || rest == [])
    ensures Chunks(x + rest) == [x] + Chunks(rest)
  {
    var b := x + rest;
    assert IsFirstLine(b, |x|);
    FirstLineIs(b, |x|);
    assert b[..|x|] == x && b[|x|..] == rest;
  }

  lemma {:induction false} ChunksConcat(b: seq<Byte>, more: seq<Byte>)
    requires Terminated(b)
    ensures Chunks(b + more) == Chunks(b) + Chunks(more)
    decreases |b|
  {
    if b == [] {
      assert b + more == more;
    } else {
      var x, rest := SplitLine(b);
      ChunksConcat(rest, more);
      ChunksConcatStep(x, rest, more, Chunks(rest), Chunks(more));
    }
  }

  lemma ChunksConcatStep(x: seq<Byte>, rest: seq<Byte>, more: seq<Byte>, u: seq<seq<Byte>>, v: seq<seq<Byte>>)
    requires IsFirstLine(x, |x|) && x[|x| - 1] == NL
    requires u == Chunks(rest) && Chunks(rest + more) == u + v
    ensures Chunks(x + rest + more) == Chunks(x + rest) + v
  {
    ChunksCons(x, rest);
    ChunksCons(x, rest + more);
    assert x + rest + more == x + (rest + more);
    assert [x] + (u + v) == [x] + u + v;
  }

  lemma SplitLine(b: seq<Byte>) returns (x: seq<Byte>, rest: seq<Byte>)
    requires b != [] && Terminated(b)
    ensures b == x + rest && IsFirstLine(x, |x|) && x[|x| - 1] == NL && Terminated(rest) && |rest| < |b|
  {
    var n := LineLength(b);
    x, rest := b[..n], b[n..];
    RestIsTerminated(b);
  }

  lemma {:induction false} ChunksOfTerminated(b: seq<Byte>)
    requires Terminated(b)
    ensures forall x :: x in Chunks(b) ==> IsFirstLine(x, |x|) && x[|x| - 1] == NL
    decreases |b|
  {
    if b != [] {
      var x, rest := SplitLine(b);
      ChunksCons(x, rest);
      ChunksOfTerminated(rest);
    }
  }

  lemma {:induction false} ReplayChunksConcat(
    c: Codec, u: seq<seq<Byte>>, v: seq<seq<Byte>>, lines: seq<Line>)
    requires forall x :: x in u ==> x != [] && x[|x| - 1] == NL
    ensures var r := ReplayChunks(c, u, lines);
      ReplayChunks(c, u + v, lines) == if r.Success? then ReplayChunks(c, v, r.value) else r
  {
    if u == [] {
      assert u + v == v;
    } else {
      assert (u + v)[1..] == u[1..] + v;
      var r := ReadLine(c, u[0]);
      if r.Skip? {
        ReplayChunksConcat(c, u[1..], v, lines);
      } else if r.Take? {
        ReplayChunksConcat(c, u[1..], v, lines + [r.line]);
      }
    }
  }

  /** Replay of a terminated file goes on with whatever follows it. */
  lemma ReplayContinues(c: Codec, b: seq<Byte>, more: seq<Byte>, lines: seq<Line>)
    requires Terminated(b)
    ensures var r := Replay(c, b, lines);
      Replay(c, b + more, lines) == if r.Success? then Replay(c, more, r.value) else r
  {
    ChunksConcat(b, more);
    ChunksOfTerminated(b);
    ReplayChunksConcat(c, Chunks(b), Chunks(more), lines);
  }

  /** Replay of a single line. */
  lemma ReplayOneLine(c: Codec, x: seq<Byte>, lines: seq<Line>)
    requires x != [] && LineLength(x) == |x|
    ensures var r := ReadLine(c, x);
      Replay(c, x, lines) ==
        if r.Bad? then Failure(r.error)
        else if r.Stop? || r.Skip? then Success(lines)
        else if |lines| + 1 > MAX_LINES then Failure(TooManyLines)
        else Success(lines + [r.line])
  {
    assert x[..|x|] == x && x[|x|..] == [];
    assert Chunks(x) == [x] + Chunks([]) == [x];
    assert [x][0] == x && [x][1..] == [];
    assert ReplayChunks(c, [], lines) == Success(lines);
    assert forall l :: ReplayChunks(c, [], lines + [l]) == Success(lines + [l]);
  }

  /** Replay never returns more records than the log may hold. */
  lemma {:induction false} ReplayIsBounded(c: Codec, chunks: seq<seq<Byte>>, lines: seq<Line>)
    requires |lines| <= MAX_LINES
    ensures var r := ReplayChunks(c, chunks, lines); r.Success? ==> |r.value| <= MAX_LINES
  {
    if chunks != [] {
      var r := ReadLine(c, chunks[0]);
      if r.Skip? {
        ReplayIsBounded(c, chunks[1..], lines);
      } else if r.Take? && |lines| < MAX_LINES {
        ReplayIsBounded(c, chunks[1..], lines + [r.line]);
      }
    }
  }

  // ----- Appending one record, and cutting the append short -----

  function Encoded(c: Codec, line: Line): seq<Byte> {
    c.encode(line) + [NL]
  }

  /** A file that replays, with room for one more record. */
  ghost predicate HasRoom(c: Codec, file: seq<Byte>, before: seq<Line>, line: Line) {
    && Terminated(file)
    && ReplayFile(c, file) == Success(before)
    && |file| + |c.encode(line)| + 1 <= MAX_FILE_BYTES
  }

  lemma LastPieceIsOneLine(c: Codec, line: Line, k: nat)
    requires CodecLaws(c) && 0 < k <= |c.encode(line)| + 1
    ensures LineLength(Encoded(c, line)[..k]) == k
    ensures Encoded(c, line)[..k][k - 1] == NL <==> k == |c.encode(line)| + 1
  {
    var e, x := c.encode(line), Encoded(c, line)[..k];
    assert EncodesOneLine(c, line);
    assert forall i :: 0 <= i < |e| ==> e[i] in e;
    assert forall i :: 0 <= i < k - 1 ==> x[i] == e[i];
    assert IsFirstLine(x, k);
    FirstLineIs(x, k);
  }

  lemma ReadPiece(c: Codec, line: Line, k: nat)
    requires CodecLaws(c) && SupportedSchema(line.schemaVersion)
    requires 0 < k <= |c.encode(line)| + 1 && k <= MAX_LINE_BYTES
    ensures var r := ReadLine(c, Encoded(c, line)[..k]);
      if k < |c.encode(line)| then r == Stop || r == Skip else r == Take(line)
  {
    var e, x := c.encode(line), Encoded(c, line)[..k];
    assert EncodesOneLine(c, line) && PrefixFree(c, line);
    LastPieceIsOneLine(c, line, k);
    if k < |e| {
      assert c.trim(x) <= x && x == e[..k];
      assert c.trim(x) < e;
    } else if k == |e| {
      assert x == e;
    } else {
      assert x == e + [NL];
    }
  }

  /** Crash atomicity.  Wherever an append is cut short, the file still replays: to the old
      records if the record is incomplete, to the old records and the new one otherwise. */
  lemma CrashAtomicAppend(c: Codec, file: seq<Byte>, before: seq<Line>, line: Line, k: nat)
    requires CodecLaws(c) && SupportedSchema(line.schemaVersion)
    requires HasRoom(c, file, before, line) && |before| < MAX_LINES && |c.encode(line)| < MAX_LINE_BYTES
    requires k <= |c.encode(line)| + 1
    ensures ReplayFile(c, file + Encoded(c, line)[..k])
      == Success(if k < |c.encode(line)| then before else before + [line])
  {
    var x := Encoded(c, line)[..k];
    ReplayContinues(c, file, x, []);
    if k == 0 {
      assert EncodesOneLine(c, line);
    } else {
      LastPieceIsOneLine(c, line, k);
      ReadPiece(c, line, k);
      ReplayOneLine(c, x, before);
    }
  }

  /** A complete append replays exactly when the encoding is strictly below the line limit and
      the record count is; the store itself also accepts an encoding of exactly the limit. */
  lemma AppendReplaysIff(c: Codec, file: seq<Byte>, before: seq<Line>, line: Line)
    requires CodecLaws(c) && SupportedSchema(line.schemaVersion) && HasRoom(c, file, before, line)
    ensures ReplayFile(c, file + Encoded(c, line)).Success?
      <==> |c.encode(line)| < MAX_LINE_BYTES && |before| < MAX_LINES
    ensures ReplayFile(c, file + Encoded(c, line)).Success? ==>
      ReplayFile(c, file + Encoded(c, line)) == Success(before + [line])
  {
    var x := Encoded(c, line);
    assert x[..|x|] == x;
    ReplayContinues(c, file, x, []);
    LastPieceIsOneLine(c, line, |x|);
    ReplayOneLine(c, x, before);
    if |x| <= MAX_LINE_BYTES {
      ReadPiece(c, line, |x|);
    }
  }

  /** No record is a non-empty piece of one encoding followed by another encoding. */
  ghost predicate NoGluedRecords(c: Codec) {
    forall first, second, k :: 0 < k <= |c.encode(first)| ==>
      c.decode(c.trim(c.encode(first)[..k] + c.encode(second))) == None
      && c.trim(c.encode(first)[..k] + c.encode(second)) != []
  }

  /** Appending after a torn tail does not repair it: when a first append was cut after k bytes
      and a second one completes, the log replays exactly if the cut fell on a record boundary. */
  lemma AppendAfterCrashReplaysIff(
    c: Codec, file: seq<Byte>, before: seq<Line>, torn: Line, k: nat, line: Line)
    requires CodecLaws(c) && NoGluedRecords(c)
    requires SupportedSchema(torn.schemaVersion) && SupportedSchema(line.schemaVersion)
    requires HasRoom(c, file, before, torn) && |before| + 1 < MAX_LINES
    requires |c.encode(torn)| < MAX_LINE_BYTES && |c.encode(line)| < MAX_LINE_BYTES
    requires |file| + |c.encode(torn)| + |c.encode(line)| + 2 <= MAX_FILE_BYTES
    requires k <= |c.encode(torn)| + 1
    ensures ReplayFile(c, file + Encoded(c, torn)[..k] + Encoded(c, line)).Success?
      <==> k == 0 || k == |c.encode(torn)| + 1
  {
    var tail := Encoded(c, torn)[..k];
    if k == 0 {
      assert file + tail == file;
      AppendReplaysIff(c, file, before, line);
    } else if k == |c.encode(torn)| + 1 {
      assert tail == Encoded(c, torn);
      AppendReplaysIff(c, file, before, torn);
      assert Terminated(file + tail);
      AppendReplaysIff(c, file + tail, before + [torn], line);
    } else {
      GluedLineIsBad(c, torn, k, line);
      var x := tail + Encoded(c, line);
      assert file + tail + Encoded(c, line) == file + x;
      ReplayContinues(c, file, x, []);
      ReplayOneLine(c, x, before);
    }
  }

  /** For one: when the first append to an empty log is cut after one byte, the log is still empty
      to a reader, but no append after it can be read back. */
  lemma TornFirstByteSpoilsLog(c: Codec, torn: Line, line: Line)
    requires CodecLaws(c) && NoGluedRecords(c)
    requires SupportedSchema(torn.schemaVersion) && SupportedSchema(line.schemaVersion)
    requires |c.encode(torn)| < MAX_LINE_BYTES && |c.encode(line)| < MAX_LINE_BYTES
    ensures ReplayFile(c, Encoded(c, torn)[..1]) == Success(if |c.encode(torn)| == 1 then [torn] else [])
    ensures ReplayFile(c, Encoded(c, torn)[..1] + Encoded(c, line)).Failure?
  {
    assert EncodesOneLine(c, torn);
    var file: seq<Byte>, piece := [], Encoded(c, torn)[..1];
    ReplayNothing(c, []);
    CrashAtomicAppend(c, file, [], torn, 1);
    AppendAfterCrashReplaysIff(c, file, [], torn, 1, line);
    assert file + piece == piece && [] + [torn] == [torn];
  }

  lemma GluedLineIsBad(c: Codec, torn: Line, k: nat, line: Line)
    requires CodecLaws(c) && NoGluedRecords(c) && 0 < k <= |c.encode(torn)|
    ensures var x := Encoded(c, torn)[..k] + Encoded(c, line);
      LineLength(x) == |x| && ReadLine(c, x).Bad?
  {
    var piece, e := Encoded(c, torn)[..k], c.encode(line);
    var x := piece + Encoded(c, line);
    assert piece == c.encode(torn)[..k] && x == piece + e + [NL];
    assert EncodesOneLine(c, torn) && EncodesOneLine(c, line);
    forall i | 0 <= i < |x| - 1 ensures x[i] != NL {
      if i < k {
        assert x[i] == c.encode(torn)[i] && c.encode(torn)[i] in c.encode(torn);
      } else {
        assert x[i] == e[i - k] && e[i - k] in e;
      }
    }
    assert IsFirstLine(x, |x|);
    FirstLineIs(x, |x|);
    assert c.trim(x) == c.trim(piece + e);
  }

  // ----- Whole files of encoded records -----

  function EncodeAll(c: Codec, lines: seq<Line>): seq<Byte> {
    if lines == [] then [] else Encoded(c, lines[0]) + EncodeAll(c, lines[1..])
  }

  lemma ReplayNothing(c: Codec, acc: seq<Line>)
    ensures Replay(c, [], acc) == Success(acc)
  {
  }

  lemma ReplayOneEncoded(c: Codec, l: Line, rest: seq<Byte>, acc: seq<Line>)
    requires CodecLaws(c) && |acc| < MAX_LINES
    requires SupportedSchema(l.schemaVersion) && |c.encode(l)| < MAX_LINE_BYTES
    ensures Replay(c, Encoded(c, l) + rest, acc) == Replay(c, rest, acc + [l])
    ensures Terminated(Encoded(c, l)) && Encoded(c, l) != []
  {
    hide CodecLaws;
    hide Replay;
    hide EncodesOneLine;
    hide ReadLine;
    var x := Encoded(c, l);
    assert x[..|x|] == x;
    LastPieceIsOneLine(c, l, |x|);
    ReadPiece(c, l, |x|);
    ReplayOneLine(c, x, acc);
    ReplayContinues(c, x, rest, acc);
  }

  /** Writing records and replaying them is the identity, within the line and count limits. */
  lemma {:induction false} ReplayEncoded(c: Codec, lines: seq<Line>, acc: seq<Line>)
    requires CodecLaws(c) && |acc| + |lines| <= MAX_LINES
    requires forall l :: l in lines ==> SupportedSchema(l.schemaVersion) && |c.encode(l)| < MAX_LINE_BYTES
    ensures Replay(c, EncodeAll(c, lines), acc) == Success(acc + lines)
    ensures Terminated(EncodeAll(c, lines))
    decreases |lines|
  {
    hide CodecLaws;
    hide Replay;
    if lines == [] {
      assert acc + lines == acc;
      ReplayNothing(c, acc);
    } else {
      var l, rest := lines[0], EncodeAll(c, lines[1..]);
      ReplayOneEncoded(c, l, rest, acc);
      ReplayEncoded(c, lines[1..], acc + [l]);
      assert acc + [l] + lines[1..] == acc + lines;
      var x := Encoded(c, l);
      assert rest == [] || (x + rest)[|x + rest| - 1] == rest[|rest| - 1];
    }
  }
}
