/** The session store. */
module SessionStore {
  // Opening, appending and compacting, with sequence numbers.

  import opened Wrappers
  import opened SessionLog
  import opened SessionCompaction

  const MAX_SEQUENCE: nat := 0xFFFF_FFFF_FFFF_FFFF

  function SaturatingNext(n: nat): nat {
    if n < MAX_SEQUENCE then n + 1 else n
  }

  /** The least sequence number above those of all lines. */
  function NextSequence(lines: seq<Line>): nat {
    if lines == [] then 1
    else
      var n, s := NextSequence(lines[..|lines| - 1]), SaturatingNext(lines[|lines| - 1].sequence);
      if s > n then s else n
  }

  /** File and counter after an operation, and what it returned. */
  datatype Outcome<T> = Outcome(file: seq<Byte>, next: nat, result: Result<T, Error>)

  datatype Rules = Rules(codec: Codec, sanitize: Record -> Record, secret: seq<Byte> -> bool)

  function AfterCompaction(lines: seq<Line>): nat {
    var kept := Compacted(lines);
    if kept == [] then 1 else SaturatingNext(kept[|kept| - 1].sequence)
  }

  ghost function CompactSpec(c: Codec, file: seq<Byte>, next: nat): Outcome<()> {
    var replayed := ReplayFile(c, file);
    if replayed.Failure? then Outcome(file, next, Failure(replayed.error))
    else
      var body := EncodeAll(c, Compacted(replayed.value));
      if |body| > MAX_FILE_BYTES then Outcome(file, next, Failure(StillTooLarge))
      else Outcome(body, AfterCompaction(replayed.value), Success(()))
  }

  predicate NeedsCompaction(file: seq<Byte>, encoded: seq<Byte>) {
    |file| + |encoded| + 1 > MAX_FILE_BYTES
  }

  ghost function AppendSpec(
    rules: Rules, file: seq<Byte>, next: nat, sessionId: string, turnId: Option<string>, record: Record): Outcome<Line>
  {
    var c := rules.codec;
    var line := Line(SCHEMA_VERSION, next, sessionId, turnId, rules.sanitize(record));
    var encoded := c.encode(line);
    if |encoded| > MAX_LINE_BYTES then Outcome(file, next, Failure(RecordTooLong))
    else if rules.secret(encoded) then Outcome(file, next, Failure(ContainsSecret))
    else
      var base :=
        if NeedsCompaction(file, encoded) then CompactSpec(c, file, next) else Outcome(file, next, Success(()));
      if base.result.Failure? then Outcome(base.file, base.next, Failure(base.result.error))
      else
        var written := base.file + encoded + [NL];
        var replayed := ReplayFile(c, written);
        Outcome(written, SaturatingNext(base.next),
                if replayed.Success? then Success(line) else Failure(replayed.error))
  }

  class SessionStore {
    const rules: Rules
    const sessionId: string
    var file: seq<Byte>
    var nextSequence: nat

    /** Opens a log that replays and recovers its next sequence number. */
    constructor (rules: Rules, sessionId: string, file: seq<Byte>, lines: seq<Line>)
      requires ReplayFile(rules.codec, file) == Success(lines)
      ensures this.rules == rules && this.sessionId == sessionId && this.file == file
      ensures nextSequence == NextSequence(lines)
    {
      this.rules, this.sessionId, this.file := rules, sessionId, file;
      var next := 1;
      for i := 0 to |lines|
        invariant next == NextSequence(lines[..i])
      {
        assert lines[..i + 1][..i] == lines[..i];
        var s := SaturatingNext(lines[i].sequence);
        next := if s > next then s else next;
      }
      assert lines[..|lines|] == lines;
      nextSequence := next;
    }

    method Replay() returns (result: Result<seq<Line>, Error>)
      ensures result == ReplayFile(rules.codec, file)
    {
      if |file| > MAX_FILE_BYTES {
        return Failure(FileTooLarge);
      }
      result := ParseLines(rules.codec, file);
    }

    method Compact() returns (result: Result<(), Error>)
      modifies this
      ensures Outcome(file, nextSequence, result) == CompactSpec(rules.codec, old(file), old(nextSequence))
    {
      var replayed := Replay();
      if replayed.Failure? {
        return Failure(replayed.error);
      }
      var kept := CompactLines(replayed.value);
      var body := EncodeBody(rules.codec, kept);
      if |body| > MAX_FILE_BYTES {
        return Failure(StillTooLarge);
      }
      file := body;
      nextSequence := if kept == [] then 1 else SaturatingNext(kept[|kept| - 1].sequence);
      result := Success(());
    }

    /** Appends a record.  The compaction for too many lines at the end never runs, because
        the replay before it already fails on such a file. */
    method Append(turnId: Option<string>, record: Record) returns (result: Result<Line, Error>)
      modifies this
      ensures Outcome(file, nextSequence, result)
        == AppendSpec(rules, old(file), old(nextSequence), sessionId, turnId, record)
    {
      var line := Line(SCHEMA_VERSION, nextSequence, sessionId, turnId, rules.sanitize(record));
      var encoded := rules.codec.encode(line);
      if |encoded| > MAX_LINE_BYTES {
        return Failure(RecordTooLong);
      }
      if rules.secret(encoded) {
        return Failure(ContainsSecret);
      }
      if |file| + |encoded| + 1 > MAX_FILE_BYTES {
        var compacted := Compact();
        if compacted.Failure? {
          return Failure(compacted.error);
        }
      }
      file := file + encoded;
      file := file + [NL];
      nextSequence := SaturatingNext(nextSequence);
      var replayed := Replay();
      if replayed.Failure? {
        return Failure(replayed.error);
      }
      ReplayIsBounded(rules.codec, Chunks(file), []);
      if |replayed.value| > MAX_LINES {
        assert false;
      }
      result := Success(line);
    }
  }

  /** The body of a compacted file: encodings joined by newlines, and a final newline. */
  method EncodeBody(c: Codec, lines: seq<Line>) returns (body: seq<Byte>)
    ensures body == EncodeAll(c, lines)
  {
    body := [];
    var i := |lines|;
    while i > 0
      invariant 0 <= i <= |lines|
      invariant body == EncodeAll(c, lines[i..])
    {
      i := i - 1;
      assert lines[i..][1..] == lines[i + 1..];
      body := c.encode(lines[i]) + [NL] + body;
    }
    assert lines[0..] == lines;
  }

  // ----- What an append does to the log -----

  /** Replaying encoded records either gives them back or fails. */
  lemma {:induction false} ReplayEncodedExact(c: Codec, lines: seq<Line>, acc: seq<Line>)
    requires CodecLaws(c) && forall l :: l in lines ==> SupportedSchema(l.schemaVersion)
    ensures Terminated(EncodeAll(c, lines))
    ensures var r := Replay(c, EncodeAll(c, lines), acc); r.Success? ==> r.value == acc + lines
    decreases |lines|
  {
    if lines == [] {
      assert acc + lines == acc;
    } else {
      var l, rest := lines[0], EncodeAll(c, lines[1..]);
      var x := Encoded(c, l);
      assert x[..|x|] == x;
      LastPieceIsOneLine(c, l, |x|);
      ReplayOneLine(c, x, acc);
      ReplayContinues(c, x, rest, acc);
      if |x| <= MAX_LINE_BYTES {
        ReadPiece(c, l, |x|);
      }
      ReplayEncodedExact(c, lines[1..], acc + [l]);
      assert acc + [l] + lines[1..] == acc + lines;
      assert rest == [] || (x + rest)[|x + rest| - 1] == rest[|rest| - 1];
    }
  }

  lemma CompactedLinesAreCurrent(lines: seq<Line>)
    ensures forall l :: l in Compacted(lines) ==> l.schemaVersion == SCHEMA_VERSION
    ensures forall i :: 0 <= i < |Compacted(lines)| ==> Compacted(lines)[i].sequence == i + 1
  {
  }

  /** The records the new line is added to: the old ones, or what compaction kept of them. */
  ghost function Base(rules: Rules, file: seq<Byte>, lines: seq<Line>, line: Line): seq<Line> {
    if NeedsCompaction(file, rules.codec.encode(line)) then Compacted(lines) else lines
  }

  /** One more record written after a file that replays, if at all, to base. */
  lemma WriteReplays(c: Codec, before: seq<Byte>, base: seq<Line>, line: Line)
    requires CodecLaws(c) && Terminated(before) && SupportedSchema(line.schemaVersion)
    requires var r := Replay(c, before, []); r.Success? ==> r.value == base
    requires Replay(c, before + Encoded(c, line), []).Success?
    ensures Replay(c, before + Encoded(c, line), []) == Success(base + [line])
  {
    var x := Encoded(c, line);
    assert x[..|x|] == x;
    ReplayContinues(c, before, x, []);
    LastPieceIsOneLine(c, line, |x|);
    ReplayOneLine(c, x, base);
    if |x| <= MAX_LINE_BYTES {
      ReadPiece(c, line, |x|);
    }
  }

  /** After a successful append the log is terminated and replays to the base and the new line. */
  lemma AppendGrowsLog(
    rules: Rules, file: seq<Byte>, lines: seq<Line>, next: nat, sessionId: string, turnId: Option<string>,
    record: Record)
    requires CodecLaws(rules.codec) && Terminated(file) && ReplayFile(rules.codec, file) == Success(lines)
    requires AppendSpec(rules, file, next, sessionId, turnId, record).result.Success?
    ensures var o := AppendSpec(rules, file, next, sessionId, turnId, record);
      && Terminated(o.file)
      && ReplayFile(rules.codec, o.file) == Success(Base(rules, file, lines, o.result.value) + [o.result.value])
      && o.result.value.sequence == next && o.result.value.record == rules.sanitize(record)
  {
    hide CodecLaws;
    hide Replay;
    hide Compacted;
    hide EncodeAll;
    var c := rules.codec;
    var o := AppendSpec(rules, file, next, sessionId, turnId, record);
    var line := o.result.value;
    if NeedsCompaction(file, c.encode(line)) {
      CompactedLinesAreCurrent(lines);
      var body := EncodeAll(c, Compacted(lines));
      ReplayEncodedExact(c, Compacted(lines), []);
      assert [] + Compacted(lines) == Compacted(lines);
      assert o.file == body + Encoded(c, line);
      WriteReplays(c, body, Compacted(lines), line);
    } else {
      assert o.file == file + Encoded(c, line);
      WriteReplays(c, file, lines, line);
    }
  }

  /** The store accepts an encoding of exactly the line limit, but then the log is lost: the
      append fails after it has written, and no later replay succeeds. */
  lemma RecordAtTheLimitSpoilsLog(
    rules: Rules, file: seq<Byte>, lines: seq<Line>, next: nat, sessionId: string, turnId: Option<string>,
    record: Record)
    requires CodecLaws(rules.codec) && Terminated(file) && ReplayFile(rules.codec, file) == Success(lines)
    requires var e := rules.codec.encode(Line(SCHEMA_VERSION, next, sessionId, turnId, rules.sanitize(record)));
      |e| == MAX_LINE_BYTES && !rules.secret(e) && !NeedsCompaction(file, e)
    ensures var o := AppendSpec(rules, file, next, sessionId, turnId, record);
      o.file != file && o.result.Failure? && ReplayFile(rules.codec, o.file).Failure?
  {
    var c := rules.codec;
    var line := Line(SCHEMA_VERSION, next, sessionId, turnId, rules.sanitize(record));
    AppendReplaysIff(c, file, lines, line);
    assert file + c.encode(line) + [NL] == file + Encoded(c, line);
  }

  // ----- Sequence numbers -----

  predicate IncreasingSequences(lines: seq<Line>) {
    && (forall i :: 0 <= i < |lines| ==> 1 <= lines[i].sequence < MAX_SEQUENCE)
    && (forall i, j :: 0 <= i < j < |lines| ==> lines[i].sequence < lines[j].sequence)
  }

  lemma {:induction false} NextSequenceIsAbove(lines: seq<Line>)
    requires IncreasingSequences(lines)
    ensures NextSequence(lines) == if lines == [] then 1 else lines[|lines| - 1].sequence + 1
    ensures |lines| < NextSequence(lines)
  {
    if lines != [] {
      NextSequenceIsAbove(lines[..|lines| - 1]);
    }
  }

  /** Without compaction an append continues the increasing numbering. */
  lemma AppendKeepsNumbering(lines: seq<Line>, line: Line)
    requires IncreasingSequences(lines) && line.sequence == NextSequence(lines) < MAX_SEQUENCE
    ensures IncreasingSequences(lines + [line])
    ensures NextSequence(lines + [line]) == SaturatingNext(line.sequence)
  {
    NextSequenceIsAbove(lines);
    assert (lines + [line])[..|lines|] == lines;
  }

  lemma AppendedNumbering(kept: seq<Line>, line: Line, later: Line)
    requires forall i :: 0 <= i < |kept| ==> kept[i].sequence == i + 1
    requires |kept| < line.sequence < MAX_SEQUENCE && later.sequence == |kept| + 2 < MAX_SEQUENCE
    ensures IncreasingSequences(kept + [line])
    ensures IncreasingSequences(kept + [line, later]) <==> line.sequence == |kept| + 1
  {
    var all := kept + [line, later];
    assert all[|kept|] == line && all[|kept| + 1] == later;
    assert forall i :: 0 <= i < |kept| ==> all[i] == kept[i];
  }

  lemma NumbersAfterCompaction(lines: seq<Line>, line: Line, later: Line)
    requires IncreasingSequences(lines) && line.sequence == NextSequence(lines) < MAX_SEQUENCE
    requires later.sequence == SaturatingNext(AfterCompaction(lines)) < MAX_SEQUENCE
    ensures IncreasingSequences(Compacted(lines) + [line, later])
      <==> NextSequence(lines) == |Compacted(lines)| + 1
  {
    NextSequenceIsAbove(lines);
    CompactionShortens(lines);
    CompactedLinesAreCurrent(lines);
    AppendedNumbering(Compacted(lines), line, later);
  }

  datatype Entry = Entry(turnId: Option<string>, record: Record)

  /** Two appends, one after the other. */
  ghost function AppendTwice(
    rules: Rules, file: seq<Byte>, next: nat, sessionId: string, first: Entry, second: Entry):
    (Outcome<Line>, Outcome<Line>)
  {
    var one := AppendSpec(rules, file, next, sessionId, first.turnId, first.record);
    (one, AppendSpec(rules, one.file, one.next, sessionId, second.turnId, second.record))
  }

  lemma CompactingAppend(
    rules: Rules, file: seq<Byte>, lines: seq<Line>, next: nat, sessionId: string, e: Entry)
    requires ReplayFile(rules.codec, file) == Success(lines)
    requires var o := AppendSpec(rules, file, next, sessionId, e.turnId, e.record);
      o.result.Success? && NeedsCompaction(file, rules.codec.encode(o.result.value))
    ensures AppendSpec(rules, file, next, sessionId, e.turnId, e.record).next == SaturatingNext(AfterCompaction(lines))
  {
  }

  /** When an append compacts the log and another one follows, the log replays to what was kept
      and the two new lines.  The first of them was numbered before the kept lines were, so the
      numbering is increasing exactly when the compaction dropped no number. */
  lemma NumberingAfterCompactionIff(
    rules: Rules, file: seq<Byte>, lines: seq<Line>, sessionId: string, first: Entry, second: Entry)
    requires CodecLaws(rules.codec) && Terminated(file) && ReplayFile(rules.codec, file) == Success(lines)
    requires IncreasingSequences(lines) && NextSequence(lines) < MAX_SEQUENCE
    requires var (one, two) := AppendTwice(rules, file, NextSequence(lines), sessionId, first, second);
      && one.result.Success? && NeedsCompaction(file, rules.codec.encode(one.result.value)) && one.next < MAX_SEQUENCE
      && two.result.Success? && !NeedsCompaction(one.file, rules.codec.encode(two.result.value))
    ensures var (one, two) := AppendTwice(rules, file, NextSequence(lines), sessionId, first, second);
      var after := Compacted(lines) + [one.result.value, two.result.value];
      && ReplayFile(rules.codec, two.file) == Success(after)
      && (IncreasingSequences(after) <==> NextSequence(lines) == |Compacted(lines)| + 1)
  {
    hide AppendSpec;
    hide ReplayFile;
    hide CodecLaws;
    hide IncreasingSequences;
    hide Compacted;
    hide NextSequence;
    hide NeedsCompaction;
    var next := NextSequence(lines);
    var (one, two) := AppendTwice(rules, file, next, sessionId, first, second);
    AppendGrowsLog(rules, file, lines, next, sessionId, first.turnId, first.record);
    CompactingAppend(rules, file, lines, next, sessionId, first);
    var base := Compacted(lines) + [one.result.value];
    AppendGrowsLog(rules, one.file, base, one.next, sessionId, second.turnId, second.record);
    assert base + [two.result.value] == Compacted(lines) + [one.result.value, two.result.value];
    NumbersAfterCompaction(lines, one.result.value, two.result.value);
  }

  // ----- A log whose numbering goes back -----

  const PADDED: nat := 26000
  const SMALL: nat := 8192
  const DIGITS: nat := 8

  function Header(id: string): Line {
    Line(SCHEMA_VERSION, 1, id, None, Started("w", None))
  }

  function TurnOf(body: string): Record {
    TurnSnapshot(Snapshot("t", Context(None, body), None, []))
  }

  function Letters(k: nat): (s: string)
    ensures |s| == k
  {
    seq(k, i => 'a')
  }

  /** The size of line s without a body. */
  function BaseSize(c: Codec, id: string, s: nat): nat {
    |c.encode(Line(SCHEMA_VERSION, s, id, None, TurnOf("")))|
  }

  /** What JSON text gives for the lines below: a letter more in the body is a byte more in the
      encoding, the number of the line makes little difference, and everything else takes less
      than eight kilobytes. */
  ghost predicate LettersAreBytes(c: Codec, id: string) {
    && |c.encode(Header(id))| < SMALL
    && (forall s: nat :: s <= 100 ==> BaseSize(c, id, s) < SMALL)
    && (forall s: nat, other: nat :: s <= 100 && other <= 100 ==> BaseSize(c, id, s) < BaseSize(c, id, other) + DIGITS)
    && (forall s: nat, k: nat :: s <= 100 ==>
          |c.encode(Line(SCHEMA_VERSION, s, id, None, TurnOf(Letters(k))))| == BaseSize(c, id, s) + k)
  }

  /** Nothing is changed or refused on the way to the log. */
  ghost predicate LetsThrough(rules: Rules) {
    (forall r :: rules.sanitize(r) == r) && forall e :: !rules.secret(e)
  }

  /** The body that makes line s exactly `PADDED` bytes long. */
  function Body(c: Codec, id: string, s: nat): string {
    var base := BaseSize(c, id, s);
    Letters(if base < PADDED then PADDED - base else 0)
  }

  function Padded(c: Codec, id: string, s: nat): Line {
    Line(SCHEMA_VERSION, s, id, None, TurnOf(Body(c, id, s)))
  }

  function PaddedTurns(c: Codec, id: string): seq<Line> {
    seq(80, i requires 0 <= i < 80 => Padded(c, id, i + 2))
  }

  /** A header and eighty turns. */
  function LongLog(c: Codec, id: string): seq<Line> {
    [Header(id)] + PaddedTurns(c, id)
  }

  predicate Sized(c: Codec, lines: seq<Line>) {
    forall l :: l in lines ==> PADDED - DIGITS <= |c.encode(l)| < PADDED + DIGITS
  }

  lemma {:induction false} SizedBody(c: Codec, lines: seq<Line>)
    requires Sized(c, lines)
    ensures (PADDED - DIGITS + 1) * |lines| <= |EncodeAll(c, lines)| <= (PADDED + DIGITS) * |lines|
  {
    if lines != [] {
      SizedBody(c, lines[1..]);
      assert lines[0] in lines;
    }
  }

  lemma PaddedSizes(c: Codec, id: string, s: nat, other: nat)
    requires LettersAreBytes(c, id) && s <= 100 && other <= 100
    ensures |c.encode(Padded(c, id, s))| == PADDED
    ensures PADDED - DIGITS <= |c.encode(Padded(c, id, s).(sequence := other))| < PADDED + DIGITS
  {
    var k := PADDED - BaseSize(c, id, s);
    assert Padded(c, id, s) == Line(SCHEMA_VERSION, s, id, None, TurnOf(Letters(k)));
    assert Padded(c, id, s).(sequence := other) == Line(SCHEMA_VERSION, other, id, None, TurnOf(Letters(k)));
    assert |c.encode(Line(SCHEMA_VERSION, other, id, None, TurnOf(Letters(k))))| == BaseSize(c, id, other) + k;
  }

  lemma {:induction false} ExactBody(c: Codec, id: string, lines: seq<Line>)
    requires forall l :: l in lines ==> |c.encode(l)| == PADDED
    ensures |EncodeAll(c, lines)| == (PADDED + 1) * |lines|
  {
    if lines != [] {
      ExactBody(c, id, lines[1..]);
      assert lines[0] in lines;
    }
  }

  lemma CompactedLongLog(c: Codec, id: string)
    ensures var kept := Compacted(LongLog(c, id));
      && |kept| == 65 && kept[0] == Header(id)
      && forall i :: 1 <= i < 65 ==> kept[i] == Padded(c, id, i + 17).(sequence := i + 1)
  {
    hide Body;
    var turns := PaddedTurns(c, id);
    HeaderAlone(Header(id));
    TurnsOfSnapshots(turns);
    TurnsConcat([Header(id)], turns);
    assert LastTurns(turns) == turns[16..];
    assert Kept(LongLog(c, id)) == [Header(id)] + turns[16..];
  }

  lemma LongLogNumbers(c: Codec, id: string)
    ensures IncreasingSequences(LongLog(c, id)) && NextSequence(LongLog(c, id)) == 82
  {
    NextSequenceIsAbove(LongLog(c, id));
  }

  lemma EncodeCons(c: Codec, l: Line, rest: seq<Line>)
    ensures EncodeAll(c, [l] + rest) == Encoded(c, l) + EncodeAll(c, rest)
  {
    assert ([l] + rest)[1..] == rest;
  }

  /** Sizes: the log fits, the log and one more turn does not, and the compacted log does with
      many more turns. */
  lemma LongLogSizes(c: Codec, id: string)
    requires LettersAreBytes(c, id)
    ensures var log, kept := LongLog(c, id), Compacted(LongLog(c, id));
      && MAX_FILE_BYTES - PADDED <= |EncodeAll(c, log)| < MAX_FILE_BYTES
      && |EncodeAll(c, kept)| + 4 * PADDED < MAX_FILE_BYTES
      && (forall l :: l in log || l in kept ==> |c.encode(l)| < 2 * PADDED && l.schemaVersion == SCHEMA_VERSION)
  {
    hide Body;
    hide Compacted;
    var turns, kept := PaddedTurns(c, id), Compacted(LongLog(c, id));
    CompactedLongLog(c, id);
    forall l | l in turns ensures |c.encode(l)| == PADDED {
      var i :| 0 <= i < 80 && turns[i] == l;
      PaddedSizes(c, id, i + 2, i + 2);
    }
    ExactBody(c, id, turns);
    EncodeCons(c, Header(id), turns);
    forall l | l in kept[1..] ensures PADDED - DIGITS <= |c.encode(l)| < PADDED + DIGITS {
      var i :| 0 <= i < 64 && kept[1..][i] == l;
      PaddedSizes(c, id, i + 18, i + 2);
    }
    SizedBody(c, kept[1..]);
    assert kept == [kept[0]] + kept[1..];
    EncodeCons(c, Header(id), kept[1..]);
  }

  /** A log of encoded records that fits is one that replays to them. */
  lemma EncodedReplays(c: Codec, lines: seq<Line>)
    requires CodecLaws(c) && |lines| <= MAX_LINES && |EncodeAll(c, lines)| <= MAX_FILE_BYTES
    requires forall l :: l in lines ==> SupportedSchema(l.schemaVersion) && |c.encode(l)| < MAX_LINE_BYTES
    ensures ReplayFile(c, EncodeAll(c, lines)) == Success(lines) && Terminated(EncodeAll(c, lines))
  {
    ReplayEncoded(c, lines, []);
    assert [] + lines == lines;
  }

  /** An append to a log that fits, or fits once compacted. */
  lemma AppendSucceeds(
    rules: Rules, base: seq<Line>, file: seq<Byte>, next: nat, id: string, e: Entry)
    requires CodecLaws(rules.codec) && LetsThrough(rules)
    requires var line := Line(SCHEMA_VERSION, next, id, e.turnId, e.record);
      && |rules.codec.encode(line)| < MAX_LINE_BYTES
      && |EncodeAll(rules.codec, base)| + |rules.codec.encode(line)| + 1 <= MAX_FILE_BYTES
      && |base| < MAX_LINES && ReplayFile(rules.codec, EncodeAll(rules.codec, base)) == Success(base)
      && Terminated(EncodeAll(rules.codec, base))
      && (NeedsCompaction(file, rules.codec.encode(line)) ==>
            ReplayFile(rules.codec, file).Success? && Compacted(ReplayFile(rules.codec, file).value) == base)
      && (!NeedsCompaction(file, rules.codec.encode(line)) ==> file == EncodeAll(rules.codec, base))
    ensures var line := Line(SCHEMA_VERSION, next, id, e.turnId, e.record);
      var o := AppendSpec(rules, file, next, id, e.turnId, e.record);
      o.result == Success(line) && o.file == EncodeAll(rules.codec, base + [line])
  {
    hide CodecLaws;
    hide Replay;
    hide Compacted;
    var c, line := rules.codec, Line(SCHEMA_VERSION, next, id, e.turnId, e.record);
    AppendReplaysIff(c, EncodeAll(c, base), base, line);
    EncodeSnoc(c, base, line);
    assert EncodeAll(c, base) + c.encode(line) + [NL] == EncodeAll(c, base) + Encoded(c, line);
  }

  lemma {:induction false} EncodeSnoc(c: Codec, lines: seq<Line>, line: Line)
    ensures EncodeAll(c, lines + [line]) == EncodeAll(c, lines) + Encoded(c, line)
  {
    if lines != [] {
      EncodeSnoc(c, lines[1..], line);
      assert (lines + [line])[1..] == lines[1..] + [line];
    }
  }

  /** A log of a header and eighty turns of 26000 bytes fits.  The next turn is number 82 and
      has the log compacted; the turn after it is number 67, so the log's numbers go back. */
  lemma NumberingCanGoBack(rules: Rules, id: string)
    requires CodecLaws(rules.codec) && LettersAreBytes(rules.codec, id) && LetsThrough(rules)
    ensures var c := rules.codec;
      var file, lines := EncodeAll(c, LongLog(c, id)), LongLog(c, id);
      var first, second := Entry(None, TurnOf(Body(c, id, 82))), Entry(None, TurnOf(Body(c, id, 67)));
      && ReplayFile(c, file) == Success(lines) && IncreasingSequences(lines)
      && var (one, two) := AppendTwice(rules, file, NextSequence(lines), id, first, second);
         && one.result == Success(Padded(c, id, 82)) && two.result == Success(Padded(c, id, 67))
         && ReplayFile(c, two.file) == Success(Compacted(lines) + [Padded(c, id, 82), Padded(c, id, 67)])
         && !IncreasingSequences(Compacted(lines) + [Padded(c, id, 82), Padded(c, id, 67)])
  {
    hide CodecLaws;
    hide AppendSpec;
    hide ReplayFile;
    hide Compacted;
    hide Body;
    hide LongLog;
    hide EncodeAll;
    hide NextSequence;
    hide LetsThrough;
    var c := rules.codec;
    var lines, kept := LongLog(c, id), Compacted(LongLog(c, id));
    var file := EncodeAll(c, lines);
    var first, second := Entry(None, TurnOf(Body(c, id, 82))), Entry(None, TurnOf(Body(c, id, 67)));
    LongLogNumbers(c, id);
    LongLogSizes(c, id);
    LongLogLength(c, id);
    CompactedLongLog(c, id);
    PaddedSizes(c, id, 82, 82);
    PaddedSizes(c, id, 67, 67);
    EncodedReplays(c, lines);
    EncodedReplays(c, kept);
    AppendSucceeds(rules, kept, file, 82, id, first);
    CompactingAppend(rules, file, lines, 82, id, first);
    var more := kept + [Padded(c, id, 82)];
    EncodeSnoc(c, kept, Padded(c, id, 82));
    EncodedReplays(c, more);
    AppendSucceeds(rules, more, EncodeAll(c, more), 67, id, second);
    NumberingAfterCompactionIff(rules, file, lines, id, first, second);
  }

  lemma LongLogLength(c: Codec, id: string)
    ensures |LongLog(c, id)| == 81
  {
  }
}
