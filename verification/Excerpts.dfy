/** Excerpts of read results: what the read tool returns, and what the builder keeps of it. */
module Excerpts {
  import opened Text
  import opened Wrappers

  type Path = Bytes
  type Hash(!new, ==)

  const MAX_EXCERPT_BYTES: nat := 4096

  datatype LineRange = LineRange(start: nat, end: nat)

  datatype Row = Row(number: nat, text: Bytes)

  /** One file of a read result. */
  datatype ReadFile = ReadFile(path: Path, contentHash: Option<Hash>, rows: seq<Row>, truncated: bool)

  datatype Excerpt = Excerpt(
    path: Path, startLine: nat, endLine: nat, text: Bytes, contentHash: Option<Hash>, truncated: bool)

  // ----- The read tool -----

  function Numbered(lines: seq<Bytes>, first: nat): (rows: seq<Row>)
    ensures |rows| == |lines| && forall i :: 0 <= i < |rows| ==> rows[i] == Row(first + i, lines[i])
  {
    seq(|lines|, i requires 0 <= i < |lines| => Row(first + i, lines[i]))
  }

  /** The lines of a content from start to end, as far as there are any. */
  function Between(lines: seq<Bytes>, range: LineRange): seq<Bytes>
    requires range.start >= 1
  {
    var low := if range.start - 1 < |lines| then range.start - 1 else |lines|;
    var high := if range.end < |lines| then range.end else |lines|;
    if low <= high then lines[low..high] else []
  }

  /** The read tool keeps one byte more than the limit before it cuts, so a file of one byte
      more is returned whole. */
  predicate IsCut(content: Bytes, limit: nat) {
    |content| > limit + 1
  }

  function Shown(content: Bytes, limit: nat): Bytes {
    if IsCut(content, limit) then content[..limit] else content
  }

  predicate Binary(bytes: Bytes) {
    0 in bytes || !Utf8(bytes)
  }

  /** The lines that a read of some range shows. */
  function RowsOf(content: Bytes, limit: nat, range: LineRange): seq<Bytes>
    requires range.start >= 1
  {
    Between(Lines(Shown(content, limit)), range)
  }

  /** What the read tool returns for a file: rows of the bytes it shows, none if they are binary,
      with the hash of the whole content. */
  function ReadRows(hash: Bytes -> Hash, path: Path, content: Bytes, limit: nat, range: LineRange): ReadFile
    requires range.start >= 1
  {
    var rows := if Binary(Shown(content, limit)) then [] else RowsOf(content, limit, range);
    ReadFile(path, Some(hash(content)), Numbered(rows, range.start), IsCut(content, limit))
  }

  /** A bound for the printed size of a read result with this one file: at most six bytes for a
      byte of text, twenty digits for a number, sixty-four for the hash.  A result that is printed
      in more bytes than the limit of its read loses its data. */
  function OutputBound(f: ReadFile): nat {
    300 + 6 * |f.path| + RowsBound(f.rows)
  }

  function RowsBound(rows: seq<Row>): nat {
    if rows == [] then 0 else RowsBound(rows[..|rows| - 1]) + 60 + 6 * |rows[|rows| - 1].text|
  }

  // ----- Building an excerpt -----

  function MinNumber(rows: seq<Row>): (least: nat)
    requires rows != []
    ensures (exists i :: 0 <= i < |rows| && rows[i].number == least)
      && forall i :: 0 <= i < |rows| ==> least <= rows[i].number
  {
    if |rows| == 1 then rows[0].number
    else
      var m := MinNumber(rows[..|rows| - 1]);
      assert forall i :: 0 <= i < |rows| - 1 ==> rows[..|rows| - 1][i] == rows[i];
      if rows[|rows| - 1].number < m then rows[|rows| - 1].number else m
  }

  function MaxNumber(rows: seq<Row>): (greatest: nat)
    requires rows != []
    ensures (exists i :: 0 <= i < |rows| && rows[i].number == greatest)
      && forall i :: 0 <= i < |rows| ==> rows[i].number <= greatest
  {
    if |rows| == 1 then rows[0].number
    else
      var m := MaxNumber(rows[..|rows| - 1]);
      assert forall i :: 0 <= i < |rows| - 1 ==> rows[..|rows| - 1][i] == rows[i];
      if rows[|rows| - 1].number > m then rows[|rows| - 1].number else m
  }

  /** One row of the builder: a separator unless the text is still empty, then the row. */
  function Appended(text: Bytes, row: Bytes): Bytes {
    (if text == [] then [] else text + [NEWLINE]) + row
  }

  /** The builder stops once it has enough bytes. */
  function Built(text: Bytes, rows: seq<Bytes>): Bytes
    decreases |rows|
  {
    if rows == [] then text
    else
      var longer := Appended(text, rows[0]);
      if |longer| >= MAX_EXCERPT_BYTES then longer else Built(longer, rows[1..])
  }

  function ExcerptText(rows: seq<Bytes>): Bytes {
    Bounded(Built([], rows), MAX_EXCERPT_BYTES)
  }

  method ExcerptFromLines(rows: seq<Bytes>) returns (text: Bytes)
    ensures text == Built([], rows)
  {
    text := [];
    for i := 0 to |rows|
      invariant Built([], rows) == Built(text, rows[i..])
    {
      if text != [] {
        text := text + [NEWLINE];
      }
      text := text + rows[i];
      if |text| >= MAX_EXCERPT_BYTES {
        break;
      }
      assert rows[i..][1..] == rows[i + 1..];
    }
  }

  // ----- Excerpts that the runtime takes itself -----

  const AUTOMATIC_LINES: nat := 96
  const LINES_BEFORE: nat := 4
  const LINES_AFTER: nat := 8
  const MAX_AUTOMATIC_BYTES: nat := 4 * 1024 * 1024

  /** Around a diagnostic's line, or from the start. */
  function AutoRange(line: Option<nat>): (range: LineRange)
    ensures 1 <= range.start <= range.end < range.start + AUTOMATIC_LINES
  {
    if line.None? then LineRange(1, AUTOMATIC_LINES)
    else
      var at := if line.value < 1 then 1 else line.value;
      var before := if at > LINES_BEFORE then at - LINES_BEFORE else 1;
      var start := if before > LINES_BEFORE then before - LINES_BEFORE else 1;
      LineRange(start, at + 2 * LINES_AFTER)
  }

  /** The rows one after the other, without a stop. */
  function AppendAll(text: Bytes, rows: seq<Bytes>): Bytes
    decreases |rows|
  {
    if rows == [] then text else AppendAll(Appended(text, rows[0]), rows[1..])
  }

  /** The excerpt that the runtime takes of a file it reads itself. */
  function AutoExcerpt(hash: Bytes -> Hash, path: Path, content: Bytes, line: Option<nat>): Option<Excerpt> {
    var lines, range := Lines(content), AutoRange(line);
    if |content| > MAX_AUTOMATIC_BYTES || Binary(content) || Between(lines, range) == [] then None
    else
      var rows := Between(lines, range);
      var text, end := AppendAll([], rows), range.start + |rows| - 1;
      Some(Excerpt(
             path, range.start, end, Bounded(text, MAX_EXCERPT_BYTES), Some(hash(content)),
             |text| > MAX_EXCERPT_BYTES || end < |lines|))
  }

  method AppendRows(rows: seq<Bytes>) returns (text: Bytes)
    ensures text == AppendAll([], rows)
  {
    text := [];
    for i := 0 to |rows|
      invariant AppendAll([], rows) == AppendAll(text, rows[i..])
    {
      if text != [] {
        text := text + [NEWLINE];
      }
      text := text + rows[i];
      assert rows[i..][1..] == rows[i + 1..];
    }
  }

  /** Reads the excerpt of a file around a line, or from its start. */
  method ReadAutoExcerpt(hash: Bytes -> Hash, path: Path, content: Bytes, line: Option<nat>)
    returns (e: Option<Excerpt>)
    ensures e == AutoExcerpt(hash, path, content, line)
  {
    hide AppendAll;
    if |content| > MAX_AUTOMATIC_BYTES || Binary(content) {
      return None;
    }
    var lines, range := Lines(content), AutoRange(line);
    var rows := Between(lines, range);
    if rows == [] {
      return None;
    }
    var text := AppendRows(rows);
    var end := range.start + |rows| - 1;
    e := Some(Excerpt(
                path, range.start, end, Bounded(text, MAX_EXCERPT_BYTES), Some(hash(content)),
                |text| > MAX_EXCERPT_BYTES || end < |lines|));
  }

  /** Stopping early makes no difference to what is kept. */
  lemma {:induction false} AppendedIsBuilt(text: Bytes, rows: seq<Bytes>)
    requires |text| < MAX_EXCERPT_BYTES
    ensures Bounded(AppendAll(text, rows), MAX_EXCERPT_BYTES) == Bounded(Built(text, rows), MAX_EXCERPT_BYTES)
    decreases |rows|
  {
    if rows != [] {
      var longer := Appended(text, rows[0]);
      if |longer| < MAX_EXCERPT_BYTES {
        AppendedIsBuilt(longer, rows[1..]);
      } else {
        AppendAllExtends(longer, rows[1..]);
        BoundedPrefix(longer, AppendAll(longer, rows[1..]), MAX_EXCERPT_BYTES);
      }
    }
  }

  lemma {:induction false} AppendAllExtends(text: Bytes, rows: seq<Bytes>)
    requires text != []
    ensures text <= AppendAll(text, rows)
    ensures |AppendAll(text, rows)| > |text| ==> AppendAll(text, rows)[|text|] == NEWLINE
    decreases |rows|
  {
    if rows != [] {
      var longer := Appended(text, rows[0]);
      AppendAllExtends(longer, rows[1..]);
      assert text + [NEWLINE] <= longer;
    }
  }

  lemma BoundedPrefix(text: Bytes, all: Bytes, max: nat)
    requires text <= all && |text| >= max && (|all| > |text| ==> all[|text|] == NEWLINE)
    ensures Bounded(all, max) == Bounded(text, max)
  {
    SameBoundary(text, all, max);
    var k := BoundaryBelow(text, max);
    assert all[..k] == text[..k];
  }

  lemma {:induction false} SameBoundary(text: Bytes, all: Bytes, end: nat)
    requires text <= all && end <= |text| && (|all| > |text| ==> all[|text|] == NEWLINE)
    ensures BoundaryBelow(all, end) == BoundaryBelow(text, end)
  {
    assert end < |text| ==> text[end] == all[end];
    if end > 0 && !CharBoundary(text, end) {
      SameBoundary(text, all, end - 1);
    }
  }

  // ----- When an excerpt quotes its rows -----

  /** The row ends inside the kept text: before it, without a carriage return, or exactly with it
      and not empty. */
  predicate RowFits(rows: seq<Bytes>, j: nat)
    requires j < |rows|
  {
    var kept, end := |ExcerptText(rows)|, |Join(rows[..j + 1])|;
    (end < kept && StripReturn(rows[j]) == rows[j]) || (end == kept && rows[j] != [])
  }

  predicate ComesBack(rows: seq<Bytes>, j: nat)
    requires j < |rows|
  {
    j < |Lines(ExcerptText(rows))| && Lines(ExcerptText(rows))[j] == rows[j]
  }

  lemma JoinEnds(rows: seq<Bytes>, i: nat, part: Bytes, j: nat)
    requires i < |rows| && part <= rows[i] && j < |rows|
    ensures var kept, end := |Join(rows[..i] + [part])|, |Join(rows[..j + 1])|;
      && (j < i ==> end < kept) && (j > i ==> kept < end)
      && (j == i ==> kept <= end && (kept == end <==> part == rows[i]))
  {
    var all := rows[..i] + [part];
    if j < i {
      JoinConcat(rows[..j + 1], all[j + 1..]);
      assert all == rows[..j + 1] + all[j + 1..];
    } else {
      LastRow(rows, i, part);
      if j > i {
        JoinConcat(rows[..i + 1], rows[i + 1..j + 1]);
        assert rows[..j + 1] == rows[..i + 1] + rows[i + 1..j + 1];
      }
    }
  }

  lemma LastRow(rows: seq<Bytes>, i: nat, part: Bytes)
    requires i < |rows| && part <= rows[i]
    ensures |Join(rows[..i + 1])| - |Join(rows[..i] + [part])| == |rows[i]| - |part|
  {
    assert rows[..i + 1] == rows[..i] + [rows[i]];
    if i > 0 {
      JoinConcat(rows[..i], [part]);
      JoinConcat(rows[..i], [rows[i]]);
    }
  }

  /** What an excerpt gives back under the number of row k: the row without its carriage return,
      as much of it as the text has room for, or nothing. */
  function GivenRow(rows: seq<Bytes>, k: nat): Option<Bytes> {
    if k >= |rows| then None
    else
      var kept, end := |ExcerptText(rows)|, |Join(rows[..k + 1])|;
      if end < kept then Some(StripReturn(rows[k]))
      else if end - |rows[k]| < kept then Some(rows[k][..kept - (end - |rows[k]|)])
      else None
  }

  lemma GivenRowIs(rows: seq<Bytes>, k: nat)
    requires OneLiners(rows) && rows != [] && rows[0] != []
    ensures var lines := Lines(ExcerptText(rows));
      GivenRow(rows, k) == if k < |lines| then Some(lines[k]) else None
  {
    hide Join;
    hide Built;
    hide StripReturn;
    hide Lines;
    hide ReadBack;
    var text := ExcerptText(rows);
    BuiltFromFirst(rows);
    var i, part := PrefixOfJoin(rows, text);
    var kept := rows[..i] + [part];
    JoinedLines(kept);
    ReadBackSize(kept);
    if k < |rows| {
      JoinEnds(rows, i, part, k);
      LastRow(rows, i, part);
      if k > i {
        RowStart(rows, k);
        JoinEnds(rows, i, part, k - 1);
      }
    }
    if k == i {
      assert rows[i][..|part|] == part;
    }
    if k < |ReadBack(kept)| {
      ReadBackRow(kept, k);
      assert k < i ==> kept[k] == rows[k];
    }
  }

  lemma RowStart(rows: seq<Bytes>, k: nat)
    requires 0 < k < |rows|
    ensures |Join(rows[..k + 1])| - |rows[k]| == |Join(rows[..k])| + 1
  {
    JoinConcat(rows[..k], [rows[k]]);
    assert rows[..k + 1] == rows[..k] + [rows[k]];
  }

  /** The same for any rows: leading empty rows leave no trace, so the numbers shift. */
  lemma GivenAfterBlanks(rows: seq<Bytes>, k: nat)
    requires OneLiners(rows) && rows != []
    ensures var lines := Lines(ExcerptText(rows));
      GivenRow(DropEmpty(rows), k) == if k < |lines| then Some(lines[k]) else None
  {
    hide Lines;
    hide Built;
    hide GivenRow;
    BuiltDropsEmpty(rows);
    if DropEmpty(rows) != [] {
      GivenRowIs(DropEmpty(rows), k);
    } else {
      NothingGiven(k);
    }
  }

  lemma NothingGiven(k: nat)
    ensures ExcerptText([]) == [] && Lines([]) == [] && GivenRow([], k) == None
  {
  }

  /** A row comes back under its own number exactly when it fits. */
  lemma ComesBackIff(rows: seq<Bytes>, j: nat)
    requires OneLiners(rows) && j < |rows| && rows[0] != []
    ensures ComesBack(rows, j) <==> RowFits(rows, j)
  {
    hide Join;
    hide Built;
    hide StripReturn;
    hide Lines;
    hide ReadBack;
    var text := ExcerptText(rows);
    BuiltFromFirst(rows);
    var i, part := PrefixOfJoin(rows, text);
    var kept := rows[..i] + [part];
    JoinedLines(kept);
    JoinEnds(rows, i, part, j);
    ReadBackSize(kept);
    if j < |ReadBack(kept)| {
      ReadBackRow(kept, j);
    }
  }

  lemma ReadBackSize(rows: seq<Bytes>)
    requires rows != []
    ensures |ReadBack(rows)| == if rows[|rows| - 1] == [] then |rows| - 1 else |rows|
  {
  }

  /** The first and the last row are not empty, the joined rows fit the excerpt, and no row
      but the last ends with a carriage return. */
  predicate Quotable(rows: seq<Bytes>) {
    && rows != [] && rows[0] != [] && rows[|rows| - 1] != []
    && |Join(rows)| <= MAX_EXCERPT_BYTES && NoReturns(rows)
  }

  function DropEmpty(rows: seq<Bytes>): (r: seq<Bytes>)
    ensures |r| <= |rows| && (r == rows <==> rows == [] || rows[0] != [])
    ensures r != [] ==> r[0] != []
    ensures OneLiners(rows) ==> OneLiners(r)
  {
    if rows != [] && rows[0] == [] then DropEmpty(rows[1..]) else rows
  }

  lemma {:induction false} BuiltDropsEmpty(rows: seq<Bytes>)
    ensures Built([], rows) == Built([], DropEmpty(rows))
  {
    if rows != [] && rows[0] == [] {
      assert Appended([], rows[0]) == [];
      BuiltDropsEmpty(rows[1..]);
    }
  }

  lemma JoinAppends(text: Bytes, rows: seq<Bytes>)
    requires text != [] && rows != []
    ensures Join([Appended(text, rows[0])] + rows[1..]) == text + [NEWLINE] + Join(rows)
  {
    var longer := Appended(text, rows[0]);
    var all := [longer] + rows[1..];
    assert all[1..] == rows[1..];
    if |rows| > 1 {
      assert longer + [NEWLINE] + Join(rows[1..]) == text + [NEWLINE] + (rows[0] + [NEWLINE] + Join(rows[1..]));
    }
  }

  /** The builder's text is a prefix of the joined rows, the whole of it if that fits. */
  lemma {:induction false} BuiltIsJoin(text: Bytes, rows: seq<Bytes>)
    requires text != []
    ensures var all := Join([text] + rows);
      && Built(text, rows) <= all
      && (|all| <= MAX_EXCERPT_BYTES ==> Built(text, rows) == all)
      && (Built(text, rows) != all ==> |Built(text, rows)| >= MAX_EXCERPT_BYTES)
    decreases |rows|
  {
    var all := [text] + rows;
    assert all[1..] == rows;
    if rows != [] {
      var longer := Appended(text, rows[0]);
      assert longer == text + [NEWLINE] + rows[0];
      JoinAppends(text, rows);
      BuiltIsJoin(longer, rows[1..]);
      if |rows| > 1 {
        assert Join(all) == longer + ([NEWLINE] + Join(rows[1..]));
      }
    }
  }

  /** Joining the lines of a text again does not make it longer. */
  lemma {:induction false} LinesFit(s: Bytes)
    ensures |Join(Lines(s))| <= |s|
    decreases |s|
  {
    var k := LineEnd(s);
    if s != [] && k < |s| {
      LinesFit(s[k + 1..]);
      assert ([StripReturn(s[..k])] + Lines(s[k + 1..]))[1..] == Lines(s[k + 1..]);
    }
  }

  lemma {:induction false} LinesOfPrefix(s: Bytes, p: Bytes)
    requires p <= s
    ensures |Lines(p)| <= |Lines(s)|
    decreases |s|
  {
    if p != [] {
      var k := LineEnd(s);
      if |p| <= k {
        assert p == s[..|p|];
        assert forall j :: 0 <= j < |p| ==> p[j] == s[..k][j];
        assert NEWLINE !in p;
        LinesLast(p);
      } else {
        assert p[..k] == s[..k] && p[k] == NEWLINE;
        assert p == s[..k] + [NEWLINE] + p[k + 1..] && s == s[..k] + [NEWLINE] + s[k + 1..];
        LinesFirst(s[..k], p[k + 1..]);
        LinesFirst(s[..k], s[k + 1..]);
        LinesOfPrefix(s[k + 1..], p[k + 1..]);
      }
    }
  }

  /** An excerpt quotes its rows exactly when they are quotable. */
  lemma ExcerptQuotesIff(rows: seq<Bytes>)
    requires OneLiners(rows) && rows != []
    ensures Lines(ExcerptText(rows)) == rows <==> Quotable(rows)
  {
    var kept := DropEmpty(rows);
    BuiltDropsEmpty(rows);
    if kept != [] {
      BuiltFromFirst(kept);
      if |Join(kept)| <= MAX_EXCERPT_BYTES {
        JoinedLines(kept);
        FittingExcerptQuotesIff(rows);
      } else {
        JoinedLines(kept);
        LinesOfPrefix(Join(kept), ExcerptText(rows));
        LinesFit(ExcerptText(rows));
      }
    } else {
      assert ExcerptText(rows) == [];
    }
  }

  lemma BuiltFromFirst(rows: seq<Bytes>)
    requires rows != [] && rows[0] != []
    ensures Built([], rows) <= Join(rows)
    ensures |Join(rows)| <= MAX_EXCERPT_BYTES ==> Built([], rows) == Join(rows)
    ensures |Join(rows)| > MAX_EXCERPT_BYTES ==> |Built([], rows)| >= MAX_EXCERPT_BYTES
  {
    assert Appended([], rows[0]) == rows[0];
    assert [rows[0]] + rows[1..] == rows;
    BuiltIsJoin(rows[0], rows[1..]);
    if |rows[0]| >= MAX_EXCERPT_BYTES && |rows| > 1 {
      assert rows[0] <= Join(rows);
    }
  }

  lemma FittingExcerptQuotesIff(rows: seq<Bytes>)
    requires OneLiners(rows) && rows != []
    requires var kept := DropEmpty(rows);
      && kept != [] && |Join(kept)| <= MAX_EXCERPT_BYTES && ExcerptText(rows) == Join(kept)
    ensures Lines(ExcerptText(rows)) == rows <==> Quotable(rows)
  {
    hide Lines;
    hide Built;
    hide Join;
    JoinedLines(DropEmpty(rows));
    ReadBackIff(rows);
  }
}
