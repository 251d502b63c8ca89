/** Answers given before a call runs. */
module ReadPolicy {
  // Reads answered from the evidence, and the refusal of repeated failures.

  import opened Evidence
  import opened EvidenceRuns
  import opened Excerpts
  import opened Text
  import opened Wrappers
  import Guardrails

  const MAX_READ_TARGETS: nat := 64
  const MAX_LINE: nat := 0xFFFF_FFFF_FFFF_FFFF

  datatype Target = Target(path: Path, start: Option<nat>, end: Option<nat>)

  datatype Request = Request(maxBytes: Option<nat>, targets: seq<Target>)

  // ----- Answering one target -----

  /** The requested lines: the whole file, a range, or something the cache does not handle. */
  datatype Wanted = Whole | Lines(range: LineRange) | Unsupported

  function WantedOf(t: Target): Wanted {
    if t.start.None? && t.end.None? then Whole
    else if t.start.None? || t.end.None? then Unsupported
    else if t.start.value == 0 || t.start.value > t.end.value then Unsupported
    else Lines(LineRange(t.start.value, t.end.value))
  }

  predicate Usable(f: InspectedFile, p: Path) {
    f.path == p && f.lastState == Present && !f.stale && f.contentHash.Some?
  }

  function FindUsable(fs: seq<InspectedFile>, p: Path): (i: nat)
    ensures i <= |fs| && (i < |fs| ==> Usable(fs[i], p))
  {
    if fs == [] || Usable(fs[0], p) then 0 else FindUsable(fs[1..], p) + 1
  }

  predicate Covers(e: Excerpt, p: Path, hash: Hash, wanted: Wanted) {
    && e.path == p && e.contentHash == Some(hash)
    && match wanted
       case Whole => e.startLine == 1 && !e.truncated
       case Lines(range) => range.start >= e.startLine && range.end <= e.endLine
       case Unsupported => false
  }

  /** The newest excerpt that covers what is wanted. */
  function FindExcerpt(es: seq<Excerpt>, p: Path, hash: Hash, wanted: Wanted): (e: Option<Excerpt>)
    ensures e.Some? ==> e.value in es && Covers(e.value, p, hash, wanted)
  {
    if es == [] then None
    else if Covers(es[|es| - 1], p, hash, wanted) then Some(es[|es| - 1])
    else FindExcerpt(es[..|es| - 1], p, hash, wanted)
  }

  function Select(rows: seq<Row>, low: nat, high: nat): seq<Row> {
    if rows == [] then []
    else
      var front, row := Select(rows[..|rows| - 1], low, high), rows[|rows| - 1];
      if low <= row.number <= high then front + [row] else front
  }

  /** The rows an excerpt gives back, numbered from its first line. */
  function Quote(e: Excerpt, wanted: Wanted): seq<Row> {
    Select(
      Numbered(Text.Lines(e.text), e.startLine),
      if wanted.Lines? then wanted.range.start else e.startLine, if wanted.Lines? then wanted.range.end else e.endLine)
  }

  /** The excerpt a target is answered from, if every check passes. */
  function Source(r: Rules, s: Context, w: Workspace, t: Target): Option<Excerpt> {
    var i := FindUsable(s.inspected, t.path);
    if !r.Relative(t.path) || WantedOf(t).Unsupported? || i == |s.inspected| then None
    else
      var hash := s.inspected[i].contentHash.value;
      if LiveHash(r, w, t.path) != Some(hash) then None else FindExcerpt(s.excerpts, t.path, hash, WantedOf(t))
  }

  function AnswerOne(r: Rules, s: Context, w: Workspace, t: Target): Option<ReadFile> {
    var e := Source(r, s, w, t);
    if e.None? || Quote(e.value, WantedOf(t)) == [] then None
    else Some(ReadFile(t.path, e.value.contentHash, Quote(e.value, WantedOf(t)), false))
  }

  function AnswerAll(r: Rules, s: Context, w: Workspace, ts: seq<Target>): Option<seq<ReadFile>> {
    if ts == [] then Some([])
    else
      var front, last := AnswerAll(r, s, w, ts[..|ts| - 1]), AnswerOne(r, s, w, ts[|ts| - 1]);
      if front.None? || last.None? then None else Some(front.value + [last.value])
  }

  /** The files of a read that is answered without running it. */
  function CachedRead(r: Rules, s: Context, w: Workspace, q: Request): Option<seq<ReadFile>> {
    if s.workspaceChanged || q.maxBytes.Some? || q.targets == [] || |q.targets| > MAX_READ_TARGETS then None
    else AnswerAll(r, s, w, q.targets)
  }

  lemma {:induction false} NoAnswerSticks(r: Rules, s: Context, w: Workspace, ts: seq<Target>, i: nat)
    requires i < |ts| && AnswerOne(r, s, w, ts[i]).None?
    ensures AnswerAll(r, s, w, ts).None?
  {
    if i < |ts| - 1 {
      NoAnswerSticks(r, s, w, ts[..|ts| - 1], i);
    }
  }

  method SelectRows(lines: seq<Bytes>, first: nat, low: nat, high: nat) returns (rows: seq<Row>)
    ensures rows == Select(Numbered(lines, first), low, high)
  {
    rows := [];
    var all := Numbered(lines, first);
    for index := 0 to |lines|
      invariant rows == Select(all[..index], low, high)
    {
      assert all[..index + 1][..index] == all[..index];
      var number := first + index;
      if low <= number <= high {
        rows := rows + [Row(number, lines[index])];
      }
    }
    assert all[..|all|] == all;
  }

  /** The loop over the targets; any target without an answer gives up. */
  method CachedReadResult(r: Rules, s: Context, w: Workspace, q: Request) returns (files: Option<seq<ReadFile>>)
    ensures files == CachedRead(r, s, w, q)
  {
    if s.workspaceChanged || q.maxBytes.Some? || q.targets == [] || |q.targets| > MAX_READ_TARGETS {
      return None;
    }
    var answers: seq<ReadFile> := [];
    for i := 0 to |q.targets|
      invariant AnswerAll(r, s, w, q.targets[..i]) == Some(answers)
    {
      assert q.targets[..i + 1][..i] == q.targets[..i];
      var t := q.targets[i];
      var e := Source(r, s, w, t);
      if e.None? {
        NoAnswerSticks(r, s, w, q.targets, i);
        return None;
      }
      var wanted := WantedOf(t);
      var low := if wanted.Lines? then wanted.range.start else e.value.startLine;
      var high := if wanted.Lines? then wanted.range.end else e.value.endLine;
      var rows := SelectRows(Text.Lines(e.value.text), e.value.startLine, low, high);
      if rows == [] {
        NoAnswerSticks(r, s, w, q.targets, i);
        return None;
      }
      answers := answers + [ReadFile(t.path, e.value.contentHash, rows, false)];
    }
    assert q.targets[..|q.targets|] == q.targets;
    return Some(answers);
  }

  // ----- Cached answers against the live file -----

  /** What the read tool would return now, given room for the whole file. */
  function ToolRows(r: Rules, w: Workspace, t: Target): seq<Row>
    requires LiveHash(r, w, t.path).Some? && !WantedOf(t).Unsupported?
  {
    var content := w.files[r.portable(t.path).value];
    var range := if WantedOf(t).Lines? then WantedOf(t).range else LineRange(1, MAX_LINE);
    ReadRows(r.hash, t.path, content, |content|, range).rows
  }

  lemma SelectStep(lines: seq<Bytes>, first: nat, low: nat, high: nat)
    requires lines != []
    ensures var n := |lines| - 1;
      Select(Numbered(lines, first), low, high) ==
        Select(Numbered(lines[..n], first), low, high)
        + if low <= first + n <= high then [Row(first + n, lines[n])] else []
  {
    assert Numbered(lines, first)[..|lines| - 1] == Numbered(lines[..|lines| - 1], first);
  }

  /** The lines numbered from low to high. */
  function Clipped(lines: seq<Bytes>, first: nat, low: nat, high: nat): seq<Bytes>
    requires first <= low
  {
    var to := if high + 1 < first + |lines| then high + 1 else first + |lines|;
    if low < to then lines[low - first..to - first] else []
  }

  lemma ClippedStep(lines: seq<Bytes>, first: nat, low: nat, high: nat)
    requires first <= low && lines != []
    ensures var n := |lines| - 1;
      Numbered(Clipped(lines, first, low, high), low) ==
        Numbered(Clipped(lines[..n], first, low, high), low)
        + if low <= first + n <= high then [Row(first + n, lines[n])] else []
  {
    var n := |lines| - 1;
    var to := if high + 1 < first + |lines| then high + 1 else first + |lines|;
    if low <= first + n <= high {
      LongerSlice(lines, low - first);
    } else if low < to {
      SliceOfFront(lines, low - first, to - first);
    }
  }

  lemma LongerSlice(lines: seq<Bytes>, a: nat)
    requires a < |lines|
    ensures var n := |lines| - 1;
      lines[a..n + 1] == lines[..n][a..n] + [lines[n]]
  {
  }

  lemma SliceOfFront(lines: seq<Bytes>, a: nat, b: nat)
    requires a <= b < |lines|
    ensures lines[a..b] == lines[..|lines| - 1][a..b]
  {
  }

  lemma {:induction false} SelectNumbered(lines: seq<Bytes>, first: nat, low: nat, high: nat)
    requires first <= low
    ensures Select(Numbered(lines, first), low, high) == Numbered(Clipped(lines, first, low, high), low)
  {
    hide Clipped;
    if lines == [] {
      NothingSelected(lines, first, low, high);
    } else {
      SelectStep(lines, first, low, high);
      ClippedStep(lines, first, low, high);
      SelectNumbered(lines[..|lines| - 1], first, low, high);
    }
  }

  lemma NothingSelected(lines: seq<Bytes>, first: nat, low: nat, high: nat)
    requires first <= low && lines == []
    ensures Select(Numbered(lines, first), low, high) == [] && Clipped(lines, first, low, high) == []
  {
  }

  /** The two contents behind one hash are the same. */
  predicate NoCollision(r: Rules, a: Bytes, b: Bytes) {
    r.hash(a) == r.hash(b) ==> a == b
  }

  function Low(e: Excerpt, wanted: Wanted): nat {
    if wanted.Lines? then wanted.range.start else e.startLine
  }

  function High(e: Excerpt, wanted: Wanted): nat {
    if wanted.Lines? then wanted.range.end else e.endLine
  }

  /** Line j of an excerpt whose rows start at line `first`, against line j of the file. */
  predicate GivesLine(text: Bytes, first: nat, lines: seq<Bytes>, j: nat)
    requires first <= j && 1 <= j <= |lines|
  {
    var quoted := Text.Lines(text);
    j - first < |quoted| && quoted[j - first] == lines[j - 1]
  }

  /** The rows of an answer are those of the file exactly when every requested line is given. */
  lemma AnswerIsLinesIff(text: Bytes, first: nat, lines: seq<Bytes>, low: nat, high: nat)
    requires 1 <= first <= low <= high <= |lines|
    ensures Select(Numbered(Text.Lines(text), first), low, high) == Numbered(lines[low - 1..high], low)
      <==> forall j :: low <= j <= high ==> GivesLine(text, first, lines, j)
  {
    hide Text.Lines;
    var quoted := Text.Lines(text);
    SelectNumbered(quoted, first, low, high);
    var answer, live := Clipped(quoted, first, low, high), lines[low - 1..high];
    SameNumbered(answer, live, low);
    if forall j :: low <= j <= high ==> GivesLine(text, first, lines, j) {
      assert GivesLine(text, first, lines, high);
      forall k | 0 <= k < |live| ensures answer[k] == live[k] {
        assert GivesLine(text, first, lines, low + k);
      }
      assert answer == live;
    }
    if answer == live {
      forall j | low <= j <= high ensures GivesLine(text, first, lines, j) {
        assert answer[j - low] == live[j - low];
      }
    }
  }

  lemma SameNumbered(a: seq<Bytes>, b: seq<Bytes>, first: nat)
    ensures Numbered(a, first) == Numbered(b, first) <==> a == b
  {
    if Numbered(a, first) == Numbered(b, first) {
      forall k | 0 <= k < |a| ensures a[k] == b[k] {
        assert Numbered(a, first)[k] == Numbered(b, first)[k];
      }
    }
  }

  /** Line j fits the excerpt, and the read did not cut it. */
  predicate LineIsKept(content: Bytes, limit: nat, range: LineRange, j: nat)
    requires range.start >= 1 && range.start <= j < range.start + |RowsOf(content, limit, range)|
  {
    && RowFits(RowsOf(content, limit, range), j - range.start)
    && (IsCut(content, limit) && j == |Text.Lines(Shown(content, limit))| ==> limit > 0 && CutAtLineEnd(content, limit))
  }

  /** Rows that were read are consecutive lines of what was shown; all but a cut one are lines of
      the content. */
  lemma RowIsLine(content: Bytes, limit: nat, range: LineRange, j: nat)
    requires range.start >= 1 && range.start <= j < range.start + |RowsOf(content, limit, range)|
    ensures var row, shown, lines :=
      RowsOf(content, limit, range)[j - range.start], Text.Lines(Shown(content, limit)), Text.Lines(content);
      && j <= |shown| && row == shown[j - 1] && j <= |lines|
      && (row == lines[j - 1] <==>
            (IsCut(content, limit) && j == |shown| ==> limit > 0 && CutAtLineEnd(content, limit)))
  {
    hide Text.Lines;
    hide CutAtLineEnd;
    if IsCut(content, limit) {
      if limit == 0 {
        assert Shown(content, limit) == [];
        NoLines();
      }
      CutLines(content, limit, j - 1);
    }
  }

  /** A line is given exactly when it is kept, unless read and excerpt are both cut in it. */
  lemma GivesLineIff(content: Bytes, limit: nat, range: LineRange, j: nat)
    requires range.start >= 1 && range.start <= j < range.start + |RowsOf(content, limit, range)|
    requires var rows := RowsOf(content, limit, range);
      && rows[0] != []
      && (IsCut(content, limit) && j == |Text.Lines(Shown(content, limit))| ==> |Join(rows)| <= MAX_EXCERPT_BYTES)
    ensures j <= |Text.Lines(content)|
    ensures GivesLine(ExcerptText(RowsOf(content, limit, range)), range.start, Text.Lines(content), j)
      <==> LineIsKept(content, limit, range, j)
  {
    hide Text.Lines;
    hide Join;
    hide RowFits;
    hide CutAtLineEnd;
    hide Between;
    hide ExcerptText;
    var rows := RowsOf(content, limit, range);
    RowsAreOneLiners(content, limit, range);
    RowIsLine(content, limit, range, j);
    ComesBackIff(rows, j - range.start);
    if IsCut(content, limit) && j == |Text.Lines(Shown(content, limit))| {
      LastOfRange(Text.Lines(Shown(content, limit)), range);
      LastRowIsWhole(rows, j, content, limit, range);
    }
  }

  lemma LastOfRange(lines: seq<Bytes>, range: LineRange)
    requires range.start >= 1 && Between(lines, range) != []
    ensures range.start + |Between(lines, range)| - 1 <= |lines|
  {
  }

  /** The last row of an excerpt that is not cut itself comes back whole, or was empty. */
  lemma LastRowIsWhole(rows: seq<Bytes>, j: nat, content: Bytes, limit: nat, range: LineRange)
    requires range.start >= 1 && rows == RowsOf(content, limit, range) && rows != [] && rows[0] != []
    requires j == |Text.Lines(Shown(content, limit))| == range.start + |rows| - 1 && |Join(rows)| <= MAX_EXCERPT_BYTES
    ensures j - range.start < |Text.Lines(ExcerptText(rows))| ==>
      Text.Lines(ExcerptText(rows))[j - range.start] == rows[|rows| - 1]
  {
    hide Text.Lines;
    hide Join;
    hide Between;
    hide Built;
    RowsAreOneLiners(content, limit, range);
    BuiltFromFirst(rows);
    JoinedLines(rows);
    if |rows| - 1 < |ReadBack(rows)| {
      ReadBackRow(rows, |rows| - 1);
    }
  }

  lemma RowsAreOneLiners(content: Bytes, limit: nat, range: LineRange)
    requires range.start >= 1
    ensures OneLiners(RowsOf(content, limit, range))
  {
    LinesAreOneLiners(Shown(content, limit));
  }

  /** What the read tool would return now is nothing for a binary file, and else the lines. */
  lemma ToolRowsAre(r: Rules, w: Workspace, t: Target)
    requires LiveHash(r, w, t.path).Some? && !WantedOf(t).Unsupported?
    ensures var content := w.files[r.portable(t.path).value];
      var range := if WantedOf(t).Lines? then WantedOf(t).range else LineRange(1, MAX_LINE);
      ToolRows(r, w, t) == if Binary(content) then [] else Numbered(Between(Text.Lines(content), range), range.start)
  {
  }

  /** What the excerpt of these rows gives under number j is line j of the content. */
  predicate GivesRightLine(content: Bytes, limit: nat, range: LineRange, j: nat)
    requires range.start >= 1 && range.start <= j <= |Text.Lines(content)|
  {
    GivenRow(DropEmpty(RowsOf(content, limit, range)), j - range.start) == Some(Text.Lines(content)[j - 1])
  }

  lemma GivesRightLineIff(content: Bytes, limit: nat, range: LineRange, j: nat)
    requires range.start >= 1 && range.start <= j < range.start + |RowsOf(content, limit, range)|
    ensures j <= |Text.Lines(content)|
    ensures GivesLine(ExcerptText(RowsOf(content, limit, range)), range.start, Text.Lines(content), j)
      <==> GivesRightLine(content, limit, range, j)
  {
    hide Text.Lines;
    hide ExcerptText;
    hide Between;
    RowsAreOneLiners(content, limit, range);
    RowIsLine(content, limit, range, j);
    GivenAfterBlanks(RowsOf(content, limit, range), j - range.start);
  }

  /** A cached answer is what the tool would return now exactly when the file is no binary, a
      request of the whole file meets an excerpt that reaches its last line, and the excerpt
      gives every requested line as the file has it. */
  lemma CachedAnswerIff(r: Rules, s: Context, w: Workspace, t: Target, content: Bytes, limit: nat, range: LineRange)
    requires AnswerOne(r, s, w, t).Some?
    requires TakenFrom(r, Source(r, s, w, t).value, content, limit, range)
    requires NoCollision(r, content, w.files[r.portable(t.path).value])
    requires |Text.Lines(content)| <= MAX_LINE
    ensures var e, wanted := Source(r, s, w, t).value, WantedOf(t);
      && High(e, wanted) <= |Text.Lines(content)|
      && (AnswerOne(r, s, w, t).value.rows == ToolRows(r, w, t) <==>
            && !Binary(content) && (wanted.Whole? ==> e.endLine == |Text.Lines(content)|)
            && forall j :: Low(e, wanted) <= j <= High(e, wanted) ==> GivesRightLine(content, limit, range, j))
  {
    hide Quote;
    hide Between;
    hide FindUsable;
    hide FindExcerpt;
    hide ReadRows;
    hide GivesRightLine;
    hide GivesLine;
    hide Text.Lines;
    hide Binary;
    hide ExcerptText;
    hide Join;
    hide Select;
    hide Numbered;
    var e, wanted := Source(r, s, w, t).value, WantedOf(t);
    var lines, low, high := Text.Lines(content), Low(e, wanted), High(e, wanted);
    assert w.files[r.portable(t.path).value] == content;
    ToolRowsAre(r, w, t);
    RowIsLine(content, limit, range, high);
    AnswerIsLinesIff(e.text, e.startLine, lines, low, high);
    forall j | low <= j <= high
      ensures GivesLine(e.text, e.startLine, lines, j) <==> GivesRightLine(content, limit, range, j)
    {
      RowIsLine(content, limit, range, j);
      GivesRightLineIff(content, limit, range, j);
    }
    LinesOfRequest(lines, e, wanted);
    QuoteIsSelection(e, wanted);
    if wanted.Whole? && e.endLine < |lines| {
      ShortAnswer(e, lines, wanted);
    }
  }

  /** An excerpt that does not start with an empty row gives a line rightly exactly when the line
      fits it and was not cut by the read, or cut on a line end; unless both the read and the
      excerpt were cut in that line. */
  lemma RightLineIsKeptIff(content: Bytes, limit: nat, range: LineRange, j: nat)
    requires range.start >= 1 && range.start <= j < range.start + |RowsOf(content, limit, range)|
    requires var rows := RowsOf(content, limit, range);
      && rows[0] != []
      && (IsCut(content, limit) && j == |Text.Lines(Shown(content, limit))| ==> |Join(rows)| <= MAX_EXCERPT_BYTES)
    ensures j <= |Text.Lines(content)|
    ensures GivesRightLine(content, limit, range, j) <==> LineIsKept(content, limit, range, j)
  {
    hide GivesLine;
    hide GivesRightLine;
    hide LineIsKept;
    GivesLineIff(content, limit, range, j);
    GivesRightLineIff(content, limit, range, j);
  }

  lemma QuoteIsSelection(e: Excerpt, wanted: Wanted)
    ensures Quote(e, wanted) == Select(Numbered(Text.Lines(e.text), e.startLine), Low(e, wanted), High(e, wanted))
  {
  }

  /** The lines that a request of a covered range, or of the whole file, stands for. */
  lemma LinesOfRequest(lines: seq<Bytes>, e: Excerpt, wanted: Wanted)
    requires |lines| <= MAX_LINE && !wanted.Unsupported? && 1 <= e.startLine
    requires 1 <= Low(e, wanted) <= High(e, wanted) <= |lines|
    ensures wanted.Lines? ==> Between(lines, wanted.range) == lines[Low(e, wanted) - 1..High(e, wanted)]
    ensures wanted.Whole? ==> Between(lines, LineRange(1, MAX_LINE)) == lines
    ensures wanted.Whole? && e.startLine == 1 && e.endLine == |lines| ==>
      Between(lines, LineRange(1, MAX_LINE)) == lines[Low(e, wanted) - 1..High(e, wanted)]
  {
  }

  /** An excerpt that ends before the file does gives fewer lines than the file has. */
  lemma ShortAnswer(e: Excerpt, lines: seq<Bytes>, wanted: Wanted)
    requires wanted.Whole? && 1 == e.startLine <= e.endLine < |lines|
    ensures |Select(Numbered(Text.Lines(e.text), e.startLine), Low(e, wanted), High(e, wanted))| < |Numbered(lines, 1)|
  {
    hide Text.Lines;
    SelectNumbered(Text.Lines(e.text), e.startLine, e.startLine, e.endLine);
  }

  /** Rows that come back under their own numbers as far as they come back at all. */
  predicate Plain(rows: seq<Bytes>) {
    rows != [] && rows[0] != [] && |Join(rows)| <= MAX_EXCERPT_BYTES && NoReturns(rows)
  }

  lemma {:induction false} PlainReadBack(rows: seq<Bytes>, j: nat)
    requires rows != [] && NoReturns(rows) && j < |ReadBack(rows)|
    ensures j < |rows| && ReadBack(rows)[j] == rows[j]
  {
    ReadBackRow(rows, j);
  }

  /** Line j of the excerpt was not cut by its read. */
  predicate Uncut(content: Bytes, limit: nat, j: nat) {
    IsCut(content, limit) && j >= |Text.Lines(Shown(content, limit))| ==> limit > 0 && CutAtLineEnd(content, limit)
  }

  /** Every line of a cached answer is that line of the live file; nothing is made up, whatever
      was requested. */
  lemma CachedLinesAreLive(
    r: Rules, s: Context, w: Workspace, t: Target, content: Bytes, limit: nat, range: LineRange, k: nat)
    requires AnswerOne(r, s, w, t).Some? && k < |AnswerOne(r, s, w, t).value.rows|
    requires TakenFrom(r, Source(r, s, w, t).value, content, limit, range)
    requires Plain(RowsOf(content, limit, range)) && Uncut(content, limit, AnswerOne(r, s, w, t).value.rows[k].number)
    requires NoCollision(r, content, w.files[r.portable(t.path).value])
    ensures var row, live := AnswerOne(r, s, w, t).value.rows[k], Text.Lines(w.files[r.portable(t.path).value]);
      1 <= row.number <= |live| && live[row.number - 1] == row.text
  {
    hide Quote;
    hide Between;
    hide FindUsable;
    hide FindExcerpt;
    hide Text.Lines;
    hide Built;
    hide Join;
    hide ReadBack;
    hide Clipped;
    hide Select;
    hide CutAtLineEnd;
    hide NoReturns;
    var e, wanted := Source(r, s, w, t).value, WantedOf(t);
    var rows := RowsOf(content, limit, range);
    QuoteIsSelection(e, wanted);
    RowsAreOneLiners(content, limit, range);
    BuiltFromFirst(rows);
    JoinedLines(rows);
    var row := AnswerOne(r, s, w, t).value.rows[k];
    var low := Low(e, wanted);
    SelectNumbered(Text.Lines(e.text), e.startLine, low, High(e, wanted));
    ClippedRow(Text.Lines(e.text), e.startLine, low, High(e, wanted), k);
    PlainReadBack(rows, low + k - e.startLine);
    RowIsLine(content, limit, range, low + k);
  }

  lemma ClippedRow(lines: seq<Bytes>, first: nat, low: nat, high: nat, k: nat)
    requires first <= low && k < |Numbered(Clipped(lines, first, low, high), low)|
    ensures low + k - first < |lines|
    ensures Numbered(Clipped(lines, first, low, high), low)[k] == Row(low + k, lines[low + k - first])
  {
  }

  /** Whatever the excerpt was taken from comes back plainly, uncut, and no other content has its
      hash. */
  ghost predicate Reliable(r: Rules, e: Excerpt, live: Bytes) {
    forall content: Bytes, limit: nat, range: LineRange :: TakenFrom(r, e, content, limit, range) ==>
      Plain(RowsOf(content, limit, range)) && NoCollision(r, content, live)
      && forall j :: e.startLine <= j <= e.endLine ==> Uncut(content, limit, j)
  }

  /** When every excerpt comes from a read, the lines of an answer are the lines of the live file. */
  lemma AnswerIsLive(r: Rules, s: Context, w: Workspace, t: Target, k: nat)
    requires AllFromReads(r, s) && AnswerOne(r, s, w, t).Some? && k < |AnswerOne(r, s, w, t).value.rows|
    requires Reliable(r, Source(r, s, w, t).value, w.files[r.portable(t.path).value])
    ensures var row, live := AnswerOne(r, s, w, t).value.rows[k], Text.Lines(w.files[r.portable(t.path).value]);
      1 <= row.number <= |live| && live[row.number - 1] == row.text
  {
    hide Plain;
    hide TakenFrom;
    hide Quote;
    hide Uncut;
    var e := Source(r, s, w, t).value;
    assert FromRead(r, e);
    var content: Bytes, limit: nat, range: LineRange :| TakenFrom(r, e, content, limit, range);
    AnsweredInRange(r, s, w, t, k);
    CachedLinesAreLive(r, s, w, t, content, limit, range, k);
  }

  lemma AnsweredInRange(r: Rules, s: Context, w: Workspace, t: Target, k: nat)
    requires AnswerOne(r, s, w, t).Some? && k < |AnswerOne(r, s, w, t).value.rows|
    ensures var e := Source(r, s, w, t).value;
      e.startLine <= AnswerOne(r, s, w, t).value.rows[k].number <= e.endLine
  {
    hide FindUsable;
    hide FindExcerpt;
    var e, wanted := Source(r, s, w, t).value, WantedOf(t);
    QuoteIsSelection(e, wanted);
    var lines := Text.Lines(e.text);
    SelectNumbered(lines, e.startLine, Low(e, wanted), High(e, wanted));
    ClippedRow(lines, e.startLine, Low(e, wanted), High(e, wanted), k);
  }

  /** Over every run of honest reads, writes, commands and refreshes, with everything the runtime
      reads itself: the lines of a cached answer are the lines of the live file. */
  lemma RunAnswersAreLive(r: Rules, root: string, ops: seq<Op>, w: Workspace, t: Target, k: nat)
    requires forall i :: 0 <= i < |ops| ==> HonestOp(r, ops[i])
    requires var s := Run(r, root, ops);
      AnswerOne(r, s, w, t).Some? && k < |AnswerOne(r, s, w, t).value.rows|
      && Reliable(r, Source(r, s, w, t).value, w.files[r.portable(t.path).value])
    ensures var row := AnswerOne(r, Run(r, root, ops), w, t).value.rows[k];
      var live := Text.Lines(w.files[r.portable(t.path).value]);
      1 <= row.number <= |live| && live[row.number - 1] == row.text
  {
    hide Run;
    hide AnswerOne;
    hide Reliable;
    RunExcerptsFromReads(r, root, ops);
    AnswerIsLive(r, Run(r, root, ops), w, t, k);
  }

  // ----- Runs in which answers are folded back -----

  /** The rows of an answer number consecutive lines. */
  lemma AnswerIsNumbered(r: Rules, s: Context, w: Workspace, t: Target)
    requires AnswerOne(r, s, w, t).Some?
    ensures var rows := AnswerOne(r, s, w, t).value.rows;
      rows != [] && forall k :: 0 <= k < |rows| ==> rows[k].number == rows[0].number + k
  {
    hide FindUsable;
    hide FindExcerpt;
    hide Quote;
    hide Text.Lines;
    hide Clipped;
    var e, wanted := Source(r, s, w, t).value, WantedOf(t);
    QuoteIsSelection(e, wanted);
    SelectNumbered(Text.Lines(e.text), e.startLine, Low(e, wanted), High(e, wanted));
  }

  /** Consecutive lines of a file that is no binary are what the read tool returns for them. */
  lemma LiveRowsAreRead(r: Rules, f: ReadFile, live: Bytes)
    requires f.rows != [] && f.contentHash == Some(r.hash(live)) && !f.truncated && !Binary(live)
    requires forall k :: 0 <= k < |f.rows| ==> f.rows[k].number == f.rows[0].number + k
    requires var lines := Text.Lines(live);
      forall k :: 0 <= k < |f.rows| ==>
        1 <= f.rows[k].number <= |lines| && lines[f.rows[k].number - 1] == f.rows[k].text
    ensures Honest(r, f)
  {
    hide Text.Lines;
    hide Binary;
    var first, n, lines := f.rows[0].number, |f.rows|, Text.Lines(live);
    assert f.rows[n - 1].number == first + n - 1 <= |lines|;
    var range := LineRange(first, first + n - 1);
    assert Between(lines, range) == lines[first - 1..first - 1 + n];
    var tool := ReadRows(r.hash, f.path, live, |live|, range);
    forall k | 0 <= k < n ensures tool.rows[k] == f.rows[k] {
      assert f.rows[k] == Row(f.rows[k].number, f.rows[k].text);
    }
    assert tool.rows == f.rows && f == tool;
  }

  /** An answer whose lines are live is what the read tool returns for them, so it may be recorded
      as a read. */
  lemma LiveAnswerIsHonest(r: Rules, s: Context, w: Workspace, t: Target)
    requires AnswerOne(r, s, w, t).Some? && !Binary(w.files[r.portable(t.path).value])
    requires var rows, live := AnswerOne(r, s, w, t).value.rows, Text.Lines(w.files[r.portable(t.path).value]);
      forall k :: 0 <= k < |rows| ==> 1 <= rows[k].number <= |live| && live[rows[k].number - 1] == rows[k].text
    ensures Honest(r, AnswerOne(r, s, w, t).value)
  {
    hide FindUsable;
    hide FindExcerpt;
    hide Quote;
    hide Text.Lines;
    hide Binary;
    hide Honest;
    AnswerIsNumbered(r, s, w, t);
    LiveRowsAreRead(r, AnswerOne(r, s, w, t).value, w.files[r.portable(t.path).value]);
  }

  /** Something happens, or a read is asked for and answered without running it, in which case its
      answer is recorded like that of a read. */
  datatype TurnEvent = Happened(op: Op) | Asked(workspace: Workspace, request: Request)

  function ApplyEvent(r: Rules, s: Context, e: TurnEvent): Context {
    match e
    case Happened(op) => Apply(r, s, op)
    case Asked(w, q) =>
      var files := CachedRead(r, s, w, q);
      if files.None? then s else Apply(r, s, Observed(ReadTool(true, files.value)))
  }

  function RunAnswering(r: Rules, root: string, events: seq<TurnEvent>): Context {
    if events == [] then EmptyContext(root)
    else ApplyEvent(r, RunAnswering(r, root, events[..|events| - 1]), events[|events| - 1])
  }

  /** If the target is answered, then from an excerpt that gives its lines back, and for a file that
      is no binary. */
  ghost predicate ReliableTarget(r: Rules, s: Context, w: Workspace, t: Target) {
    AnswerOne(r, s, w, t).Some? ==>
      var live := w.files[r.portable(t.path).value];
      !Binary(live) && Reliable(r, Source(r, s, w, t).value, live)
  }

  ghost predicate SoundEvent(r: Rules, s: Context, e: TurnEvent) {
    match e
    case Happened(op) => HonestOp(r, op)
    case Asked(w, q) => forall i :: 0 <= i < |q.targets| ==> ReliableTarget(r, s, w, q.targets[i])
  }

  ghost predicate SoundEvents(r: Rules, root: string, events: seq<TurnEvent>) {
    events == [] || (
      var front := events[..|events| - 1];
      SoundEvents(r, root, front) && SoundEvent(r, RunAnswering(r, root, front), events[|events| - 1]))
  }

  lemma {:induction false} AnswersAreHonest(r: Rules, s: Context, w: Workspace, ts: seq<Target>)
    requires AllFromReads(r, s) && AnswerAll(r, s, w, ts).Some?
    requires forall i :: 0 <= i < |ts| ==> ReliableTarget(r, s, w, ts[i])
    ensures forall f :: f in AnswerAll(r, s, w, ts).value ==> Honest(r, f)
  {
    hide AnswerOne;
    hide Honest;
    hide Reliable;
    hide Binary;
    hide AllFromReads;
    hide Source;
    if ts != [] {
      var n := |ts| - 1;
      AnswersAreHonest(r, s, w, ts[..n]);
      AnswerIsHonest(r, s, w, ts[n]);
    }
  }

  lemma AnswerIsHonest(r: Rules, s: Context, w: Workspace, t: Target)
    requires AllFromReads(r, s) && AnswerOne(r, s, w, t).Some? && ReliableTarget(r, s, w, t)
    ensures Honest(r, AnswerOne(r, s, w, t).value)
  {
    hide FindUsable;
    hide FindExcerpt;
    hide Quote;
    hide Honest;
    hide Reliable;
    hide Binary;
    hide AllFromReads;
    hide Text.Lines;
    var rows, live := AnswerOne(r, s, w, t).value.rows, Text.Lines(w.files[r.portable(t.path).value]);
    forall k | 0 <= k < |rows| ensures 1 <= rows[k].number <= |live| && live[rows[k].number - 1] == rows[k].text {
      AnswerIsLive(r, s, w, t, k);
    }
    LiveAnswerIsHonest(r, s, w, t);
  }

  /** Recording its own answers spoils nothing: over every run of honest results and of reads
      answered from reliable excerpts, every excerpt is what the builder keeps of a read. */
  lemma {:induction false} AnsweringKeepsReads(r: Rules, root: string, events: seq<TurnEvent>)
    requires SoundEvents(r, root, events)
    ensures AllFromReads(r, RunAnswering(r, root, events))
  {
    hide Observe;
    hide Honest;
    hide FromRead;
    hide ReliableTarget;
    hide AnswerAll;
    if events != [] {
      var s, e := RunAnswering(r, root, events[..|events| - 1]), events[|events| - 1];
      AnsweringKeepsReads(r, root, events[..|events| - 1]);
      if e.Happened? && e.op.Observed? {
        ObserveFromReads(r, s, e.op.observation);
      } else if e.Happened? && e.op.UserChanged? {
        RecordUserKeeps(r, s, e.op.paths);
      } else if e.Asked? && CachedRead(r, s, e.workspace, e.request).Some? {
        AnswersAreHonest(r, s, e.workspace, e.request.targets);
        ObserveFromReads(r, s, ReadTool(true, CachedRead(r, s, e.workspace, e.request).value));
      }
    }
  }

  /** So over every such run, too, the lines of a cached answer are the lines of the live file. */
  lemma AnsweringRunIsLive(r: Rules, root: string, events: seq<TurnEvent>, w: Workspace, t: Target, k: nat)
    requires SoundEvents(r, root, events)
    requires var s := RunAnswering(r, root, events);
      ReliableTarget(r, s, w, t) && AnswerOne(r, s, w, t).Some? && k < |AnswerOne(r, s, w, t).value.rows|
    ensures var row := AnswerOne(r, RunAnswering(r, root, events), w, t).value.rows[k];
      var live := Text.Lines(w.files[r.portable(t.path).value]);
      1 <= row.number <= |live| && live[row.number - 1] == row.text
  {
    hide RunAnswering;
    hide AnswerOne;
    hide Reliable;
    hide Binary;
    hide SoundEvents;
    AnsweringKeepsReads(r, root, events);
    AnswerIsLive(r, RunAnswering(r, root, events), w, t, k);
  }

  // ----- Requests that are answered wrongly -----

  lemma {:induction false} BlankRowIsLost(rows: seq<Bytes>)
    requires OneLiners(rows) && rows != [] && rows[0] == []
    ensures |Text.Lines(ExcerptText(rows))| < |rows|
  {
    hide Text.Lines;
    hide Built;
    var kept := DropEmpty(rows);
    BuiltDropsEmpty(rows);
    if kept != [] {
      BuiltFromFirst(kept);
      JoinedLines(kept);
      LinesOfPrefix(Join(kept), ExcerptText(rows));
    } else {
      NothingBuilt();
      NoLines();
    }
  }

  lemma NothingBuilt()
    ensures Built([], []) == []
  {
  }

  /** An excerpt that starts with an empty row gives its later rows under the numbers of earlier
      ones, so no request that reaches its last line is answered rightly. */
  lemma BlankFirstRowShifts(r: Rules, s: Context, w: Workspace, t: Target, content: Bytes, limit: nat, range: LineRange)
    requires AnswerOne(r, s, w, t).Some? && TakenFrom(r, Source(r, s, w, t).value, content, limit, range)
    requires RowsOf(content, limit, range)[0] == []
    requires High(Source(r, s, w, t).value, WantedOf(t)) == Source(r, s, w, t).value.endLine <= MAX_LINE
    requires NoCollision(r, content, w.files[r.portable(t.path).value])
    ensures AnswerOne(r, s, w, t).value.rows != ToolRows(r, w, t)
  {
    hide Quote;
    hide FindUsable;
    hide FindExcerpt;
    hide Text.Lines;
    hide ReadRows;
    hide ExcerptText;
    hide Binary;
    hide Between;
    hide Select;
    hide Numbered;
    var e, wanted := Source(r, s, w, t).value, WantedOf(t);
    ToolRowsAre(r, w, t);
    RowsAreOneLiners(content, limit, range);
    BlankRowIsLost(RowsOf(content, limit, range));
    RowIsLine(content, limit, range, e.endLine);
    QuoteIsSelection(e, wanted);
    FewerLines(Text.Lines(e.text), e.startLine, Low(e, wanted), e.endLine);
    AllRequestedLines(Text.Lines(content), e, wanted);
  }

  lemma FewerLines(quoted: seq<Bytes>, first: nat, low: nat, high: nat)
    requires first <= low <= high && |quoted| <= high - first
    ensures |Select(Numbered(quoted, first), low, high)| <= high - low
  {
    SelectNumbered(quoted, first, low, high);
  }

  lemma AllRequestedLines(lines: seq<Bytes>, e: Excerpt, wanted: Wanted)
    requires 1 <= Low(e, wanted) <= High(e, wanted) <= |lines| && High(e, wanted) <= MAX_LINE
    requires wanted.Whole? ==> e.startLine == 1
    ensures var range := if wanted.Lines? then wanted.range else LineRange(1, MAX_LINE);
      |Numbered(Between(lines, range), range.start)| > High(e, wanted) - Low(e, wanted)
  {
  }

  /** The context after one read of a file, and the excerpt a later request meets. */
  lemma AfterOneRead(r: Rules, w: Workspace, p: Path, limit: nat, range: LineRange, t: Target)
    requires range.start >= 1 && r.portable(p) == Some(p) && p in w.files && |w.files[p]| <= MAX_HASHED_BYTES
    requires ExcerptOf(p, ReadRows(r.hash, p, w.files[p], limit, range)).Some? && t.path == p
    requires var e := ExcerptOf(p, ReadRows(r.hash, p, w.files[p], limit, range)).value;
      !WantedOf(t).Unsupported? && Covers(e, p, r.hash(w.files[p]), WantedOf(t))
    ensures var f := ReadRows(r.hash, p, w.files[p], limit, range);
      var s := Run(r, w.root, [Observed(ReadTool(true, [f]))]);
      Source(r, s, w, t) == Some(ExcerptOf(p, f).value) && !s.workspaceChanged
  {
    hide ExcerptOf;
    hide ReadRows;
    hide Observe;
    hide ReadTool;
    var f := ReadRows(r.hash, p, w.files[p], limit, range);
    var first := EmptyContext(w.root);
    var ops := [Observed(ReadTool(true, [f]))];
    assert ops[..0] == [] && Run(r, w.root, ops[..0]) == first;
    ReadToolReads(r, first, f);
    PathAndHash(r, p, w.files[p], limit, range);
    var s := Run(r, w.root, ops);
    assert s.inspected == [InspectedFile(p, Some(r.hash(w.files[p])), Present, false)];
    assert s.excerpts == [ExcerptOf(p, f).value];
  }

  lemma PathAndHash(r: Rules, p: Path, content: Bytes, limit: nat, range: LineRange)
    requires range.start >= 1
    ensures var f := ReadRows(r.hash, p, content, limit, range); f.path == p && f.contentHash == Some(r.hash(content))
  {
  }

  function Times(b: Byte, n: nat): (s: Bytes)
    ensures |s| == n && forall i :: 0 <= i < n ==> s[i] == b
  {
    if n == 0 then [] else Times(b, n - 1) + [b]
  }

  /** A thousand a's in one line, then b's. */
  function LongLine(bs: nat): Bytes {
    Times(97, 1000) + [NEWLINE] + Times(98, bs)
  }

  lemma LongLineRows(bs: nat)
    requires bs > 0
    ensures Text.Lines(LongLine(bs)) == [Times(97, 1000), Times(98, bs)] && !Binary(LongLine(bs))
  {
    hide Text.Lines;
    hide Utf8;
    hide Times;
    LinesFirst(Times(97, 1000), Times(98, bs));
    LinesLast(Times(98, bs));
    AsciiIsUtf8(LongLine(bs));
  }

  lemma LongLineCut(bs: nat, more: nat)
    requires bs <= more
    ensures LongLine(more)[..1001 + bs] == LongLine(bs)
  {
    assert forall i :: 0 <= i < 1001 + bs ==> LongLine(more)[i] == LongLine(bs)[i];
  }

  lemma OneRowExcerpt(p: Path, f: ReadFile, row: Row)
    requires f.rows == [row] && 0 < |row.text| < MAX_EXCERPT_BYTES
    ensures ExcerptOf(p, f) == Some(Excerpt(p, row.number, row.number, row.text, f.contentHash, f.truncated))
  {
    assert Texts(f.rows) == [row.text];
    assert Appended([], row.text) == row.text;
    assert Built(row.text, []) == row.text;
    assert Built([], [row.text]) == row.text;
  }

  lemma QuoteOneRow(e: Excerpt, wanted: Wanted)
    requires e.text != [] && NEWLINE !in e.text && e.endLine >= e.startLine
    requires wanted.Lines? ==> wanted.range == LineRange(e.startLine, e.startLine)
    ensures Quote(e, wanted) == [Row(e.startLine, e.text)]
  {
    LinesLast(e.text);
    var rows := Numbered([e.text], e.startLine);
    assert rows[..0] == [] && Select(rows[..0], Low(e, wanted), High(e, wanted)) == [];
  }

  lemma OneTarget(r: Rules, s: Context, w: Workspace, t: Target)
    requires !s.workspaceChanged && AnswerOne(r, s, w, t).Some?
    ensures CachedRead(r, s, w, Request(None, [t])) == Some([AnswerOne(r, s, w, t).value])
  {
    hide AnswerOne;
    var ts := [t];
    assert ts[..|ts| - 1] == [] && ts[|ts| - 1] == t;
    assert AnswerAll(r, s, w, []) == Some([]);
    assert [] + [AnswerOne(r, s, w, t).value] == [AnswerOne(r, s, w, t).value];
  }

  /** A file whose read gave one row answers later requests that the row covers with it. */
  lemma OneRowAnswers(r: Rules, w: Workspace, p: Path, limit: nat, range: LineRange, t: Target, row: Row)
    requires range.start >= 1 && r.portable(p) == Some(p) && p in w.files && |w.files[p]| <= MAX_HASHED_BYTES
    requires ReadRows(r.hash, p, w.files[p], limit, range).rows == [row] && t.path == p
    requires 0 < |row.text| < MAX_EXCERPT_BYTES && NEWLINE !in row.text
    requires WantedOf(t) == Lines(LineRange(row.number, row.number))
      || (WantedOf(t).Whole? && row.number == 1 && !IsCut(w.files[p], limit))
    ensures CachedRead(
        r, Run(r, w.root, [Observed(ReadTool(true, [ReadRows(r.hash, p, w.files[p], limit, range)]))]), w,
        Request(None, [t]))
      == Some([ReadFile(p, Some(r.hash(w.files[p])), [row], false)])
  {
    hide Run;
    hide ReadTool;
    hide ExcerptOf;
    hide Quote;
    hide Source;
    var f := ReadRows(r.hash, p, w.files[p], limit, range);
    var s := Run(r, w.root, [Observed(ReadTool(true, [f]))]);
    OneRowExcerpt(p, f, row);
    AfterOneRead(r, w, p, limit, range, t);
    QuoteOneRow(ExcerptOf(p, f).value, WantedOf(t));
    OneTarget(r, s, w, t);
  }

  lemma OneRowBound(f: ReadFile, row: Row)
    requires f.rows == [row]
    ensures OutputBound(f) == 360 + 6 * |f.path| + 6 * |row.text|
  {
    assert f.rows[..0] == [] && RowsBound([]) == 0;
  }

  /** What reading one line of a file of two lines gives, and what the tool gives without a limit. */
  lemma OneLineRead(r: Rules, p: Path, bs: nat, shown: nat, limit: nat, line: nat)
    requires 0 < shown <= bs && 1 <= line <= 2
    requires Shown(LongLine(bs), limit) == LongLine(shown)
    ensures ReadRows(r.hash, p, LongLine(bs), limit, LineRange(line, line)).rows
      == [Row(line, if line == 1 then Times(97, 1000) else Times(98, shown))]
  {
    hide Binary;
    LongLineRows(shown);
    var range := LineRange(line, line);
    var row := if line == 1 then Times(97, 1000) else Times(98, shown);
    assert RowsOf(LongLine(bs), limit, range) == [row];
    assert Numbered([row], line) == [Row(line, row)];
  }

  /** Line 2 of a file is read with a limit that falls inside it.  The result is small enough to
      keep its data, and carries the hash of the whole file, so a later request of line 2 is
      answered with the first 23 of its 100 bytes. */
  lemma CutReadIsMisquoted(r: Rules, w: Workspace, p: Path)
    requires r.portable(p) == Some(p) && |p| <= 64 && w.files == map[p := LongLine(100)]
    ensures var f, t := ReadRows(r.hash, p, LongLine(100), 1024, LineRange(2, 2)), Target(p, Some(2), Some(2));
      && OutputBound(f) <= 1024
      && CachedRead(r, Run(r, w.root, [Observed(ReadTool(true, [f]))]), w, Request(None, [t]))
        == Some([ReadFile(p, Some(r.hash(LongLine(100))), [Row(2, Times(98, 23))], false)])
      && ToolRows(r, w, t) == [Row(2, Times(98, 100))]
  {
    hide Run;
    hide CachedRead;
    hide ReadRows;
    hide LongLine;
    hide OutputBound;
    hide Numbered;
    hide Between;
    var f, t := ReadRows(r.hash, p, LongLine(100), 1024, LineRange(2, 2)), Target(p, Some(2), Some(2));
    LongLineSize(100);
    LongLineCut(23, 100);
    OneLineRead(r, p, 100, 23, 1024, 2);
    OneLineRead(r, p, 100, 100, |LongLine(100)|, 2);
    PathAndHash(r, p, LongLine(100), 1024, LineRange(2, 2));
    OneRowBound(f, Row(2, Times(98, 23)));
    OneRowAnswers(r, w, p, 1024, LineRange(2, 2), t, Row(2, Times(98, 23)));
  }

  lemma LongLineSize(bs: nat)
    ensures |LongLine(bs)| == 1001 + bs
  {
  }

  lemma WholeLongLine(r: Rules, w: Workspace, t: Target)
    requires r.portable(t.path) == Some(t.path) && w.files == map[t.path := LongLine(1)] && WantedOf(t).Whole?
    ensures ToolRows(r, w, t) == [Row(1, Times(97, 1000)), Row(2, Times(98, 1))]
  {
    hide LongLine;
    hide Times;
    hide ReadRows;
    hide ToolRows;
    hide Between;
    hide Numbered;
    hide Binary;
    LongLineSize(1);
    LongLineRows(1);
    ToolRowsAre(r, w, t);
    TwoLines(Times(97, 1000), Times(98, 1));
  }

  lemma TwoLines(a: Bytes, b: Bytes)
    ensures Numbered(Between([a, b], LineRange(1, MAX_LINE)), 1) == [Row(1, a), Row(2, b)]
    ensures Between([a, b], LineRange(1, 2)) == [a, b]
    ensures Between([a, b], LineRange(1, 1)) == [a]
  {
    assert Between([a, b], LineRange(1, MAX_LINE)) == [a, b];
  }

  /** A request of the whole file is answered from an excerpt of its first line only. */
  lemma WholeReadIsCutShort(r: Rules, w: Workspace, p: Path)
    requires r.portable(p) == Some(p) && |p| <= 64 && w.files == map[p := LongLine(1)]
    ensures var f, t := ReadRows(r.hash, p, LongLine(1), 8192, LineRange(1, 1)), Target(p, None, None);
      && OutputBound(f) <= 8192
      && CachedRead(r, Run(r, w.root, [Observed(ReadTool(true, [f]))]), w, Request(None, [t]))
        == Some([ReadFile(p, Some(r.hash(LongLine(1))), [Row(1, Times(97, 1000))], false)])
      && ToolRows(r, w, t) == [Row(1, Times(97, 1000)), Row(2, Times(98, 1))]
  {
    hide Run;
    hide CachedRead;
    hide ReadRows;
    hide ToolRows;
    hide LongLine;
    hide OutputBound;
    var f, t := ReadRows(r.hash, p, LongLine(1), 8192, LineRange(1, 1)), Target(p, None, None);
    LongLineSize(1);
    WholeLongLine(r, w, t);
    PathAndHash(r, p, LongLine(1), 8192, LineRange(1, 1));
    OneLineRead(r, p, 1, 1, 8192, 1);
    OneRowBound(f, Row(1, Times(97, 1000)));
    OneRowAnswers(r, w, p, 8192, LineRange(1, 1), t, Row(1, Times(97, 1000)));
  }

  /** An empty line followed by one with an x. */
  const BLANK_FIRST: Bytes := [NEWLINE, 120]

  lemma BlankFirstRows()
    ensures Text.Lines(BLANK_FIRST) == [[], [120]] && !Binary(BLANK_FIRST)
  {
    LinesFirst([], [120]);
    LinesLast([120]);
    assert BLANK_FIRST == [] + [NEWLINE] + [120];
    AsciiIsUtf8(BLANK_FIRST);
  }

  /** Both lines are read; a later request of the first, empty one is answered with the x. */
  lemma BlankLineIsMisread(r: Rules, w: Workspace, p: Path)
    requires r.portable(p) == Some(p) && w.files == map[p := BLANK_FIRST]
    ensures var f, t := ReadRows(r.hash, p, BLANK_FIRST, 1024, LineRange(1, 2)), Target(p, Some(1), Some(1));
      && CachedRead(r, Run(r, w.root, [Observed(ReadTool(true, [f]))]), w, Request(None, [t]))
        == Some([ReadFile(p, Some(r.hash(BLANK_FIRST)), [Row(1, [120])], false)])
      && ToolRows(r, w, t) == [Row(1, [])]
  {
    hide Run;
    hide ReadTool;
    hide ReadRows;
    hide ToolRows;
    hide ExcerptOf;
    hide Quote;
    hide Source;
    var f, t := ReadRows(r.hash, p, BLANK_FIRST, 1024, LineRange(1, 2)), Target(p, Some(1), Some(1));
    BlankFirstRead(r, w, p, t);
    BlankFirstExcerpt(p, f);
    PathAndHash(r, p, BLANK_FIRST, 1024, LineRange(1, 2));
    AfterOneRead(r, w, p, 1024, LineRange(1, 2), t);
    QuoteOneRow(ExcerptOf(p, f).value, WantedOf(t));
    OneTarget(r, Run(r, w.root, [Observed(ReadTool(true, [f]))]), w, t);
  }

  lemma BlankFirstRead(r: Rules, w: Workspace, p: Path, t: Target)
    requires r.portable(p) == Some(p) && w.files == map[p := BLANK_FIRST] && t == Target(p, Some(1), Some(1))
    ensures ReadRows(r.hash, p, BLANK_FIRST, 1024, LineRange(1, 2)).rows == Numbered([[], [120]], 1)
    ensures ToolRows(r, w, t) == [Row(1, [])]
  {
    hide Text.Lines;
    hide Between;
    hide Binary;
    BlankFirstRows();
    TwoLines([], [120]);
    assert Numbered([[]], 1) == [Row(1, [])];
  }

  lemma BlankFirstExcerpt(p: Path, f: ReadFile)
    requires f.rows == Numbered([[], [120]], 1)
    ensures ExcerptOf(p, f) == Some(Excerpt(p, 1, 2, [120], f.contentHash, f.truncated))
  {
    var e: Bytes := [];
    var x: Bytes := [120];
    var rows := [e, x];
    NumberedBounds(rows, 1);
    assert Texts(f.rows) == rows && rows[1..] == [x];
    assert Appended(e, e) == e && Appended(e, x) == x;
    assert Built(x, []) == x;
    assert Built(e, [x]) == Built(x, [x][1..]) == x;
    assert Built(e, rows) == Built(e, rows[1..]);
  }

  // ----- The policy before a call -----

  datatype Action = Action(tool: string, isRead: bool, counted: bool, key: Guardrails.Key, request: Request)

  datatype Answer = Answer(ok: bool, files: seq<ReadFile>)

  datatype Policy = Policy(
    optimizations: bool,
    failures: seq<Guardrails.FailureObservation>,
    observations: seq<Guardrails.Observation>,
    mutationRefused: (Context, Action) -> bool)

  /** The guardrail answers with a failure when the circuit is open, and otherwise with a cached
      success when there is one. */
  function Guarded(p: Policy, a: Action): Option<Answer> {
    if !a.counted then None
    else if Guardrails.Blocks(p.failures, a.key) then Some(Answer(false, []))
    else if Cached(p, a) then Some(Answer(true, [])) else None
  }

  function Refused(p: Policy, a: Action): Option<Answer> {
    if a.counted && Guardrails.Blocks(p.failures, a.key) then Some(Answer(false, [])) else None
  }

  predicate Cached(p: Policy, a: Action) {
    a.counted && exists i :: 0 <= i < |p.observations| && p.observations[i].key == a.key
  }

  function Or<T>(first: Option<T>, second: Option<T>): Option<T> {
    if first.Some? then first else second
  }

  function Preflight(r: Rules, p: Policy, s: Context, w: Workspace, a: Action): Option<Answer> {
    var mutation := if p.mutationRefused(s, a) then Some(Answer(false, [])) else None;
    if a.tool == "read" && a.isRead then
      var files := if p.optimizations then CachedRead(r, s, w, a.request) else None;
      Or(if files.Some? then Some(Answer(true, files.value)) else None,
         Or(if p.optimizations then Refused(p, a) else None, mutation))
    else
      var guarded :=
        if p.optimizations then Or(Refused(p, a), if !Cached(p, a) then Guarded(p, a) else None) else None;
      Or(guarded, mutation)
  }

  /** A call is answered with a success without running it only if it is a read, and then with
      the cached files; cached successes of other calls are never replayed. */
  lemma OnlyReadsSucceedUnrun(r: Rules, p: Policy, s: Context, w: Workspace, a: Action)
    requires Preflight(r, p, s, w, a).Some? && Preflight(r, p, s, w, a).value.ok
    ensures a.tool == "read" && a.isRead && p.optimizations && !s.workspaceChanged
    ensures CachedRead(r, s, w, a.request) == Some(Preflight(r, p, s, w, a).value.files)
  {
  }

  /** Three failures stop every other counted call. */
  lemma OpenCircuitRefuses(r: Rules, p: Policy, s: Context, w: Workspace, a: Action)
    requires p.optimizations && a.counted && Guardrails.Blocks(p.failures, a.key)
    ensures Preflight(r, p, s, w, a).Some?
    ensures Preflight(r, p, s, w, a).value.ok ==> CachedRead(r, s, w, a.request).Some? && a.tool == "read"
  {
  }
}
