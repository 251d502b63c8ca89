/** UTF-8 text as bytes: the bounded text of the tool protocol, and the lines of a text, joined
    and cut. */
module Text {
  import opened Wrappers

  const TAB: Byte := 9
  const NEWLINE: Byte := 10
  const RETURN: Byte := 13
  const SPACE: Byte := 32
  const BACKSLASH: Byte := 92

  // ----- UTF-8 -----

  predicate Continuation(b: Byte) {
    0x80 <= b < 0xC0
  }

  /** The bytes of one character, by Table 3-7 of the Unicode Standard. */
  predicate ValidChar(c: Bytes) {
    || (|c| == 1 && c[0] < 0x80)
    || (|c| == 2 && 0xC2 <= c[0] < 0xE0 && Continuation(c[1]))
    || (|c| == 3 && 0xE0 <= c[0] < 0xF0 && Continuation(c[1]) && Continuation(c[2])
        && (c[0] == 0xE0 ==> c[1] >= 0xA0) && (c[0] == 0xED ==> c[1] < 0xA0))
    || (|c| == 4 && 0xF0 <= c[0] < 0xF5 && Continuation(c[1]) && Continuation(c[2]) && Continuation(c[3])
        && (c[0] == 0xF0 ==> c[1] >= 0x90) && (c[0] == 0xF4 ==> c[1] < 0x90))
  }

  function CharLength(b: Byte): nat {
    if b < 0x80 then 1 else if b < 0xE0 then 2 else if b < 0xF0 then 3 else 4
  }

  predicate Utf8(s: Bytes) {
    s == [] ||
    (var n := CharLength(s[0]); n <= |s| && ValidChar(s[..n]) && Utf8(s[n..]))
  }

  // ----- Bounded text -----

  predicate CharBoundary(s: Bytes, i: nat)
    requires i <= |s|
  {
    i == 0 || i == |s| || !Continuation(s[i])
  }

  function BoundaryBelow(s: Bytes, end: nat): (r: nat)
    requires end <= |s|
    ensures r <= end && CharBoundary(s, r) && forall j :: r < j <= end ==> !CharBoundary(s, j)
  {
    if end > 0 && !CharBoundary(s, end) then BoundaryBelow(s, end - 1) else end
  }

  /** The longest prefix of at most max bytes that does not cut a character. */
  function Bounded(s: Bytes, max: nat): (r: Bytes)
    ensures |r| <= max && r <= s && (r == s <==> |s| <= max)
  {
    s[..BoundaryBelow(s, if |s| < max then |s| else max)]
  }

  // ----- Lines -----

  function StripReturn(s: Bytes): Bytes {
    if s != [] && s[|s| - 1] == RETURN then s[..|s| - 1] else s
  }

  /** The position of the first newline, or the length. */
  function LineEnd(s: Bytes): (k: nat)
    ensures k <= |s| && (k < |s| ==> s[k] == NEWLINE) && forall j :: 0 <= j < k ==> s[j] != NEWLINE
  {
    if s == [] || s[0] == NEWLINE then 0 else LineEnd(s[1..]) + 1
  }

  /** Lines end with a newline, which may follow a carriage return; what is left is a line
      unless it is empty. */
  function Lines(s: Bytes): seq<Bytes> {
    var k := LineEnd(s);
    if s == [] then [] else if k == |s| then [s] else [StripReturn(s[..k])] + Lines(s[k + 1..])
  }

  function Join(rows: seq<Bytes>): Bytes {
    if rows == [] then [] else if |rows| == 1 then rows[0] else rows[0] + [NEWLINE] + Join(rows[1..])
  }

  predicate OneLiners(rows: seq<Bytes>) {
    forall i :: 0 <= i < |rows| ==> NEWLINE !in rows[i]
  }

  lemma {:induction false} LinesAreOneLiners(s: Bytes)
    ensures OneLiners(Lines(s))
    decreases |s|
  {
    if s != [] {
      var k := LineEnd(s);
      if k < |s| {
        LinesAreOneLiners(s[k + 1..]);
      } else {
        assert s[..k] == s;
      }
    }
  }

  lemma LineEndIs(row: Bytes, rest: Bytes)
    requires NEWLINE !in row
    ensures LineEnd(row + [NEWLINE] + rest) == |row|
    ensures LineEnd(row) == |row|
  {
    var s := row + [NEWLINE] + rest;
    forall j | 0 <= j < |row| ensures s[j] != NEWLINE && row[j] != NEWLINE {
    }
    assert s[|row|] == NEWLINE;
  }

  /** The first line of a text that starts with some row and a newline. */
  lemma LinesFirst(row: Bytes, rest: Bytes)
    requires NEWLINE !in row
    ensures Lines(row + [NEWLINE] + rest) == [StripReturn(row)] + Lines(rest)
  {
    var s := row + [NEWLINE] + rest;
    LineEndIs(row, rest);
    assert s[..|row|] == row && s[|row| + 1..] == rest;
  }

  lemma LinesLast(row: Bytes)
    requires NEWLINE !in row && row != []
    ensures Lines(row) == [row]
  {
    LineEndIs(row, []);
  }

  /** The lines that are read back from joined rows. */
  function ReadBack(rows: seq<Bytes>): (lines: seq<Bytes>)
    requires rows != []
    ensures |lines| == if rows[|rows| - 1] == [] then |rows| - 1 else |rows|
  {
    if |rows| > 1 then [StripReturn(rows[0])] + ReadBack(rows[1..])
    else if rows[0] == [] then [] else rows
  }

  lemma {:induction false} JoinedLines(rows: seq<Bytes>)
    requires OneLiners(rows) && rows != []
    ensures Lines(Join(rows)) == ReadBack(rows)
  {
    if |rows| == 1 {
      assert Join(rows) == rows[0];
      if rows[0] != [] {
        LinesLast(rows[0]);
      }
    } else {
      JoinedLines(rows[1..]);
      LinesFirst(rows[0], Join(rows[1..]));
    }
  }

  /** No row but the last ends with a carriage return. */
  predicate NoReturns(rows: seq<Bytes>) {
    forall i :: 0 <= i < |rows| - 1 ==> StripReturn(rows[i]) == rows[i]
  }

  lemma {:induction false} ReadBackIff(rows: seq<Bytes>)
    requires rows != []
    ensures ReadBack(rows) == rows <==> rows[|rows| - 1] != [] && NoReturns(rows)
  {
    if |rows| > 1 {
      ReadBackIff(rows[1..]);
      assert rows == [rows[0]] + rows[1..];
      NoReturnsFirst(rows);
    }
  }

  lemma NoReturnsFirst(rows: seq<Bytes>)
    requires |rows| > 1
    ensures NoReturns(rows) <==> StripReturn(rows[0]) == rows[0] && NoReturns(rows[1..])
  {
    hide StripReturn;
    if NoReturns(rows) {
      assert forall i :: 0 <= i < |rows[1..]| - 1 ==> rows[1..][i] == rows[i + 1];
    }
    if StripReturn(rows[0]) == rows[0] && NoReturns(rows[1..]) {
      forall i | 0 <= i < |rows| - 1 ensures StripReturn(rows[i]) == rows[i] {
        assert i > 0 ==> rows[i] == rows[1..][i - 1];
      }
    }
  }

  // ----- Prefixes of joined rows -----

  lemma {:induction false} JoinConcat(a: seq<Bytes>, b: seq<Bytes>)
    requires a != [] && b != []
    ensures Join(a + b) == Join(a) + [NEWLINE] + Join(b)
  {
    if |a| > 1 {
      JoinConcat(a[1..], b);
      assert (a + b)[1..] == a[1..] + b;
      assert a[0] + [NEWLINE] + (Join(a[1..]) + [NEWLINE] + Join(b))
          == (a[0] + [NEWLINE] + Join(a[1..])) + [NEWLINE] + Join(b);
    } else {
      assert (a + b)[1..] == b;
    }
  }

  /** A prefix of joined rows is some whole rows joined with the beginning of the next one. */
  lemma {:induction false} PrefixOfJoin(rows: seq<Bytes>, t: Bytes) returns (i: nat, part: Bytes)
    requires rows != [] && t <= Join(rows)
    ensures i < |rows| && part <= rows[i] && t == Join(rows[..i] + [part])
  {
    var first := rows[0];
    if |t| <= |first| {
      assert t == Join(rows)[..|t|] && first == Join(rows)[..|first|];
      assert t == first[..|t|];
      assert rows[..0] + [t] == [t];
      return 0, t;
    }
    var rest := rows[1..];
    var all := first + [NEWLINE] + Join(rest);
    assert t == all[..|t|] && t[|first|] == all[|first|] == NEWLINE;
    var k := |first| + 1;
    var tail := t[k..];
    assert tail == Join(rest)[..|tail|] by {
      forall j | 0 <= j < |tail| ensures tail[j] == Join(rest)[j] {
        assert tail[j] == all[k + j];
      }
    }
    i, part := PrefixOfJoin(rest, tail);
    JoinConcat([first], rest[..i] + [part]);
    assert t == first + [NEWLINE] + tail;
    i := i + 1;
    assert rows[..i] + [part] == [first] + (rest[..i - 1] + [part]);
  }

  lemma {:induction false} ReadBackRow(rows: seq<Bytes>, j: nat)
    requires rows != [] && j < |ReadBack(rows)|
    ensures j < |rows| && ReadBack(rows)[j] == if j == |rows| - 1 then rows[j] else StripReturn(rows[j])
  {
    if |rows| > 1 && j > 0 {
      ReadBackRow(rows[1..], j - 1);
    }
  }

  // ----- Text that is cut after some bytes -----

  /** The first `limit` bytes end with a line, apart from its line end. */
  predicate CutAtLineEnd(s: Bytes, limit: nat)
    requires 0 < limit && limit + 2 <= |s|
  {
    || s[limit - 1] == NEWLINE
    || (s[limit] == NEWLINE && s[limit - 1] != RETURN)
    || (s[limit] == RETURN && s[limit + 1] == NEWLINE)
  }

  lemma LinesAre(s: Bytes)
    requires s != []
    ensures var k := LineEnd(s);
      Lines(s) == if k == |s| then [s] else [StripReturn(s[..k])] + Lines(s[k + 1..])
  {
  }

  lemma StripCut(row: Bytes, limit: nat)
    requires 0 < limit <= |row|
    ensures StripReturn(row) == row[..limit]
      <==> (limit == |row| && row[limit - 1] != RETURN) || (limit == |row| - 1 && row[limit] == RETURN)
  {
  }

  lemma NoNewlineBefore(s: Bytes, limit: nat)
    requires limit <= LineEnd(s)
    ensures NEWLINE !in s[..limit]
  {
  }

  lemma FirstLineCut(s: Bytes, limit: nat)
    requires 0 < limit && limit + 2 <= |s| && limit <= LineEnd(s)
    ensures Lines(s[..limit]) == [s[..limit]] && Lines(s) != []
    ensures Lines(s)[0] == s[..limit] <==> CutAtLineEnd(s, limit)
  {
    hide Lines;
    hide StripReturn;
    var k := LineEnd(s);
    NoNewlineBefore(s, limit);
    LinesLast(s[..limit]);
    LinesAre(s);
    if k < |s| {
      var first := s[..k];
      StripCut(first, limit);
      assert first[..limit] == s[..limit];
    }
  }

  lemma LaterLineCut(s: Bytes, limit: nat)
    requires 0 < limit && limit + 2 <= |s| && LineEnd(s) < limit
    ensures var k := LineEnd(s); var first, rest := StripReturn(s[..k]), s[k + 1..];
      && Lines(s) == [first] + Lines(rest) && Lines(s[..limit]) == [first] + Lines(rest[..limit - k - 1])
      && (limit > k + 1 ==> CutAtLineEnd(s, limit) == CutAtLineEnd(rest, limit - k - 1))
      && (limit == k + 1 ==> CutAtLineEnd(s, limit))
  {
    hide StripReturn;
    hide Lines;
    var k := LineEnd(s);
    var first, rest := s[..k], s[k + 1..];
    NoNewlineBefore(s, k);
    assert s == first + [NEWLINE] + rest;
    assert s[..limit] == first + [NEWLINE] + rest[..limit - k - 1];
    LinesFirst(first, rest);
    LinesFirst(first, rest[..limit - k - 1]);
  }

  /** The lines of a cut text are those of the whole, all but the last; the last one is whole
      exactly when the cut fell on a line end. */
  lemma {:induction false} CutLines(s: Bytes, limit: nat, i: nat)
    requires 0 < limit && limit + 2 <= |s| && i < |Lines(s[..limit])|
    ensures i < |Lines(s)|
    ensures i < |Lines(s[..limit])| - 1 ==> Lines(s)[i] == Lines(s[..limit])[i]
    ensures i == |Lines(s[..limit])| - 1 ==> (Lines(s)[i] == Lines(s[..limit])[i] <==> CutAtLineEnd(s, limit))
    decreases |s|
  {
    hide StripReturn;
    hide CutAtLineEnd;
    hide Lines;
    var k := LineEnd(s);
    if limit <= k {
      FirstLineCut(s, limit);
    } else {
      LaterLineCut(s, limit);
      var rest := s[k + 1..];
      if i > 0 {
        NoLines();
        CutLines(rest, limit - k - 1, i - 1);
      } else if limit > k + 1 {
        LinesOfSome(rest[..limit - k - 1]);
      } else {
        NoLines();
      }
    }
  }

  lemma NoLines()
    ensures Lines([]) == []
  {
  }

  lemma LinesOfSome(s: Bytes)
    requires s != []
    ensures Lines(s) != []
  {
  }

  lemma {:induction false} AsciiIsUtf8(s: Bytes)
    requires forall i :: 0 <= i < |s| ==> s[i] < 0x80
    ensures Utf8(s)
  {
    if s != [] {
      AsciiIsUtf8(s[1..]);
    }
  }
}
