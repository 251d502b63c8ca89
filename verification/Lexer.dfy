/** The lexer that feeds the symbol index: a mask that blanks comments and literals of Rust
    source, and a tokenizer with byte spans and line numbers.

    Spans and lines of tokens are taken in the masked text and reported as those of the source,
    so the mask must not move anything.  The source is bytes; text is taken from them by slices
    that panic inside a character. */
module Lexer {
  import opened Text
  import opened Wrappers

  const FORM_FEED: Byte := 12
  const DOUBLE: Byte := 34
  const HASH: Byte := 35
  const SINGLE: Byte := 39
  const STAR: Byte := 42
  const SLASH: Byte := 47
  const LOWER_B: Byte := 98
  const LOWER_R: Byte := 114

  const MAX_TOKENS: nat := 32768

  predicate Letter(b: Byte) {
    65 <= b <= 90 || 97 <= b <= 122 || b == 95
  }

  predicate WordByte(b: Byte) {
    Letter(b) || 48 <= b <= 57
  }

  predicate At(s: Bytes, i: nat, b: Byte) {
    i < |s| && s[i] == b
  }

  // ----- Where comments and literals end -----

  function HashesEnd(s: Bytes, i: nat): (k: nat)
    requires i <= |s|
    ensures i <= k <= |s| && !At(s, k, HASH) && forall j :: i <= j < k ==> s[j] == HASH
    decreases |s| - i
  {
    if At(s, i, HASH) then HashesEnd(s, i + 1) else i
  }

  /** A double quote followed by enough hashes. */
  predicate ClosesRaw(s: Bytes, i: nat, hashes: nat) {
    At(s, i, DOUBLE) && i + 1 + hashes <= |s| && forall j :: i < j <= i + hashes ==> s[j] == HASH
  }

  function RawClose(s: Bytes, i: nat, hashes: nat): (end: nat)
    requires i <= |s|
    ensures i <= end <= |s| && (end < |s| ==> end > i && (s[end - 1] == DOUBLE || s[end - 1] == HASH))
    decreases |s| - i
  {
    if i == |s| then |s| else if ClosesRaw(s, i, hashes) then i + hashes + 1 else RawClose(s, i + 1, hashes)
  }

  /** Where a raw string that starts at i ends; None if there is none. */
  function RawStringEnd(s: Bytes, i: nat): (end: Option<nat>)
    requires i < |s|
    ensures end.Some? ==> i < end.value <= |s|
  {
    if s[i] != LOWER_R && !(s[i] == LOWER_B && At(s, i + 1, LOWER_R)) then None
    else
      var marker := if s[i] == LOWER_R then i else i + 1;
      var quote := HashesEnd(s, marker + 1);
      if !At(s, quote, DOUBLE) then None else Some(RawClose(s, quote + 1, quote - marker - 1))
  }

  function CommentEnd(s: Bytes, i: nat): (end: nat)
    requires i <= |s|
    ensures i <= end <= |s| && (end < |s| ==> s[end] == NEWLINE)
    decreases |s| - i
  {
    if i == |s| || s[i] == NEWLINE then i else CommentEnd(s, i + 1)
  }

  /** Where a block comment ends, `depth` of which are open. */
  function BlockEnd(s: Bytes, i: nat, depth: nat): (end: nat)
    requires i <= |s|
    ensures i <= end <= |s| && (depth > 0 && end < |s| ==> end > i && s[end - 1] == SLASH) && (depth == 0 ==> end == i)
    decreases |s| - i
  {
    if i == |s| || depth == 0 then i
    else if s[i] == SLASH && At(s, i + 1, STAR) then BlockEnd(s, i + 2, depth + 1)
    else if s[i] == STAR && At(s, i + 1, SLASH) then
      assert s[i + 1] == SLASH;
      BlockEnd(s, i + 2, depth - 1)
    else BlockEnd(s, i + 1, depth)
  }

  /** Where a quoted literal ends: after the first quote that no backslash precedes. */
  function QuoteEnd(s: Bytes, i: nat, quote: Byte): (end: nat)
    requires 0 < i <= |s|
    ensures i <= end <= |s| && (end < |s| ==> end > i && s[end - 1] == quote)
    decreases |s| - i
  {
    if i == |s| then |s| else if s[i] == quote && s[i - 1] != BACKSLASH then i + 1 else QuoteEnd(s, i + 1, quote)
  }

  function WordEnd(s: Bytes, i: nat): (end: nat)
    requires i <= |s|
    ensures i <= end <= |s| && (end < |s| ==> !WordByte(s[end])) && forall j :: i <= j < end ==> WordByte(s[j])
    decreases |s| - i
  {
    if i < |s| && WordByte(s[i]) then WordEnd(s, i + 1) else i
  }

  predicate IsLifetime(s: Bytes, i: nat)
    requires i < |s|
  {
    s[i] == SINGLE && i + 1 < |s| && Letter(s[i + 1]) && !At(s, WordEnd(s, i + 2), SINGLE)
  }

  // ----- The mask -----

  /** The end of the comment or literal that starts at i; None if a byte of code does. */
  function RegionEnd(s: Bytes, i: nat): (end: Option<nat>)
    requires i < |s|
    ensures end.Some? ==> i < end.value <= |s|
  {
    if RawStringEnd(s, i).Some? then RawStringEnd(s, i)
    else if s[i] == SLASH && At(s, i + 1, SLASH) then Some(CommentEnd(s, i + 2))
    else if s[i] == SLASH && At(s, i + 1, STAR) then Some(BlockEnd(s, i + 2, 1))
    else if IsLifetime(s, i) then None
    else if s[i] == SINGLE || s[i] == DOUBLE then Some(QuoteEnd(s, i + 1, s[i]))
    else None
  }

  function BlankByte(b: Byte): Byte {
    if b == NEWLINE then NEWLINE else SPACE
  }

  function Blank(s: Bytes): (t: Bytes)
    ensures |t| == |s| && forall k :: 0 <= k < |t| ==> t[k] == BlankByte(s[k])
  {
    seq(|s|, k requires 0 <= k < |s| => BlankByte(s[k]))
  }

  /** The masked source from i on. */
  function MaskFrom(s: Bytes, i: nat): (m: Bytes)
    requires i <= |s|
    ensures |m| == |s| - i
    decreases |s| - i
  {
    if i == |s| then []
    else
      var end := RegionEnd(s, i);
      if end.Some? then Blank(s[i..end.value]) + MaskFrom(s, end.value) else [s[i]] + MaskFrom(s, i + 1)
  }

  function Mask(s: Bytes): (m: Bytes)
    ensures |m| == |s|
  {
    MaskFrom(s, 0)
  }

  // ----- The code -----

  method SkipHashes(s: Bytes, start: nat) returns (quote: nat)
    requires start <= |s|
    ensures quote == HashesEnd(s, start)
  {
    quote := start;
    while At(s, quote, HASH)
      invariant start <= quote <= |s| && HashesEnd(s, start) == HashesEnd(s, quote)
      decreases |s| - quote
    {
      quote := quote + 1;
    }
  }

  method FindRawClose(s: Bytes, start: nat, hashes: nat) returns (end: nat)
    requires start <= |s|
    ensures end == RawClose(s, start, hashes)
  {
    var cursor := start;
    while cursor < |s|
      invariant start <= cursor <= |s| && RawClose(s, start, hashes) == RawClose(s, cursor, hashes)
    {
      if ClosesRaw(s, cursor, hashes) {
        return cursor + hashes + 1;
      }
      cursor := cursor + 1;
    }
    return |s|;
  }

  method FindRawStringEnd(s: Bytes, start: nat) returns (end: Option<nat>)
    requires start < |s|
    ensures end == RawStringEnd(s, start)
  {
    hide HashesEnd;
    hide RawClose;
    var marker: nat;
    if s[start] == LOWER_R {
      marker := start;
    } else if s[start] == LOWER_B && At(s, start + 1, LOWER_R) {
      marker := start + 1;
    } else {
      return None;
    }
    var quote := SkipHashes(s, marker + 1);
    if !At(s, quote, DOUBLE) {
      return None;
    }
    var close := FindRawClose(s, quote + 1, quote - marker - 1);
    return Some(close);
  }

  /** What is masked so far: blanks in a region up to some place, the source after it. */
  twostate predicate BlankedUpTo(masked: array<Byte>, s: Bytes, start: nat, now: nat)
    reads masked
  {
    && masked.Length == |s| && start <= now <= |s|
    && (forall k :: 0 <= k < start ==> masked[k] == old(masked[k]))
    && (forall k :: start <= k < now ==> masked[k] == BlankByte(s[k]))
    && (forall k :: now <= k < |s| ==> masked[k] == s[k])
  }

  predicate SourceFrom(masked: array<Byte>, s: Bytes, i: nat)
    reads masked
  {
    masked.Length == |s| && forall k :: i <= k < |s| ==> masked[k] == s[k]
  }

  method MaskSpan(masked: array<Byte>, s: Bytes, start: nat, end: nat)
    requires SourceFrom(masked, s, start) && start <= end <= |s|
    modifies masked
    ensures BlankedUpTo(masked, s, start, end)
  {
    for k := start to end
      invariant BlankedUpTo(masked, s, start, k)
    {
      if masked[k] != NEWLINE {
        masked[k] := SPACE;
      }
    }
  }

  method MaskLineComment(masked: array<Byte>, s: Bytes, start: nat) returns (index: nat)
    requires SourceFrom(masked, s, start) && At(s, start, SLASH) && At(s, start + 1, SLASH)
    modifies masked
    ensures index == CommentEnd(s, start + 2) && BlankedUpTo(masked, s, start, index)
  {
    masked[start] := SPACE;
    masked[start + 1] := SPACE;
    index := start + 2;
    while index < |s| && s[index] != NEWLINE
      invariant start + 2 <= index <= |s| && CommentEnd(s, start + 2) == CommentEnd(s, index)
      invariant BlankedUpTo(masked, s, start, index)
    {
      masked[index] := SPACE;
      index := index + 1;
    }
  }

  /** Blanks one byte of the source that is no newline. */
  method BlankAt(masked: array<Byte>, s: Bytes, index: nat)
    requires masked.Length == |s| && index < |s| && s[index] != NEWLINE
    modifies masked
    ensures masked[index] == BlankByte(s[index])
    ensures forall k :: 0 <= k < |s| && k != index ==> masked[k] == old(masked[k])
  {
    masked[index] := SPACE;
  }

  /** Masks the two bytes that open or close a block comment. */
  method BlankPair(masked: array<Byte>, s: Bytes, index: nat)
    requires masked.Length == |s| && index + 1 < |s| && s[index] != NEWLINE && s[index + 1] != NEWLINE
    modifies masked
    ensures masked[index] == BlankByte(s[index]) && masked[index + 1] == BlankByte(s[index + 1])
    ensures forall k :: 0 <= k < |s| && k != index && k != index + 1 ==> masked[k] == old(masked[k])
  {
    BlankAt(masked, s, index);
    BlankAt(masked, s, index + 1);
  }

  method BlankUnlessNewline(masked: array<Byte>, s: Bytes, index: nat)
    requires masked.Length == |s| && index < |s| && masked[index] == s[index]
    modifies masked
    ensures masked[index] == BlankByte(s[index])
    ensures forall k :: 0 <= k < |s| && k != index ==> masked[k] == old(masked[k])
  {
    if s[index] != NEWLINE {
      masked[index] := SPACE;
    }
  }

  method MaskBlockComment(masked: array<Byte>, s: Bytes, start: nat) returns (index: nat)
    requires SourceFrom(masked, s, start) && At(s, start, SLASH) && At(s, start + 1, STAR)
    modifies masked
    ensures index == BlockEnd(s, start + 2, 1) && BlankedUpTo(masked, s, start, index)
  {
    hide BlankByte;
    hide BlockEnd;
    var depth: nat := 1;
    BlankPair(masked, s, start);
    index := start + 2;
    while index < |s| && depth > 0
      invariant start + 2 <= index <= |s| && BlockEnd(s, start + 2, 1) == BlockEnd(s, index, depth)
      invariant BlankedUpTo(masked, s, start, index)
    {
      var width;
      width, depth := MaskBlockStep(masked, s, index, depth);
      index := index + width;
    }
    BlockEnded(s, index, depth);
  }

  lemma BlockEnded(s: Bytes, i: nat, depth: nat)
    requires i <= |s| && (i == |s| || depth == 0)
    ensures BlockEnd(s, i, depth) == i
  {
  }

  /** One step inside a block comment: an opening, a closing, or one byte. */
  method MaskBlockStep(masked: array<Byte>, s: Bytes, index: nat, depth: nat) returns (width: nat, after: nat)
    requires masked.Length == |s| && index < |s| && depth > 0 && masked[index] == s[index]
    modifies masked
    ensures 0 < width && index + width <= |s| && BlockEnd(s, index, depth) == BlockEnd(s, index + width, after)
    ensures forall k :: index <= k < index + width ==> masked[k] == BlankByte(s[k])
    ensures forall k :: 0 <= k < |s| && (k < index || index + width <= k) ==> masked[k] == old(masked[k])
  {
    if s[index] == SLASH && At(s, index + 1, STAR) {
      BlankPair(masked, s, index);
      return 2, depth + 1;
    }
    if s[index] == STAR && At(s, index + 1, SLASH) {
      BlankPair(masked, s, index);
      return 2, depth - 1;
    }
    BlankUnlessNewline(masked, s, index);
    return 1, depth;
  }

  method MaskQuoted(masked: array<Byte>, s: Bytes, start: nat) returns (index: nat)
    requires SourceFrom(masked, s, start) && start < |s| && (s[start] == SINGLE || s[start] == DOUBLE)
    modifies masked
    ensures index == QuoteEnd(s, start + 1, s[start]) && BlankedUpTo(masked, s, start, index)
  {
    hide BlankByte;
    var quote := s[start];
    BlankAt(masked, s, start);
    index := start + 1;
    while index < |s|
      invariant start + 1 <= index <= |s| && QuoteEnd(s, start + 1, quote) == QuoteEnd(s, index, quote)
      invariant BlankedUpTo(masked, s, start, index)
    {
      var escaped := index > 0 && s[index - 1] == BACKSLASH;
      BlankUnlessNewline(masked, s, index);
      var done := s[index] == quote && !escaped;
      index := index + 1;
      if done {
        break;
      }
    }
  }

  method LifetimeAt(s: Bytes, index: nat) returns (lifetime: bool)
    requires index < |s|
    ensures lifetime == IsLifetime(s, index)
  {
    if !(s[index] == SINGLE && index + 1 < |s| && Letter(s[index + 1])) {
      return false;
    }
    var end := index + 2;
    while end < |s| && WordByte(s[end])
      invariant index + 2 <= end <= |s| && WordEnd(s, index + 2) == WordEnd(s, end)
    {
      end := end + 1;
    }
    return !At(s, end, SINGLE);
  }

  /** Masks the comment or literal at index, if there is one there. */
  method MaskRegion(masked: array<Byte>, s: Bytes, index: nat) returns (next: nat)
    requires index < |s| && SourceFrom(masked, s, index)
    modifies masked
    ensures var end := RegionEnd(s, index);
      if end.Some? then next == end.value && BlankedUpTo(masked, s, index, next)
      else next == index + 1 && masked[..] == old(masked[..])
  {
    var raw := FindRawStringEnd(s, index);
    if raw.Some? {
      MaskSpan(masked, s, index, raw.value);
      return raw.value;
    }
    if s[index] == SLASH && At(s, index + 1, SLASH) {
      next := MaskLineComment(masked, s, index);
      return;
    }
    if s[index] == SLASH && At(s, index + 1, STAR) {
      next := MaskBlockComment(masked, s, index);
      return;
    }
    var lifetime := LifetimeAt(s, index);
    if !lifetime && (s[index] == SINGLE || s[index] == DOUBLE) {
      next := MaskQuoted(masked, s, index);
      return;
    }
    return index + 1;
  }

  method MaskRust(s: Bytes) returns (m: Bytes)
    ensures m == Mask(s)
  {
    hide MaskFrom;
    hide RegionEnd;
    hide BlankByte;
    hide TailIs;
    var masked := new Byte[|s|](i requires 0 <= i < |s| => s[i]);
    var index := 0;
    TailStarts(s);
    while index < |s|
      invariant 0 <= index <= |s| && SourceFrom(masked, s, index)
      invariant forall k :: 0 <= k < index ==> masked[k] == Mask(s)[k]
      invariant TailIs(s, index)
      decreases |s| - index
    {
      var next := MaskRegion(masked, s, index);
      TailMoves(s, index, next);
      index := next;
    }
    m := masked[..];
  }

  /** From i on, the mask is what masking from i gives. */
  ghost predicate TailIs(s: Bytes, i: nat) {
    i <= |s| && forall k :: i <= k < |s| ==> Mask(s)[k] == MaskFrom(s, i)[k - i]
  }

  lemma TailStarts(s: Bytes)
    ensures TailIs(s, 0)
  {
  }

  lemma TailMoves(s: Bytes, i: nat, next: nat)
    requires i < |s| && TailIs(s, i) && next == if RegionEnd(s, i).Some? then RegionEnd(s, i).value else i + 1
    ensures TailIs(s, next)
    ensures forall k :: i <= k < next ==> Mask(s)[k] == if RegionEnd(s, i).Some? then BlankByte(s[k]) else s[k]
  {
    hide MaskFrom;
    hide RegionEnd;
    hide BlankByte;
    forall k | i <= k < |s|
      ensures k >= next ==> Mask(s)[k] == MaskFrom(s, next)[k - next]
      ensures k < next ==> Mask(s)[k] == if RegionEnd(s, i).Some? then BlankByte(s[k]) else s[k]
    {
      MaskFromAt(s, i, k);
    }
  }

  // ----- What the mask keeps -----

  lemma MaskFromUnfolds(s: Bytes, i: nat)
    requires i < |s|
    ensures var end := RegionEnd(s, i);
      MaskFrom(s, i) ==
        if end.Some? then Blank(s[i..end.value]) + MaskFrom(s, end.value) else [s[i]] + MaskFrom(s, i + 1)
  {
    hide RegionEnd;
  }

  lemma MaskFromAt(s: Bytes, i: nat, k: nat)
    requires i < |s| && i <= k < |s|
    ensures var end := RegionEnd(s, i); var next := if end.Some? then end.value else i + 1;
      MaskFrom(s, i)[k - i] ==
        if k >= next then MaskFrom(s, next)[k - next] else if end.Some? then BlankByte(s[k]) else s[k]
  {
    hide MaskFrom;
    hide RegionEnd;
    hide BlankByte;
    MaskFromUnfolds(s, i);
    var end := RegionEnd(s, i);
    if end.Some? {
      assert k < end.value ==> Blank(s[i..end.value])[k - i] == BlankByte(s[i..end.value][k - i]);
    }
  }

  /** Every byte is kept or becomes a blank, and every newline stays where it is. */
  lemma {:induction false} MaskOnlyBlanks(s: Bytes, i: nat, k: nat)
    requires i <= k < |s|
    ensures var b := MaskFrom(s, i)[k - i];
      (b == s[k] || b == SPACE) && (s[k] == NEWLINE <==> b == NEWLINE)
    decreases |s| - i
  {
    hide MaskFrom;
    hide RegionEnd;
    MaskFromAt(s, i, k);
    var end := RegionEnd(s, i);
    var next := if end.Some? then end.value else i + 1;
    if k >= next {
      MaskOnlyBlanks(s, next, k);
    }
  }

  /** No string opens and no comment starts in the masked source. */
  lemma {:induction false} MaskHasNoOpenings(s: Bytes, i: nat, k: nat)
    requires i <= k < |s|
    ensures var m := MaskFrom(s, i);
      && m[k - i] != DOUBLE
      && (m[k - i] == SLASH && k + 1 < |s| ==> m[k + 1 - i] != SLASH && m[k + 1 - i] != STAR)
    decreases |s| - i
  {
    hide MaskFrom;
    hide RegionEnd;
    MaskFromAt(s, i, k);
    var end := RegionEnd(s, i);
    var next := if end.Some? then end.value else i + 1;
    if k + 1 < |s| {
      MaskFromAt(s, i, k + 1);
    }
    if k >= next {
      MaskHasNoOpenings(s, next, k);
    } else if end.None? {
      CodeIsNoOpening(s, i);
      if k + 1 < |s| {
        MaskOnlyBlanks(s, next, k + 1);
      }
    }
  }

  lemma CodeIsNoOpening(s: Bytes, i: nat)
    requires i < |s| && RegionEnd(s, i).None?
    ensures s[i] != DOUBLE && !(s[i] == SLASH && (At(s, i + 1, SLASH) || At(s, i + 1, STAR)))
  {
  }

  // ----- Quotes and escapes -----

  /** Rust's own rule: a backslash takes the next byte with it, whatever it is. */
  function RustClose(s: Bytes, i: nat, quote: Byte): (k: Option<nat>)
    ensures k.Some? ==> i <= k.value < |s| && s[k.value] == quote
    decreases |s| - i
  {
    if i >= |s| then None
    else if s[i] == BACKSLASH then RustClose(s, i + 2, quote)
    else if s[i] == quote then Some(i) else RustClose(s, i + 1, quote)
  }

  /** The mask ends a literal where Rust does unless a backslash stands before its closing quote,
      as in a string that ends with an escaped backslash, and the source goes on after it. */
  lemma {:induction false} EscapeRuleIff(s: Bytes, i: nat, quote: Byte)
    requires 0 < i <= |s| && quote != BACKSLASH
    ensures var close := RustClose(s, i, quote);
      QuoteEnd(s, i, quote) == (if close.Some? then close.value + 1 else |s|)
      <==> close.None? || s[close.value - 1] != BACKSLASH || close.value + 1 == |s|
    decreases |s| - i
  {
    if i < |s| {
      if s[i] == BACKSLASH {
        if i + 1 < |s| {
          EscapeRuleIff(s, i + 2, quote);
        }
      } else if s[i] != quote {
        EscapeRuleIff(s, i + 1, quote);
      }
    }
  }

  /** A string of one escaped backslash, then a letter: Rust ends the string at its second quote,
      the mask takes the letter for a part of it. */
  lemma EscapedBackslashHidesCode()
    ensures var s: Bytes := [DOUBLE, BACKSLASH, BACKSLASH, DOUBLE, LOWER_B];
      && RustClose(s, 1, DOUBLE) == Some(3) && QuoteEnd(s, 1, DOUBLE) == 5
      && Mask(s)[4] == SPACE
  {
    var s: Bytes := [DOUBLE, BACKSLASH, BACKSLASH, DOUBLE, LOWER_B];
    assert RustClose(s, 3, DOUBLE) == Some(3);
    assert QuoteEnd(s, 5, DOUBLE) == 5;
    assert QuoteEnd(s, 4, DOUBLE) == 5;
    assert QuoteEnd(s, 3, DOUBLE) == 5;
    assert QuoteEnd(s, 2, DOUBLE) == 5 && QuoteEnd(s, 1, DOUBLE) == 5;
    assert RawStringEnd(s, 0).None?;
    assert RegionEnd(s, 0) == Some(5);
    assert s[0..5] == s && Mask(s) == Blank(s) + MaskFrom(s, 5);
  }

  // ----- UTF-8 -----

  lemma CharIsLead(c: Bytes)
    requires ValidChar(c) && |c| == CharLength(c[0])
    ensures !Continuation(c[0]) && (|c| > 1 ==> c[0] >= 0x80) && forall j :: 1 <= j < |c| ==> Continuation(c[j])
  {
  }

  lemma CharBytes(s: Bytes)
    requires s != [] && Utf8(s)
    ensures var n := CharLength(s[0]);
      && n <= |s| && !Continuation(s[0]) && Utf8(s[n..])
      && (n > 1 ==> s[0] >= 0x80) && forall j :: 1 <= j < n ==> Continuation(s[j])
  {
    hide ValidChar;
    hide Continuation;
    var n := CharLength(s[0]);
    CharIsLead(s[..n]);
    forall j | 1 <= j < n ensures Continuation(s[j]) {
      assert s[..n][j] == s[j];
    }
  }

  /** A valid text can be cut before any byte that is not a continuation. */
  lemma {:induction false} Utf8Suffix(s: Bytes, k: nat)
    requires Utf8(s) && k <= |s| && (k < |s| ==> !Continuation(s[k]))
    ensures Utf8(s[k..])
    decreases |s|
  {
    if k > 0 {
      var n := CharLength(s[0]);
      CharBytes(s);
      assert k >= n;
      assert s[n..][k - n..] == s[k..];
      Utf8Suffix(s[n..], k - n);
    } else {
      assert s[0..] == s;
    }
  }

  lemma {:induction false} AfterAscii(s: Bytes, k: nat)
    requires Utf8(s) && 0 < k < |s| && s[k - 1] < 0x80
    ensures !Continuation(s[k])
    decreases |s|
  {
    var n := CharLength(s[0]);
    CharBytes(s);
    if k > n {
      AfterAscii(s[n..], k - n);
    } else if k == n {
      CharBytes(s[n..]);
      assert s[n..][0] == s[k];
    }
  }

  lemma Utf8Cons(c: Bytes, rest: Bytes)
    requires ValidChar(c) && Utf8(rest)
    ensures Utf8(c + rest)
  {
    var s := c + rest;
    assert s[..|c|] == c && s[|c|..] == rest;
  }

  lemma {:induction false} Utf8Blank(b: Bytes, rest: Bytes)
    requires Utf8(rest) && forall k :: 0 <= k < |b| ==> b[k] == SPACE || b[k] == NEWLINE
    ensures Utf8(b + rest)
  {
    hide Utf8;
    if b == [] {
      assert b + rest == rest;
    } else {
      Utf8Blank(b[1..], rest);
      Utf8Cons([b[0]], b[1..] + rest);
      assert b + rest == [b[0]] + (b[1..] + rest);
    }
  }

  /** Comments and literals end at the end of the source, after an ASCII byte or at a newline. */
  lemma RegionEndsCleanly(s: Bytes, i: nat)
    requires i < |s| && RegionEnd(s, i).Some?
    ensures var end := RegionEnd(s, i).value; end == |s| || s[end - 1] < 0x80 || s[end] == NEWLINE
  {
  }

  lemma {:induction false} HighBytesAreKept(s: Bytes, i: nat, n: nat)
    requires i + n <= |s| && forall j :: i <= j < i + n ==> s[j] >= 0x80
    ensures MaskFrom(s, i) == s[i..i + n] + MaskFrom(s, i + n)
    decreases n
  {
    hide MaskFrom;
    hide RegionEnd;
    if n == 0 {
      assert s[i..i] == [];
    } else {
      HighBytesAreKept(s, i + 1, n - 1);
      HighByteIsKept(s, i);
      assert s[i..i + n] == [s[i]] + s[i + 1..i + n];
    }
  }

  lemma HighByteIsKept(s: Bytes, i: nat)
    requires i < |s| && s[i] >= 0x80
    ensures MaskFrom(s, i) == [s[i]] + MaskFrom(s, i + 1)
  {
  }

  lemma RegionLeavesUtf8(s: Bytes, i: nat)
    requires i < |s| && Utf8(s[i..]) && RegionEnd(s, i).Some?
    ensures Utf8(s[RegionEnd(s, i).value..])
  {
    var end := RegionEnd(s, i).value;
    RegionEndsCleanly(s, i);
    var t := s[i..];
    if end < |s| {
      assert t[end - i] == s[end] && t[end - i - 1] == s[end - 1];
      if s[end] != NEWLINE {
        AfterAscii(t, end - i);
      }
    }
    Utf8Suffix(t, end - i);
    assert t[end - i..] == s[end..];
  }

  /** Masking keeps valid UTF-8 valid, so the masked text is never lost in the conversion back to
      a string. */
  lemma {:induction false} MaskFromKeepsUtf8(s: Bytes, i: nat)
    requires i <= |s| && Utf8(s[i..])
    ensures Utf8(MaskFrom(s, i))
    decreases |s| - i
  {
    hide RegionEnd;
    hide Utf8;
    if i == |s| {
      NothingIsUtf8();
    } else if RegionEnd(s, i).Some? {
      var end := RegionEnd(s, i).value;
      RegionLeavesUtf8(s, i);
      MaskFromKeepsUtf8(s, end);
      Utf8Blank(Blank(s[i..end]), MaskFrom(s, end));
    } else {
      CharIsKept(s, i);
      var n := CharLength(s[i]);
      MaskFromKeepsUtf8(s, i + n);
      Utf8Cons(s[i..i + n], MaskFrom(s, i + n));
    }
  }

  lemma NothingIsUtf8()
    ensures Utf8([])
  {
  }

  lemma CharIsKept(s: Bytes, i: nat)
    requires i < |s| && Utf8(s[i..]) && RegionEnd(s, i).None?
    ensures var n := CharLength(s[i]);
      && i + n <= |s| && ValidChar(s[i..i + n]) && Utf8(s[i + n..])
      && MaskFrom(s, i) == s[i..i + n] + MaskFrom(s, i + n)
  {
    hide RegionEnd;
    var t, n := s[i..], CharLength(s[i]);
    CharBytes(t);
    assert t[..n] == s[i..i + n] && t[n..] == s[i + n..];
    if n == 1 {
      assert s[i..i + 1] == [s[i]];
    } else {
      forall j | i <= j < i + n ensures s[j] >= 0x80 {
        assert s[j] == t[j - i];
      }
      HighBytesAreKept(s, i, n);
    }
  }

  lemma MaskKeepsUtf8(s: Bytes)
    requires Utf8(s)
    ensures Utf8(Mask(s))
  {
    assert s[0..] == s;
    MaskFromKeepsUtf8(s, 0);
  }

  // ----- Tokens -----

  datatype Token = Token(start: nat, end: nat, line: nat)

  predicate Whitespace(b: Byte) {
    b == TAB || b == NEWLINE || b == FORM_FEED || b == RETURN || b == SPACE
  }

  function TokenEnd(s: Bytes, i: nat): (end: nat)
    requires i < |s|
    ensures i < end <= |s|
  {
    if Letter(s[i]) then WordEnd(s, i + 1) else i + 1
  }

  /** At most `room` tokens from i on; `line` is the line of i. */
  function Tokens(s: Bytes, i: nat, line: nat, room: nat): (ts: seq<Token>)
    requires i <= |s|
    ensures |ts| <= room
    decreases |s| - i
  {
    if i == |s| || room == 0 then []
    else if Whitespace(s[i]) then Tokens(s, i + 1, if s[i] == NEWLINE then line + 1 else line, room)
    else [Token(i, TokenEnd(s, i), line)] + Tokens(s, TokenEnd(s, i), line, room - 1)
  }

  method Tokenize(s: Bytes) returns (tokens: seq<Token>)
    ensures tokens == Tokens(s, 0, 1, MAX_TOKENS)
  {
    hide TokenEnd;
    hide WordEnd;
    tokens := [];
    var index, line: nat := 0, 1;
    while index < |s| && |tokens| < MAX_TOKENS
      invariant 0 <= index <= |s| && |tokens| <= MAX_TOKENS
      invariant tokens + Tokens(s, index, line, MAX_TOKENS - |tokens|) == Tokens(s, 0, 1, MAX_TOKENS)
    {
      if Whitespace(s[index]) {
        if s[index] == NEWLINE {
          line := line + 1;
        }
        index := index + 1;
        continue;
      }
      var start := index;
      index := FindTokenEnd(s, start);
      ghost var rest := Tokens(s, index, line, MAX_TOKENS - |tokens| - 1);
      assert tokens + ([Token(start, index, line)] + rest) == tokens + [Token(start, index, line)] + rest;
      tokens := tokens + [Token(start, index, line)];
    }
    assert Tokens(s, index, line, MAX_TOKENS - |tokens|) == [];
  }

  method FindTokenEnd(s: Bytes, start: nat) returns (index: nat)
    requires start < |s|
    ensures index == TokenEnd(s, start)
  {
    index := start + 1;
    if Letter(s[start]) {
      while index < |s| && WordByte(s[index])
        invariant start < index <= |s| && WordEnd(s, start + 1) == WordEnd(s, index)
      {
        index := index + 1;
      }
    }
  }

  function Newlines(s: Bytes, from: nat, to: nat): nat
    requires from <= to <= |s|
  {
    if from == to then 0 else Newlines(s, from, to - 1) + if s[to - 1] == NEWLINE then 1 else 0
  }

  lemma {:induction false} NewlinesSplit(s: Bytes, from: nat, mid: nat, to: nat)
    requires from <= mid <= to <= |s|
    ensures Newlines(s, from, to) == Newlines(s, from, mid) + Newlines(s, mid, to)
  {
    if mid < to {
      NewlinesSplit(s, from, mid, to - 1);
    }
  }

  lemma {:induction false} NoNewlines(s: Bytes, from: nat, to: nat)
    requires from <= to <= |s| && forall k :: from <= k < to ==> s[k] != NEWLINE
    ensures Newlines(s, from, to) == 0
  {
    if from < to {
      NoNewlines(s, from, to - 1);
    }
  }

  lemma TokenHasNoNewline(s: Bytes, i: nat)
    requires i < |s| && !Whitespace(s[i])
    ensures Newlines(s, i, TokenEnd(s, i)) == 0
  {
    NoNewlines(s, i, TokenEnd(s, i));
  }

  /** A token is the longest word at its start, or one other byte. */
  predicate IsWord(s: Bytes, t: Token) {
    && t.start < t.end <= |s| && !Whitespace(s[t.start])
    && (!Letter(s[t.start]) ==> t.end == t.start + 1)
    && (Letter(s[t.start]) ==> forall k :: t.start <= k < t.end ==> WordByte(s[k]))
    && (Letter(s[t.start]) && t.end < |s| ==> !WordByte(s[t.end]))
  }

  lemma WordEndsThere(s: Bytes, t: Token)
    requires t.start < |s| && !Whitespace(s[t.start])
    ensures IsWord(s, t) <==> t.end == TokenEnd(s, t.start)
  {
    assert Letter(s[t.start]) ==> WordByte(s[t.start]);
  }

  /** The line of a token counts the newlines before it. */
  predicate TokenIsRight(s: Bytes, i: nat, line: nat, t: Token)
    requires i <= |s|
  {
    i <= t.start && IsWord(s, t) && t.line == line + Newlines(s, i, t.start)
  }

  lemma {:induction false} TokensAreRight(s: Bytes, i: nat, line: nat, room: nat, j: nat)
    requires i <= |s| && j < |Tokens(s, i, line, room)|
    ensures TokenIsRight(s, i, line, Tokens(s, i, line, room)[j])
    decreases |s| - i
  {
    if Whitespace(s[i]) {
      var next := if s[i] == NEWLINE then line + 1 else line;
      TokensAreRight(s, i + 1, next, room, j);
      var t := Tokens(s, i, line, room)[j];
      NewlinesSplit(s, i, i + 1, t.start);
      assert Newlines(s, i, i) == 0;
    } else if j > 0 {
      var end := TokenEnd(s, i);
      TokensAreRight(s, end, line, room - 1, j - 1);
      var t := Tokens(s, i, line, room)[j];
      TokenHasNoNewline(s, i);
      NewlinesSplit(s, i, end, t.start);
    } else {
      WordEndsThere(s, Token(i, TokenEnd(s, i), line));
    }
  }

  /** Token spans do not overlap and come in order. */
  lemma {:induction false} TokensAreOrdered(s: Bytes, i: nat, line: nat, room: nat, j: nat)
    requires i <= |s| && j + 1 < |Tokens(s, i, line, room)|
    ensures Tokens(s, i, line, room)[j].end <= Tokens(s, i, line, room)[j + 1].start
    decreases |s| - i
  {
    if Whitespace(s[i]) {
      TokensAreOrdered(s, i + 1, if s[i] == NEWLINE then line + 1 else line, room, j);
    } else if j > 0 {
      TokensAreOrdered(s, TokenEnd(s, i), line, room - 1, j - 1);
    } else {
      TokensAreRight(s, TokenEnd(s, i), line, room - 1, 0);
    }
  }

  predicate InToken(ts: seq<Token>, k: nat) {
    exists j :: 0 <= j < |ts| && ts[j].start <= k < ts[j].end
  }

  /** Every byte is whitespace or in a token, up to the point where the tokens run out. */
  lemma {:induction false} TokensCover(s: Bytes, i: nat, line: nat, room: nat, k: nat)
    requires i <= k < |s|
    ensures var ts := Tokens(s, i, line, room);
      Whitespace(s[k]) || InToken(ts, k) || (|ts| == room && forall j :: 0 <= j < |ts| ==> ts[j].end <= k)
    decreases |s| - i
  {
    if room > 0 {
      var ts := Tokens(s, i, line, room);
      if Whitespace(s[i]) {
        if k > i {
          TokensCover(s, i + 1, if s[i] == NEWLINE then line + 1 else line, room, k);
        }
      } else if k < TokenEnd(s, i) {
        assert ts[0].start <= k < ts[0].end;
      } else {
        var rest := Tokens(s, TokenEnd(s, i), line, room - 1);
        TokensCover(s, TokenEnd(s, i), line, room - 1, k);
        assert forall j :: 0 <= j < |rest| ==> ts[j + 1] == rest[j];
        assert forall j :: 1 <= j < |ts| ==> ts[j] == rest[j - 1];
      }
    }
  }

  // ----- Tokens of the masked source -----

  lemma {:induction false} MaskKeepsNewlines(s: Bytes, from: nat, to: nat)
    requires from <= to <= |s|
    ensures Newlines(Mask(s), from, to) == Newlines(s, from, to)
  {
    if from < to {
      MaskKeepsNewlines(s, from, to - 1);
      MaskOnlyBlanks(s, 0, to - 1);
    }
  }

  /** The lines of tokens, counted in the masked text, are lines of the source. */
  lemma TokenLinesAreSourceLines(s: Bytes, j: nat)
    requires j < |Tokens(Mask(s), 0, 1, MAX_TOKENS)|
    ensures var t := Tokens(Mask(s), 0, 1, MAX_TOKENS)[j];
      t.start < t.end <= |s| && t.line == 1 + Newlines(s, 0, t.start)
  {
    TokensAreRight(Mask(s), 0, 1, MAX_TOKENS, j);
    MaskKeepsNewlines(s, 0, Tokens(Mask(s), 0, 1, MAX_TOKENS)[j].start);
  }

  /** Taking the text of a token panics unless both ends are character boundaries. */
  predicate Sliceable(s: Bytes, t: Token) {
    t.start <= t.end <= |s| && CharBoundary(s, t.start) && CharBoundary(s, t.end)
  }

  /** The text of a token can be taken exactly when the token starts with an ASCII byte, that is,
      unless a character outside ASCII stands outside comments and literals. */
  lemma TokenIsSliceableIff(s: Bytes, t: Token)
    requires Utf8(s) && t.start < |s| && t.end == TokenEnd(s, t.start)
    ensures Sliceable(s, t) <==> s[t.start] < 0x80
  {
    if t.start == 0 {
      CharBytes(s);
    }
    if s[t.start] < 0x80 {
      if t.end < |s| {
        AfterAscii(s, t.end);
      }
    } else if !Continuation(s[t.start]) {
      LeadIsFollowed(s, t.start);
    }
  }

  lemma LeadIsFollowed(s: Bytes, k: nat)
    requires Utf8(s) && k < |s| && s[k] >= 0xC0
    ensures k + 1 < |s| && Continuation(s[k + 1])
  {
    Utf8Suffix(s, k);
    CharBytes(s[k..]);
    assert s[k..][1] == s[k + 1];
  }

  /** How much of a text its tokens account for: all of it, unless the tokens ran out. */
  function Covered(m: Bytes): (upTo: nat)
  {
    var ts := Tokens(m, 0, 1, MAX_TOKENS);
    if |ts| < MAX_TOKENS then |m| else ts[|ts| - 1].end
  }

  lemma {:induction false} TokensEndEarly(s: Bytes, i: nat, line: nat, room: nat, j: nat)
    requires i <= |s| && j < |Tokens(s, i, line, room)|
    ensures var ts := Tokens(s, i, line, room); ts[j].start < ts[j].end <= ts[|ts| - 1].end <= |s|
    decreases |s| - i
  {
    if Whitespace(s[i]) {
      TokensEndEarly(s, i + 1, if s[i] == NEWLINE then line + 1 else line, room, j);
    } else {
      var rest := Tokens(s, TokenEnd(s, i), line, room - 1);
      if rest != [] {
        TokensEndEarly(s, TokenEnd(s, i), line, room - 1, if j > 0 then j - 1 else 0);
        TokensAreRight(s, TokenEnd(s, i), line, room - 1, 0);
        TokensEndEarly(s, TokenEnd(s, i), line, room - 1, 0);
      }
    }
  }

  lemma StartsInText(s: Bytes, t: Token)
    requires IsWord(s, t)
    ensures t.start < t.end <= |s| && !Whitespace(s[t.start])
  {
  }

  /** A byte outside ASCII is a token of its own. */
  lemma HighByteIsToken(s: Bytes, k: nat, t: Token)
    requires t.start <= k < t.end && t.start < |s| && t.end == TokenEnd(s, t.start) && s[k] >= 0x80
    ensures t.start == k
  {
  }

  /** All tokens of a source can be sliced exactly when no character outside ASCII stands outside
      comments and literals, as far as the tokens reach. */
  lemma TokensAreSliceableIff(s: Bytes)
    requires Utf8(s)
    ensures var m := Mask(s); var ts := Tokens(m, 0, 1, MAX_TOKENS);
      (forall j :: 0 <= j < |ts| ==> Sliceable(m, ts[j])) <==>
      (forall k :: 0 <= k < Covered(m) && k < |m| ==> m[k] < 0x80)
  {
    hide Tokens;
    hide TokenEnd;
    hide IsWord;
    hide Sliceable;
    hide Utf8;
    var m := Mask(s);
    var ts := Tokens(m, 0, 1, MAX_TOKENS);
    MaskKeepsUtf8(s);
    forall j | 0 <= j < |ts|
      ensures ts[j].start < |m| && ts[j].start < Covered(m) && (Sliceable(m, ts[j]) <==> m[ts[j].start] < 0x80)
    {
      TokensAreRight(m, 0, 1, MAX_TOKENS, j);
      StartsInText(m, ts[j]);
      WordEndsThere(m, ts[j]);
      TokensEndEarly(m, 0, 1, MAX_TOKENS, j);
      TokenIsSliceableIff(m, ts[j]);
    }
    forall k | 0 <= k < Covered(m) && k < |m| && m[k] >= 0x80 ensures exists j :: 0 <= j < |ts| && ts[j].start == k {
      TokensCover(m, 0, 1, MAX_TOKENS, k);
      assert ts != [] && |ts| == MAX_TOKENS ==> ts[|ts| - 1].end > k;
      var j :| 0 <= j < |ts| && ts[j].start <= k < ts[j].end;
      TokensAreRight(m, 0, 1, MAX_TOKENS, j);
      StartsInText(m, ts[j]);
      WordEndsThere(m, ts[j]);
      HighByteIsToken(m, k, ts[j]);
    }
  }

  /** A source of one letter outside ASCII makes the parser panic. */
  lemma LetterOutsideAsciiPanics()
    ensures var s: Bytes := [0xC3, 0xA9]; var ts := Tokens(Mask(s), 0, 1, MAX_TOKENS);
      Utf8(s) && ts != [] && !Sliceable(Mask(s), ts[0])
  {
    var s: Bytes := [0xC3, 0xA9];
    assert s[..2] == s && s[2..] == [] && Utf8(s);
    assert MaskFrom(s, 2) == [] && MaskFrom(s, 1) == [0xA9];
    assert Mask(s) == s;
  }
}
