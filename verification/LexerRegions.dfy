/** What the mask takes for comments and literals. */
module LexerRegions {
  // The regions of a source by the rules of their kinds, and the mask in terms of them.

  import opened Lexer
  import opened Text
  import opened Wrappers

  // ----- Block comments -----

  predicate OpensBlock(s: Bytes, i: nat) {
    i + 1 < |s| && s[i] == SLASH && s[i + 1] == STAR
  }

  predicate ClosesBlock(s: Bytes, i: nat) {
    i + 1 < |s| && s[i] == STAR && s[i + 1] == SLASH
  }

  /** From i to e there are whole comments, and bytes that neither open nor close one. */
  ghost predicate BlockBody(s: Bytes, i: nat, e: nat)
    decreases e - i, 1
  {
    || i == e
    || (i < e <= |s| && !OpensBlock(s, i) && !ClosesBlock(s, i) && BlockBody(s, i + 1, e))
    || (exists mid: nat :: i < mid <= e && BlockComment(s, i, mid) && BlockBody(s, mid, e))
  }

  /** A comment with its nested ones. */
  ghost predicate BlockComment(s: Bytes, i: nat, e: nat)
    decreases e - i, 0
  {
    i + 4 <= e <= |s| && OpensBlock(s, i) && ClosesBlock(s, e - 2) && BlockBody(s, i + 2, e - 2)
  }

  /** From i on, so many open comments are closed by e. */
  ghost predicate Closes(s: Bytes, i: nat, depth: nat, e: nat)
    decreases depth
  {
    if depth == 0 then e == i
    else exists k: nat :: i <= k && BlockBody(s, i, k) && ClosesBlock(s, k) && Closes(s, k + 2, depth - 1, e)
  }

  lemma BodyOpens(s: Bytes, i: nat, k: nat) returns (mid: nat)
    requires i <= k && BlockBody(s, i, k) && ClosesBlock(s, k) && OpensBlock(s, i)
    ensures i + 4 <= mid <= k && BlockComment(s, i, mid) && BlockBody(s, mid, k)
  {
    mid :| i < mid <= k && BlockComment(s, i, mid) && BlockBody(s, mid, k);
  }

  lemma BodyPasses(s: Bytes, i: nat, k: nat)
    requires i <= k && BlockBody(s, i, k) && ClosesBlock(s, k) && !OpensBlock(s, i)
    ensures if ClosesBlock(s, i) then k == i else i < k && BlockBody(s, i + 1, k)
  {
  }

  lemma ClosesAfter(s: Bytes, i: nat, k: nat, depth: nat, e: nat)
    requires i <= k && BlockBody(s, i, k) && ClosesBlock(s, k) && Closes(s, k + 2, depth, e)
    ensures Closes(s, i, depth + 1, e)
  {
  }

  lemma ClosesFirst(s: Bytes, i: nat, depth: nat, e: nat) returns (k: nat)
    requires depth > 0 && Closes(s, i, depth, e)
    ensures i <= k && BlockBody(s, i, k) && ClosesBlock(s, k) && Closes(s, k + 2, depth - 1, e)
  {
    k :| i <= k && BlockBody(s, i, k) && ClosesBlock(s, k) && Closes(s, k + 2, depth - 1, e);
  }

  lemma ClosesNone(s: Bytes, i: nat, e: nat)
    ensures Closes(s, i, 0, e) <==> e == i
  {
  }

  lemma {:induction false} ClosedIsEnd(s: Bytes, i: nat, depth: nat, e: nat)
    requires i <= |s| && Closes(s, i, depth, e)
    ensures BlockEnd(s, i, depth) == e
    decreases |s| - i
  {
    hide BlockBody;
    hide Closes;
    if depth == 0 {
      ClosesNone(s, i, e);
    } else {
      var k := ClosesFirst(s, i, depth, e);
      if OpensBlock(s, i) {
        var mid := BodyOpens(s, i, k);
        ClosesAfter(s, mid, k, depth - 1, e);
        ClosesAfter(s, i + 2, mid - 2, depth, e);
        ClosedIsEnd(s, i + 2, depth + 1, e);
      } else {
        BodyPasses(s, i, k);
        if ClosesBlock(s, i) {
          ClosedIsEnd(s, i + 2, depth - 1, e);
        } else {
          ClosesAfter(s, i + 1, k, depth - 1, e);
          ClosedIsEnd(s, i + 1, depth, e);
        }
      }
    }
  }

  lemma EmptyBody(s: Bytes, i: nat)
    ensures BlockBody(s, i, i)
  {
  }

  lemma BodyGrows(s: Bytes, i: nat, mid: nat, k: nat)
    requires i < mid <= k && BlockBody(s, mid, k) && k <= |s|
    requires BlockComment(s, i, mid) || (mid == i + 1 && !OpensBlock(s, i) && !ClosesBlock(s, i))
    ensures BlockBody(s, i, k)
  {
  }

  lemma {:induction false} EndIsClosed(s: Bytes, i: nat, depth: nat)
    requires i <= |s| && BlockEnd(s, i, depth) < |s|
    ensures Closes(s, i, depth, BlockEnd(s, i, depth))
    decreases |s| - i
  {
    hide BlockBody;
    hide Closes;
    var e := BlockEnd(s, i, depth);
    if depth == 0 {
      ClosesNone(s, i, e);
    } else {
      if OpensBlock(s, i) {
        EndIsClosed(s, i + 2, depth + 1);
        var k := ClosesFirst(s, i + 2, depth + 1, e);
        assert BlockComment(s, i, k + 2);
        var m := ClosesFirst(s, k + 2, depth, e);
        BodyGrows(s, i, k + 2, m);
        ClosesAfter(s, i, m, depth - 1, e);
      } else if ClosesBlock(s, i) {
        EndIsClosed(s, i + 2, depth - 1);
        EmptyBody(s, i);
        ClosesAfter(s, i, i, depth - 1, e);
      } else {
        EndIsClosed(s, i + 1, depth);
        var k := ClosesFirst(s, i + 1, depth, e);
        BodyGrows(s, i, i + 1, k);
        ClosesAfter(s, i, k, depth - 1, e);
      }
    }
  }

  lemma CommentCloses(s: Bytes, i: nat, e: nat)
    requires OpensBlock(s, i)
    ensures BlockComment(s, i, e) <==> Closes(s, i + 2, 1, e)
  {
    if BlockComment(s, i, e) {
      var k: nat := e - 2;
      assert BlockBody(s, i + 2, k) && ClosesBlock(s, k) && Closes(s, k + 2, 0, e);
    }
    if Closes(s, i + 2, 1, e) {
      var k: nat :| i + 2 <= k && BlockBody(s, i + 2, k) && ClosesBlock(s, k) && Closes(s, k + 2, 0, e);
    }
  }

  /** A block comment ends with itself, or with the source when nothing closes it. */
  ghost predicate BlockAt(s: Bytes, i: nat, e: nat) {
    OpensBlock(s, i) && (BlockComment(s, i, e) || (e == |s| && forall c: nat :: !BlockComment(s, i, c)))
  }

  lemma BlockIs(s: Bytes, i: nat, e: nat)
    requires OpensBlock(s, i)
    ensures BlockAt(s, i, e) <==> BlockEnd(s, i + 2, 1) == e
  {
    hide BlockComment;
    hide BlockEnd;
    hide Closes;
    var end := BlockEnd(s, i + 2, 1);
    if end < |s| {
      EndIsClosed(s, i + 2, 1);
      CommentCloses(s, i, end);
    }
    forall c: nat | BlockComment(s, i, c) ensures end == c {
      CommentCloses(s, i, c);
      ClosedIsEnd(s, i + 2, 1, c);
    }
  }

  // ----- The other regions -----

  /** A line comment goes up to the end of its line. */
  predicate LineAt(s: Bytes, i: nat, e: nat) {
    && i + 2 <= e <= |s| && s[i] == SLASH && s[i + 1] == SLASH
    && (e < |s| ==> s[e] == NEWLINE) && forall j :: i + 2 <= j < e ==> s[j] != NEWLINE
  }

  /** A double quote with so many hashes after it. */
  predicate RawEnds(s: Bytes, k: nat, hashes: nat) {
    k + 1 + hashes <= |s| && s[k] == DOUBLE && forall j :: k < j <= k + hashes ==> s[j] == HASH
  }

  /** A raw string: its marker, hashes and a double quote, and its first end after them. */
  predicate RawOpens(s: Bytes, i: nat, quote: nat, hashes: nat) {
    && i < |s| && quote < |s| && s[quote] == DOUBLE
    && ((s[i] == LOWER_R && quote == i + 1 + hashes)
        || (s[i] == LOWER_B && quote == i + 2 + hashes && s[i + 1] == LOWER_R))
    && forall j :: quote - hashes <= j < quote ==> s[j] == HASH
  }

  /** The first end at i or later, or that of the source when there is none. */
  predicate ClosesFrom(s: Bytes, i: nat, hashes: nat, e: nat) {
    || (i + 1 + hashes <= e <= |s| && RawEnds(s, e - 1 - hashes, hashes)
        && forall k :: i <= k < e - 1 - hashes ==> !RawEnds(s, k, hashes))
    || (e == |s| && forall k :: i <= k < |s| ==> !RawEnds(s, k, hashes))
  }

  ghost predicate RawAt(s: Bytes, i: nat, e: nat) {
    exists quote: nat, hashes: nat :: RawOpens(s, i, quote, hashes) && ClosesFrom(s, quote + 1, hashes, e)
  }


  /** A lifetime: a single quote and a word with no quote after it. */
  predicate LifetimeAt(s: Bytes, i: nat, e: nat) {
    && i + 2 <= e <= |s| && s[i] == SINGLE && Letter(s[i + 1])
    && (forall j :: i + 2 <= j < e ==> WordByte(s[j])) && (e < |s| ==> !WordByte(s[e]) && s[e] != SINGLE)
  }

  predicate StartsLifetime(s: Bytes, i: nat) {
    exists e :: i < e <= |s| && LifetimeAt(s, i, e)
  }

  /** A quote that no backslash precedes. */
  predicate QuoteAt(s: Bytes, i: nat, quote: Byte) {
    0 < i < |s| && s[i] == quote && s[i - 1] != BACKSLASH
  }

  /** A literal goes up to the next quote of its kind that no backslash precedes. */
  predicate LiteralAt(s: Bytes, i: nat, e: nat) {
    && i < e <= |s| && (s[i] == SINGLE || s[i] == DOUBLE) && !StartsLifetime(s, i)
    && (forall k :: i < k < e - 1 ==> !QuoteAt(s, k, s[i]))
    && ((e - 1 > i && QuoteAt(s, e - 1, s[i])) || (e == |s| && (e - 1 == i || !QuoteAt(s, e - 1, s[i]))))
  }

  lemma {:induction false} CommentEndIs(s: Bytes, i: nat, e: nat)
    requires i <= |s|
    ensures CommentEnd(s, i) == e <==>
      i <= e <= |s| && (e < |s| ==> s[e] == NEWLINE) && forall j :: i <= j < e ==> s[j] != NEWLINE
    decreases |s| - i
  {
    if i < |s| && s[i] != NEWLINE {
      CommentEndIs(s, i + 1, e);
    }
  }

  lemma {:induction false} QuoteEndIs(s: Bytes, i: nat, quote: Byte)
    requires 0 < i <= |s|
    ensures var e := QuoteEnd(s, i, quote);
      && (forall k :: i <= k < e - 1 ==> !QuoteAt(s, k, quote))
      && ((e > i && QuoteAt(s, e - 1, quote)) || (e == |s| && (e == i || !QuoteAt(s, e - 1, quote))))
    decreases |s| - i
  {
    if i < |s| && !(s[i] == quote && s[i - 1] != BACKSLASH) {
      QuoteEndIs(s, i + 1, quote);
    }
  }

  lemma {:induction false} RawCloseIs(s: Bytes, i: nat, hashes: nat)
    requires i <= |s|
    ensures ClosesFrom(s, i, hashes, RawClose(s, i, hashes))
    decreases |s| - i
  {
    if i < |s| && !ClosesRaw(s, i, hashes) {
      RawCloseIs(s, i + 1, hashes);
    }
  }

  lemma LifetimeIs(s: Bytes, i: nat)
    requires i < |s|
    ensures IsLifetime(s, i) <==> StartsLifetime(s, i)
  {
    if IsLifetime(s, i) {
      assert LifetimeAt(s, i, WordEnd(s, i + 2));
    }
    if e :| i < e <= |s| && LifetimeAt(s, i, e) {
      var w := WordEnd(s, i + 2);
      assert w == e;
    }
  }

  // ----- The mask in terms of regions -----

  /** A comment or literal from i to e. */
  ghost predicate RegionAt(s: Bytes, i: nat, e: nat) {
    i < |s| && (RawAt(s, i, e) || LineAt(s, i, e) || BlockAt(s, i, e) || LiteralAt(s, i, e))
  }

  ghost predicate StartsRegion(s: Bytes, i: nat) {
    exists e: nat :: RegionAt(s, i, e)
  }

  function Marker(s: Bytes, i: nat): nat {
    if At(s, i, LOWER_R) then i else i + 1
  }

  lemma RawOpensIs(s: Bytes, i: nat, quote: nat, hashes: nat)
    requires i < |s|
    ensures RawOpens(s, i, quote, hashes) <==>
      && (s[i] == LOWER_R || (s[i] == LOWER_B && At(s, i + 1, LOWER_R)))
      && HashesEnd(s, Marker(s, i) + 1) == quote && At(s, quote, DOUBLE) && quote == Marker(s, i) + 1 + hashes
  {
    hide HashesEnd;
    if s[i] == LOWER_R || (s[i] == LOWER_B && At(s, i + 1, LOWER_R)) {
      var k := HashesEnd(s, Marker(s, i) + 1);
      if RawOpens(s, i, quote, hashes) {
        assert quote == Marker(s, i) + 1 + hashes;
        assert forall j :: Marker(s, i) + 1 <= j < quote ==> At(s, j, HASH);
      }
    }
  }

  lemma RawClosesOnce(s: Bytes, quote: nat, hashes: nat, e: nat, f: nat)
    requires quote < |s| && ClosesFrom(s, quote + 1, hashes, e) && ClosesFrom(s, quote + 1, hashes, f)
    ensures e == f
  {
    var k, m := e - 1 - hashes, f - 1 - hashes;
    assert quote < k && RawEnds(s, k, hashes) && quote < m && RawEnds(s, m, hashes) ==> !(k < m) && !(m < k);
  }

  lemma RawIs(s: Bytes, i: nat, e: nat)
    requires i < |s|
    ensures RawAt(s, i, e) <==> RawStringEnd(s, i) == Some(e)
  {
    hide HashesEnd;
    hide RawClose;
    hide RawEnds;
    hide RawOpens;
    hide ClosesFrom;
    if s[i] == LOWER_R || (s[i] == LOWER_B && At(s, i + 1, LOWER_R)) {
      var quote := HashesEnd(s, Marker(s, i) + 1);
      var hashes := quote - Marker(s, i) - 1;
      RawOpensIs(s, i, quote, hashes);
      if At(s, quote, DOUBLE) {
        RawCloseIs(s, quote + 1, hashes);
        var end := RawClose(s, quote + 1, hashes);
        if ClosesFrom(s, quote + 1, hashes, e) {
          RawClosesOnce(s, quote, hashes, e, end);
        }
      }
    }
    forall q: nat, n: nat | RawOpens(s, i, q, n)
      ensures (s[i] == LOWER_R || (s[i] == LOWER_B && At(s, i + 1, LOWER_R)))
        && q == HashesEnd(s, Marker(s, i) + 1) && n == q - Marker(s, i) - 1 && At(s, q, DOUBLE)
    {
      RawOpensIs(s, i, q, n);
    }
  }

  lemma LiteralIs(s: Bytes, i: nat, e: nat)
    requires i < |s|
    ensures LiteralAt(s, i, e) <==>
      (s[i] == SINGLE || s[i] == DOUBLE) && !IsLifetime(s, i) && QuoteEnd(s, i + 1, s[i]) == e
  {
    hide StartsLifetime;
    hide IsLifetime;
    hide QuoteEnd;
    LifetimeIs(s, i);
    QuoteEndIs(s, i + 1, s[i]);
  }

  /** At most one region starts at a place, and it is the one that is masked. */
  lemma RegionIs(s: Bytes, i: nat, e: nat)
    requires i < |s|
    ensures RegionAt(s, i, e) <==> RegionEnd(s, i) == Some(e)
  {
    hide RawClose;
    hide HashesEnd;
    hide CommentEnd;
    hide BlockEnd;
    hide QuoteEnd;
    hide IsLifetime;
    hide RawAt;
    hide BlockComment;
    hide LiteralAt;
    RawIs(s, i, e);
    if i + 2 <= |s| {
      CommentEndIs(s, i + 2, e);
    }
    if OpensBlock(s, i) {
      BlockIs(s, i, e);
    }
    LiteralIs(s, i, e);
  }

  /** The place after the region or the byte of code at i. */
  ghost predicate GoesTo(s: Bytes, i: nat, next: nat) {
    i < |s| && (RegionAt(s, i, next) || (next == i + 1 && !StartsRegion(s, i)))
  }

  /** The places where the mask looks for a region: the start, the end of every region, and the byte
      after every byte of code. */
  ghost predicate IsReached(s: Bytes, i: nat)
    decreases i
  {
    i == 0 || exists j: nat :: j < i && IsReached(s, j) && GoesTo(s, j, i)
  }

  lemma GoesToIs(s: Bytes, i: nat, next: nat)
    requires i < |s|
    ensures GoesTo(s, i, next) <==> next == if RegionEnd(s, i).Some? then RegionEnd(s, i).value else i + 1
    ensures StartsRegion(s, i) <==> RegionEnd(s, i).Some?
  {
    hide RegionAt;
    hide RegionEnd;
    forall e: nat ensures RegionAt(s, i, e) <==> RegionEnd(s, i) == Some(e) {
      RegionIs(s, i, e);
    }
  }

  lemma {:induction false} ReachedTail(s: Bytes, i: nat)
    requires IsReached(s, i) && i <= |s|
    ensures TailIs(s, i)
    decreases i
  {
    hide TailIs;
    hide GoesTo;
    TailStarts(s);
    if i > 0 {
      var j: nat :| j < i && IsReached(s, j) && GoesTo(s, j, i);
      assert j < |s|;
      ReachedTail(s, j);
      GoesToIs(s, j, i);
      TailMoves(s, j, i);
    }
  }

  /** What starts where the mask looks for it is blanked as a region, or kept as code. */
  lemma MaskIs(s: Bytes, i: nat, next: nat, k: nat)
    requires IsReached(s, i) && GoesTo(s, i, next) && i <= k < next
    ensures k < |s| && Mask(s)[k] == if StartsRegion(s, i) then BlankByte(s[k]) else s[k]
    ensures IsReached(s, next)
  {
    hide TailIs;
    ReachedTail(s, i);
    GoesToIs(s, i, next);
    TailMoves(s, i, next);
  }

  /** And every byte belongs to one of them. */
  lemma {:induction false} EveryByteIsReached(s: Bytes, k: nat) returns (i: nat, next: nat)
    requires k < |s|
    ensures IsReached(s, i) && GoesTo(s, i, next) && i <= k < next
  {
    hide GoesTo;
    hide RegionEnd;
    if k > 0 {
      i, next := EveryByteIsReached(s, k - 1);
      if k < next {
        return;
      }
      ReachesNext(s, i, next);
    }
    i := k;
    next := if RegionEnd(s, i).Some? then RegionEnd(s, i).value else i + 1;
    GoesToIs(s, i, next);
  }

  lemma ReachesNext(s: Bytes, i: nat, next: nat)
    requires IsReached(s, i) && GoesTo(s, i, next) && i < next
    ensures IsReached(s, next)
  {
    hide GoesTo;
  }
}
