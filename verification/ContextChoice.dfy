/** The choice of context in terms of scores. */
module ContextChoice {
  // What the choice contains, said of the candidates and their scores alone.

  import opened CappedBuckets
  import opened ContextSelection
  import opened Wrappers

  /** The candidate has the higher score, or the same and comes first. */
  predicate Better(score: Scores, cs: seq<Candidate>, i: nat, j: nat) {
    score(cs, i) > score(cs, j) || (score(cs, i) == score(cs, j) && i < j)
  }

  /** The changed candidates that are better. */
  function BetterOnes(score: Scores, cs: seq<Candidate>, i: nat): set<nat> {
    set j: nat | 0 <= j < |cs| && cs[j].delta && Better(score, cs, j, i)
  }

  /** The candidate changed, and fewer than four times the limit of changed ones are better. */
  predicate IsLookedAt(score: Scores, cs: seq<Candidate>, limit: nat, i: nat) {
    i < |cs| && cs[i].delta && |BetterOnes(score, cs, i)| < 4 * limit
  }

  /** Two candidates of one path say the same: excerpts with common lines, or others of one kind
      and content. */
  predicate SaysTheSame(c: Candidate, d: Candidate) {
    && c.path == d.path
    && (if c.kind.Excerpt? && d.kind.Excerpt? then !(c.endLine < d.startLine) && !(d.endLine < c.startLine)
        else c.kind == d.kind && c.content == d.content)
  }

  function Size(c: Candidate): nat {
    32 + |c.content| + match c.path case Some(p) => |p| case None => 0
  }

  predicate IsChosen(s: Selected, i: nat) {
    exists k :: 0 <= k < |s.items| && s.items[k].index == i
  }

  /** A better one that was chosen says the same. */
  predicate IsSaid(score: Scores, cs: seq<Candidate>, s: Selected, i: nat)
    requires i < |cs|
  {
    exists k :: 0 <= k < |s.items| && s.items[k].index < |cs|
      && Better(score, cs, s.items[k].index, i) && SaysTheSame(cs[i], cs[s.items[k].index])
  }

  predicate AllBetter(score: Scores, cs: seq<Candidate>, s: Selected, i: nat) {
    forall k :: 0 <= k < |s.items| ==> Better(score, cs, s.items[k].index, i)
  }

  /** One chosen item: what is looked at, with its score, whole unless it is cut to use up the
      budget. */
  predicate ItemIsRight(score: Scores, cs: seq<Candidate>, budget: nat, limit: nat, s: Selected, k: nat)
    requires k < |s.items|
  {
    var item := s.items[k];
    && IsLookedAt(score, cs, limit, item.index) && item.score == score(cs, item.index)
    && 0 < item.bytes <= Size(cs[item.index]) && (item.truncated <==> item.bytes < Size(cs[item.index]))
    && (item.truncated ==> k == |s.items| - 1 && s.used == budget)
  }

  /** The items come best first, no two say the same, and whatever else was looked at is said by a
      better one, or all that were chosen are better and use up a limit. */
  ghost predicate IsChoice(score: Scores, cs: seq<Candidate>, budget: nat, limit: nat, s: Selected) {
    && |s.items| <= limit && s.used == SumBytes(s.items) <= budget
    && (forall k :: 0 <= k < |s.items| ==> ItemIsRight(score, cs, budget, limit, s, k))
    && (forall j, k :: 0 <= j < k < |s.items| ==> Better(score, cs, s.items[j].index, s.items[k].index))
    && (forall j, k :: 0 <= j < k < |s.items| && s.items[j].index < |cs| && s.items[k].index < |cs| ==>
          !SaysTheSame(cs[s.items[k].index], cs[s.items[j].index]))
    && (forall i :: 0 <= i < |cs| && IsLookedAt(score, cs, limit, i) ==>
          || IsChosen(s, i) || IsSaid(score, cs, s, i)
          || ((|s.items| == limit || s.used == budget) && AllBetter(score, cs, s, i)))
  }

  // ----- The window in terms of scores -----

  lemma {:induction false} RanksAre(score: Scores, cs: seq<Candidate>, upTo: nat)
    requires upTo <= |cs|
    ensures forall r :: r in Ranks(score, cs, upTo) <==>
      r.index < upTo && cs[r.index].delta && r.score == score(cs, r.index)
  {
    if upTo > 0 {
      RanksAre(score, cs, upTo - 1);
    }
  }

  /** The ranking holds the changed candidates with their scores, the better ones first. */
  lemma RankingIs(score: Scores, cs: seq<Candidate>)
    ensures var ranking := Ranking(score, cs);
      && (forall r :: r in ranking <==> r.index < |cs| && cs[r.index].delta && r.score == score(cs, r.index))
      && (forall j, k :: 0 <= j < k < |ranking| ==> Better(score, cs, ranking[j].index, ranking[k].index))
  {
    var ranking := Ranking(score, cs);
    RankOrderIsStrict();
    ListingIsOrdered(RankLess, Elements(Ranks(score, cs, |cs|)));
    RanksAre(score, cs, |cs|);
    forall j, k | 0 <= j < k < |ranking| ensures Better(score, cs, ranking[j].index, ranking[k].index) {
      assert ranking[j] in ranking && ranking[k] in ranking && RankLess(ranking[j], ranking[k]);
    }
  }

  function Indices(ranked: seq<Rank>): set<nat> {
    set k | 0 <= k < |ranked| :: ranked[k].index
  }

  lemma {:induction false} IndicesCount(score: Scores, cs: seq<Candidate>, ranked: seq<Rank>)
    requires forall j, k :: 0 <= j < k < |ranked| ==> Better(score, cs, ranked[j].index, ranked[k].index)
    ensures |Indices(ranked)| == |ranked|
  {
    if ranked != [] {
      var n := |ranked| - 1;
      IndicesCount(score, cs, ranked[..n]);
      assert Indices(ranked) == Indices(ranked[..n]) + {ranked[n].index};
    }
  }

  /** The place of a candidate in the ranking is the number of better ones. */
  lemma PlaceIsNumberOfBetter(score: Scores, cs: seq<Candidate>, k: nat)
    requires k < |Ranking(score, cs)|
    ensures |BetterOnes(score, cs, Ranking(score, cs)[k].index)| == k
  {
    hide Ranking;
    var ranking := Ranking(score, cs);
    RankingIs(score, cs);
    IndicesCount(score, cs, ranking[..k]);
    var i := ranking[k].index;
    forall j: nat ensures j in Indices(ranking[..k]) <==> j in BetterOnes(score, cs, i) {
      if j in Indices(ranking[..k]) {
        var m :| 0 <= m < k && ranking[..k][m].index == j;
        assert ranking[m] in ranking;
      }
      if j in BetterOnes(score, cs, i) {
        assert Rank(score(cs, j), j) in ranking;
        var m :| 0 <= m < |ranking| && ranking[m] == Rank(score(cs, j), j);
        assert m < k;
        assert ranking[..k][m].index == j;
      }
    }
    assert Indices(ranking[..k]) == BetterOnes(score, cs, i);
  }

  lemma LookedAtIsWindow(score: Scores, cs: seq<Candidate>, limit: nat, i: nat)
    ensures IsLookedAt(score, cs, limit, i) <==>
      i < |cs| && Rank(score(cs, i), i) in Window(score, cs, limit)
  {
    hide Ranking;
    var ranking, window := Ranking(score, cs), Window(score, cs, limit);
    RankingIs(score, cs);
    assert forall r :: r in window ==> r in ranking;
    if i < |cs| && cs[i].delta {
      var r := Rank(score(cs, i), i);
      assert r in ranking;
      var k :| 0 <= k < |ranking| && ranking[k] == r;
      PlaceIsNumberOfBetter(score, cs, k);
      if k < 4 * limit {
        assert window[k] == r;
      }
      if r in window {
        var m :| 0 <= m < |window| && window[m] == r;
        assert ranking[m] == r && m == k;
      }
    }
  }

  lemma WindowIs(score: Scores, cs: seq<Candidate>, limit: nat, r: Rank)
    requires r in Window(score, cs, limit)
    ensures r.index < |cs| && r.score == score(cs, r.index) && IsLookedAt(score, cs, limit, r.index)
  {
    hide Ranking;
    RankingIs(score, cs);
    assert r in Ranking(score, cs);
    LookedAtIsWindow(score, cs, limit, r.index);
  }

  lemma ItemIs(score: Scores, cs: seq<Candidate>, budget: nat, limit: nat, s: Selected, k: nat)
    requires WithinLimits(cs, budget, limit, s) && k < |s.items| && RankOf(s.items[k]) in Window(score, cs, limit)
    ensures ItemIsRight(score, cs, budget, limit, s, k)
  {
    hide Window;
    hide IsLookedAt;
    hide SumBytes;
    WindowIs(score, cs, limit, RankOf(s.items[k]));
  }

  /** A candidate that was looked at and settled is chosen, said by a better one, or came too late. */
  lemma SettledIs(score: Scores, cs: seq<Candidate>, budget: nat, limit: nat, s: Selected, i: nat)
    requires i < |cs| && Settled(cs, budget, limit, s, Rank(score(cs, i), i))
    requires forall k :: 0 <= k < |s.items| ==>
      s.items[k].index < |cs| && s.items[k].score == score(cs, s.items[k].index)
    ensures IsChosen(s, i) || IsSaid(score, cs, s, i)
      || ((|s.items| == limit || s.used == budget) && AllBetter(score, cs, s, i))
  {
  }

  /** What is chosen, for every list, scoring and limits. */
  lemma ChoiceIsRight(score: Scores, cs: seq<Candidate>, budget: nat, limit: nat)
    ensures InRange(cs, Window(score, cs, limit))
    ensures IsChoice(score, cs, budget, limit, Greedy(cs, budget, limit, Window(score, cs, limit)))
  {
    hide Window;
    hide Greedy;
    hide Settled;
    hide ItemIsRight;
    hide IsLookedAt;
    hide SumBytes;
    RanksHaveSize(score, cs, limit);
    WindowIsOrdered(score, cs, limit);
    var window := Window(score, cs, limit);
    var s := Greedy(cs, budget, limit, window);
    GreedyGuarantees(cs, budget, limit, window);
    forall k | 0 <= k < |s.items|
      ensures ItemIsRight(score, cs, budget, limit, s, k) && s.items[k].score == score(cs, s.items[k].index)
    {
      ItemIs(score, cs, budget, limit, s, k);
      WindowIs(score, cs, limit, RankOf(s.items[k]));
    }
    forall i | 0 <= i < |cs| && IsLookedAt(score, cs, limit, i)
      ensures IsChosen(s, i) || IsSaid(score, cs, s, i)
        || ((|s.items| == limit || s.used == budget) && AllBetter(score, cs, s, i))
    {
      LookedAtIsWindow(score, cs, limit, i);
      var p :| 0 <= p < |window| && window[p] == Rank(score(cs, i), i);
      SettledIs(score, cs, budget, limit, s, i);
    }
  }
}
