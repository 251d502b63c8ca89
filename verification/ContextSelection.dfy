/** The choice of stored context. */
module ContextSelection {
  // Candidates are ranked, and taken greedily while they fit a model turn.

  import opened Wrappers
  import opened CappedBuckets

  datatype Kind =
    | ModifiedPath | UserModifiedPath | Excerpt | InspectedFile | ToolSummary | ScopedInstructions
    | RepositoryMetadata | GitMetadata

  datatype Candidate = Candidate(
    kind: Kind, path: Option<Bytes>, content: Bytes, startLine: nat, endLine: nat, delta: bool)

  datatype Item = Item(index: nat, score: int, bytes: nat, truncated: bool)

  datatype Selected = Selected(items: seq<Item>, used: nat)

  function ByteLen(c: Candidate): (n: nat)
    ensures n >= 32
  {
    (if c.path.Some? then |c.path.value| else 0) + |c.content| + 32
  }

  /** Excerpts of one path are duplicates when their lines overlap; other items when kind, path
      and content agree. */
  predicate Duplicate(c: Candidate, existing: Candidate) {
    c.path == existing.path &&
    if c.kind == Excerpt && existing.kind == Excerpt
      then c.startLine <= existing.endLine && existing.startLine <= c.endLine
      else c.kind == existing.kind && c.content == existing.content
  }

  // ----- Ranking -----

  datatype Rank = Rank(score: int, index: nat)

  /** Higher scores first, then earlier candidates. */
  const RankLess: (Rank, Rank) -> bool :=
    (a: Rank, b: Rank) => a.score > b.score || (a.score == b.score && a.index < b.index)

  lemma RankOrderIsStrict()
    ensures StrictOrder(RankLess)
  {
  }

  type Scores = (seq<Candidate>, nat) -> int

  /** The ranks of the candidates that changed, in candidate order. */
  function Ranks(score: Scores, cs: seq<Candidate>, upTo: nat): (r: seq<Rank>)
    requires upTo <= |cs|
    ensures forall k :: 0 <= k < |r| ==> r[k].index < upTo
    ensures forall j, k :: 0 <= j < k < |r| ==> r[j].index < r[k].index
  {
    if upTo == 0 then []
    else if cs[upTo - 1].delta then Ranks(score, cs, upTo - 1) + [Rank(score(cs, upTo - 1), upTo - 1)]
    else Ranks(score, cs, upTo - 1)
  }

  /** All changed candidates in rank order. */
  ghost function Ranking(score: Scores, cs: seq<Candidate>): seq<Rank> {
    Listing(RankLess, Elements(Ranks(score, cs, |cs|)))
  }

  /** What the library promises of a partial selection: the first k elements are the ones that
      sorting would put there, in any order. */
  ghost predicate Partitions(all: seq<Rank>, part: seq<Rank>, k: nat) {
    && multiset(part) == multiset(all)
    && forall i, j :: 0 <= i < k <= j < |part| ==> RankLess(part[i], part[j])
  }

  ghost predicate Sorts(all: seq<Rank>, sorted: seq<Rank>) {
    multiset(sorted) == multiset(all) && Ordered(RankLess, sorted)
  }

  predicate DistinctIndices(all: seq<Rank>) {
    forall i, j :: 0 <= i < j < |all| ==> all[i].index != all[j].index
  }

  /** The library's partial selection and sort, promised on lists without repeated indices. */
  ghost predicate LibraryIsRight(selectNth: (seq<Rank>, nat) -> seq<Rank>, sort: seq<Rank> -> seq<Rank>) {
    && (forall all, k: nat :: DistinctIndices(all) && k < |all| ==> Partitions(all, selectNth(all, k), k))
    && (forall all :: DistinctIndices(all) ==> Sorts(all, sort(all)))
  }

  lemma SameMembers(a: seq<Rank>, b: seq<Rank>)
    requires multiset(a) == multiset(b)
    ensures |a| == |b| && forall x :: x in a <==> x in b
  {
    assert |multiset(a)| == |multiset(b)|;
    forall x ensures x in a <==> x in b {
      assert x in a <==> x in multiset(a);
      assert x in b <==> x in multiset(b);
    }
  }

  /** A list without repetitions holds each of its elements once. */
  lemma {:induction false} ElementsOnce(all: seq<Rank>)
    requires forall i, j :: 0 <= i < j < |all| ==> all[i] != all[j]
    ensures multiset(all) == multiset(Elements(all))
  {
    if all != [] {
      var n := |all| - 1;
      assert all == all[..n] + [all[n]];
      ElementsOnce(all[..n]);
      assert all[n] !in Elements(all[..n]);
      assert Elements(all) == Elements(all[..n]) + {all[n]};
    } else {
      assert Elements(all) == {};
    }
  }

  lemma RepetitionCounts(part: seq<Rank>, i: nat, j: nat)
    requires i < j < |part| && part[i] == part[j]
    ensures multiset(part)[part[i]] >= 2
  {
    assert part == part[..j] + part[j..];
    assert part[..j][i] in multiset(part[..j]);
    assert part[j..][0] in multiset(part[j..]);
  }

  /** Rearranging a list keeps its indices distinct. */
  lemma PermutationIsDistinct(all: seq<Rank>, part: seq<Rank>)
    requires DistinctIndices(all) && multiset(part) == multiset(all)
    ensures DistinctIndices(part)
  {
    ElementsOnce(all);
    SameMembers(all, part);
    forall i, j | 0 <= i < j < |part| ensures part[i].index != part[j].index {
      assert part[i] in part && part[j] in part;
      if part[i] == part[j] {
        RepetitionCounts(part, i, j);
      }
    }
  }

  /** The listing of a list's elements keeps that promise, so a library of the kind exists. */
  lemma ListingIsALibrary()
    ensures LibraryIsRight((all, k) => Listing(RankLess, Elements(all)), all => Listing(RankLess, Elements(all)))
  {
    hide Listing;
    var selectNth: (seq<Rank>, nat) -> seq<Rank> := (all, k) => Listing(RankLess, Elements(all));
    var sort: seq<Rank> -> seq<Rank> := all => Listing(RankLess, Elements(all));
    forall all | DistinctIndices(all) ensures Sorts(all, Listing(RankLess, Elements(all))) {
      RankOrderIsStrict();
      ListingIsOrdered(RankLess, Elements(all));
      var sorted := Listing(RankLess, Elements(all));
      assert Elements(sorted) == Elements(all);
      ElementsOnce(sorted);
      ElementsOnce(all);
    }
    assert LibraryIsRight(selectNth, sort);
  }

  /** Sorting the first part of a partial selection gives the first part of the full ranking. */
  lemma PartialSortIsPrefix(all: seq<Rank>, part: seq<Rank>, k: nat, sorted: seq<Rank>)
    requires k <= |all| && Partitions(all, part, k) && |part| == |all| && Sorts(part[..k], sorted)
    ensures |Listing(RankLess, Elements(all))| >= k
    ensures sorted == Listing(RankLess, Elements(all))[..k]
  {
    hide Listing;
    hide StrictOrder;
    RankOrderIsStrict();
    SameMembers(all, part);
    SameMembers(sorted, part[..k]);
    var rest := Listing(RankLess, Elements(part[k..]));
    ListingIsOrdered(RankLess, Elements(part[k..]));
    var whole := sorted + rest;
    forall i, j | 0 <= i < j < |whole| ensures RankLess(whole[i], whole[j]) {
      if i < k <= j {
        assert sorted[i] in part[..k];
        assert rest[j - k] in rest;
        BeforeRest(part, k, sorted[i], rest[j - k]);
      }
    }
    forall x ensures x in whole <==> x in Elements(all) {
      assert part == part[..k] + part[k..];
      assert x in part <==> x in part[..k] || x in part[k..];
    }
    ListingIs(RankLess, whole, Elements(all));
  }

  lemma BeforeRest(part: seq<Rank>, k: nat, x: Rank, y: Rank)
    requires k <= |part| && x in part[..k] && y in part[k..]
    requires forall i, j :: 0 <= i < k <= j < |part| ==> RankLess(part[i], part[j])
    ensures RankLess(x, y)
  {
    var i :| 0 <= i < k && part[i] == x;
    var j :| 0 <= j < |part| - k && part[k..][j] == y;
    assert part[k + j] == y;
  }

  lemma SortIsRanking(all: seq<Rank>, sorted: seq<Rank>)
    requires Sorts(all, sorted)
    ensures sorted == Listing(RankLess, Elements(all))
  {
    RankOrderIsStrict();
    SameMembers(sorted, all);
    ListingIs(RankLess, sorted, Elements(all));
  }

  // ----- The greedy specification -----

  predicate IsDuplicate(cs: seq<Candidate>, items: seq<Item>, c: Candidate) {
    exists j :: 0 <= j < |items| && items[j].index < |cs| && Duplicate(c, cs[items[j].index])
  }

  predicate Full(budget: nat, limit: nat, s: Selected) {
    |s.items| == limit || s.used == budget
  }

  function Min(a: int, b: int): int {
    if a < b then a else b
  }

  function Take(cs: seq<Candidate>, budget: nat, limit: nat, s: Selected, r: Rank): (t: Selected)
    requires r.index < |cs| && s.used <= budget
    ensures t.used <= budget
  {
    var c := cs[r.index];
    if Full(budget, limit, s) || IsDuplicate(cs, s.items, c) then s
    else
      var bytes := Min(ByteLen(c), budget - s.used);
      Selected(s.items + [Item(r.index, r.score, bytes, bytes < ByteLen(c))], s.used + bytes)
  }

  predicate InRange(cs: seq<Candidate>, ranked: seq<Rank>) {
    forall k :: 0 <= k < |ranked| ==> ranked[k].index < |cs|
  }

  /** Takes candidates in rank order, skipping duplicates, until the limits are reached. */
  function Greedy(cs: seq<Candidate>, budget: nat, limit: nat, ranked: seq<Rank>): (s: Selected)
    requires InRange(cs, ranked)
    ensures s.used <= budget
  {
    if ranked == [] then Selected([], 0)
    else Take(cs, budget, limit, Greedy(cs, budget, limit, ranked[..|ranked| - 1]), ranked[|ranked| - 1])
  }

  /** The candidates the choice looks at: the first four times `limit` of the ranking. */
  ghost function Window(score: Scores, cs: seq<Candidate>, limit: nat): (w: seq<Rank>)
    ensures w <= Ranking(score, cs)
  {
    var ranking := Ranking(score, cs);
    ranking[..Min(4 * limit, |ranking|)]
  }

  lemma {:induction false} FullStays(cs: seq<Candidate>, budget: nat, limit: nat, ranked: seq<Rank>, k: nat)
    requires InRange(cs, ranked) && k <= |ranked| && Full(budget, limit, Greedy(cs, budget, limit, ranked[..k]))
    ensures Greedy(cs, budget, limit, ranked) == Greedy(cs, budget, limit, ranked[..k])
  {
    if k == |ranked| {
      assert ranked[..k] == ranked;
    } else {
      var front := ranked[..|ranked| - 1];
      assert front[..k] == ranked[..k];
      FullStays(cs, budget, limit, front, k);
    }
  }

  // ----- The code -----

  method CollectRanks(score: Scores, cs: seq<Candidate>) returns (ranked: seq<Rank>)
    ensures ranked == Ranks(score, cs, |cs|)
  {
    ranked := [];
    for i := 0 to |cs|
      invariant ranked == Ranks(score, cs, i)
    {
      if cs[i].delta {
        ranked := ranked + [Rank(score(cs, i), i)];
      }
    }
  }

  /** The ranking loop's input: partial selection, truncation and sorting, the library's parts
      given as functions. */
  method RankCandidates(
    score: Scores, cs: seq<Candidate>, limit: nat,
    selectNth: (seq<Rank>, nat) -> seq<Rank>, sort: seq<Rank> -> seq<Rank>) returns (ranked: seq<Rank>)
    requires LibraryIsRight(selectNth, sort)
    ensures ranked == Window(score, cs, limit) && InRange(cs, ranked)
  {
    hide Listing;
    hide StrictOrder;
    hide Ordered;
    var all := CollectRanks(score, cs);
    RankOrderIsStrict();
    ListingIsOrdered(RankLess, Elements(all));
    var k := Min(4 * limit, |all|);
    if k < |all| {
      var part := selectNth(all, k);
      SameMembers(all, part);
      PermutationIsDistinct(all, part);
      PartialSortIsPrefix(all, part, k, sort(part[..k]));
      ranked := sort(part[..k]);
    } else {
      ranked := sort(all);
      SortIsRanking(all, ranked);
      SameMembers(all, ranked);
      assert ranked[..|ranked|] == ranked;
    }
    RanksHaveSize(score, cs, limit);
  }

  lemma GreedyOfNone(cs: seq<Candidate>, budget: nat, limit: nat)
    ensures Greedy(cs, budget, limit, []) == Selected([], 0)
  {
  }

  lemma GreedyStep(cs: seq<Candidate>, budget: nat, limit: nat, ranked: seq<Rank>, i: nat)
    requires InRange(cs, ranked) && i < |ranked|
    ensures Greedy(cs, budget, limit, ranked[..i + 1])
      == Take(cs, budget, limit, Greedy(cs, budget, limit, ranked[..i]), ranked[i])
  {
    assert ranked[..i + 1][..i] == ranked[..i];
  }

  lemma RanksHaveSize(score: Scores, cs: seq<Candidate>, limit: nat)
    ensures |Ranking(score, cs)| == |Ranks(score, cs, |cs|)|
    ensures InRange(cs, Ranking(score, cs)) && InRange(cs, Window(score, cs, limit))
  {
    var all := Ranks(score, cs, |cs|);
    RankOrderIsStrict();
    ListingIsOrdered(RankLess, Elements(all));
    DistinctSize(all);
    var ranking := Ranking(score, cs);
    forall k | 0 <= k < |ranking| ensures ranking[k].index < |cs| {
      assert ranking[k] in ranking;
    }
  }

  lemma {:induction false} DistinctSize(all: seq<Rank>)
    requires forall j, k :: 0 <= j < k < |all| ==> all[j].index < all[k].index
    ensures |Elements(all)| == |all|
  {
    if all != [] {
      var n := |all| - 1;
      DistinctSize(all[..n]);
      assert all[n] !in Elements(all[..n]);
      assert all == all[..n] + [all[n]];
      assert Elements(all) == Elements(all[..n]) + {all[n]};
    } else {
      assert Elements(all) == {};
    }
  }

  method SelectContext(
    score: Scores, cs: seq<Candidate>, budget: nat, limit: nat,
    selectNth: (seq<Rank>, nat) -> seq<Rank>, sort: seq<Rank> -> seq<Rank>) returns (s: Selected)
    requires LibraryIsRight(selectNth, sort)
    ensures InRange(cs, Window(score, cs, limit))
    ensures s == Greedy(cs, budget, limit, Window(score, cs, limit))
  {
    hide IsDuplicate;
    hide Window;
    hide ByteLen;
    hide LibraryIsRight;
    hide Greedy;
    RanksHaveSize(score, cs, limit);
    GreedyOfNone(cs, budget, limit);
    if budget == 0 || limit == 0 {
      FullStays(cs, budget, limit, Window(score, cs, limit), 0);
      return Selected([], 0);
    }
    var ranked := RankCandidates(score, cs, limit, selectNth, sort);
    var items: seq<Item> := [];
    var used: nat := 0;
    for i := 0 to |ranked|
      invariant used <= budget && Selected(items, used) == Greedy(cs, budget, limit, ranked[..i])
    {
      GreedyStep(cs, budget, limit, ranked, i);
      if |items| == limit || used == budget {
        FullStays(cs, budget, limit, ranked, i);
        return Selected(items, used);
      }
      var c := cs[ranked[i].index];
      if IsDuplicate(cs, items, c) {
        continue;
      }
      var available := budget - used;
      var bytes := Min(ByteLen(c), available);
      if bytes == 0 {
        assert false;
        break;
      }
      items := items + [Item(ranked[i].index, ranked[i].score, bytes, bytes < ByteLen(c))];
      used := used + bytes;
    }
    assert ranked[..|ranked|] == ranked;
    return Selected(items, used);
  }

  // ----- What the choice guarantees -----

  function RankOf(i: Item): Rank {
    Rank(i.score, i.index)
  }

  function SumBytes(items: seq<Item>): nat {
    if items == [] then 0 else SumBytes(items[..|items| - 1]) + items[|items| - 1].bytes
  }

  /** The items are in rank order, add up to the bytes used, fit the limits, and only the last
      one can be cut. */
  ghost predicate WithinLimits(cs: seq<Candidate>, budget: nat, limit: nat, s: Selected) {
    && |s.items| <= limit && s.used == SumBytes(s.items) <= budget
    && (forall k :: 0 <= k < |s.items| ==> s.items[k].index < |cs|)
    && (forall k :: 0 <= k < |s.items| ==> 0 < s.items[k].bytes <= ByteLen(cs[s.items[k].index]))
    && (forall k :: 0 <= k < |s.items| ==> (s.items[k].truncated <==> s.items[k].bytes < ByteLen(cs[s.items[k].index])))
    && (forall k :: 0 <= k < |s.items| && s.items[k].truncated ==> k == |s.items| - 1 && s.used == budget)
  }

  ghost predicate RankOrdered(s: Selected, ranked: seq<Rank>) {
    && (forall k :: 0 <= k < |s.items| ==> RankOf(s.items[k]) in ranked)
    && (forall j, k :: 0 <= j < k < |s.items| ==> RankLess(RankOf(s.items[j]), RankOf(s.items[k])))
  }

  ghost predicate NoDuplicates(cs: seq<Candidate>, s: Selected) {
    forall j, k :: 0 <= j < k < |s.items| && s.items[j].index < |cs| && s.items[k].index < |cs| ==>
      !Duplicate(cs[s.items[k].index], cs[s.items[j].index])
  }

  predicate Chosen(s: Selected, r: Rank) {
    exists k :: 0 <= k < |s.items| && RankOf(s.items[k]) == r
  }

  /** An item chosen before r is a duplicate of it. */
  predicate Covered(cs: seq<Candidate>, s: Selected, r: Rank)
    requires r.index < |cs|
  {
    exists k :: 0 <= k < |s.items| && s.items[k].index < |cs|
      && RankLess(RankOf(s.items[k]), r) && Duplicate(cs[r.index], cs[s.items[k].index])
  }

  predicate AllBefore(s: Selected, r: Rank) {
    forall k :: 0 <= k < |s.items| ==> RankLess(RankOf(s.items[k]), r)
  }

  /** A candidate that was looked at is chosen, or covered, or came when the limits were reached. */
  predicate Settled(cs: seq<Candidate>, budget: nat, limit: nat, s: Selected, r: Rank)
    requires r.index < |cs|
  {
    Chosen(s, r) || Covered(cs, s, r) || (Full(budget, limit, s) && AllBefore(s, r))
  }

  lemma TakeKeepsLimits(cs: seq<Candidate>, budget: nat, limit: nat, s: Selected, r: Rank)
    requires r.index < |cs| && WithinLimits(cs, budget, limit, s)
    ensures WithinLimits(cs, budget, limit, Take(cs, budget, limit, s, r))
  {
    var t := Take(cs, budget, limit, s, r);
    if t != s {
      assert t.items[..|t.items| - 1] == s.items;
    }
  }

  lemma TakeKeepsOrder(cs: seq<Candidate>, budget: nat, limit: nat, s: Selected, front: seq<Rank>, r: Rank)
    requires r.index < |cs| && s.used <= budget && RankOrdered(s, front) && NoDuplicates(cs, s)
    requires forall k :: 0 <= k < |front| ==> RankLess(front[k], r)
    ensures var t := Take(cs, budget, limit, s, r);
      RankOrdered(t, front + [r]) && NoDuplicates(cs, t)
  {
    var t := Take(cs, budget, limit, s, r);
    if t != s {
      assert RankOf(t.items[|s.items|]) == r == (front + [r])[|front|];
    }
  }

  lemma TakeSettles(cs: seq<Candidate>, budget: nat, limit: nat, s: Selected, front: seq<Rank>, r: Rank)
    requires r.index < |cs| && s.used <= budget && RankOrdered(s, front)
    requires forall k :: 0 <= k < |front| ==> RankLess(front[k], r)
    ensures Settled(cs, budget, limit, Take(cs, budget, limit, s, r), r)
  {
    var t := Take(cs, budget, limit, s, r);
    assert AllBefore(s, r);
    if t != s {
      assert RankOf(t.items[|s.items|]) == r;
    }
  }

  lemma TakeKeepsSettled(cs: seq<Candidate>, budget: nat, limit: nat, s: Selected, r: Rank, q: Rank)
    requires r.index < |cs| && q.index < |cs| && s.used <= budget && Settled(cs, budget, limit, s, q)
    ensures Settled(cs, budget, limit, Take(cs, budget, limit, s, r), q)
  {
    var t := Take(cs, budget, limit, s, r);
    if t != s {
      assert forall k :: 0 <= k < |s.items| ==> t.items[k] == s.items[k];
    }
  }

  /** Over any ranked list: limits, rank order, no duplicates, and every candidate settled. */
  lemma {:induction false} GreedyGuarantees(cs: seq<Candidate>, budget: nat, limit: nat, ranked: seq<Rank>)
    requires InRange(cs, ranked) && Ordered(RankLess, ranked)
    ensures var s := Greedy(cs, budget, limit, ranked);
      && WithinLimits(cs, budget, limit, s) && RankOrdered(s, ranked) && NoDuplicates(cs, s)
      && forall k :: 0 <= k < |ranked| ==> Settled(cs, budget, limit, s, ranked[k])
  {
    if ranked != [] {
      GreedyGuarantees(cs, budget, limit, ranked[..|ranked| - 1]);
      TakeKeepsGuarantees(cs, budget, limit, ranked);
    }
  }

  lemma TakeKeepsGuarantees(cs: seq<Candidate>, budget: nat, limit: nat, ranked: seq<Rank>)
    requires InRange(cs, ranked) && Ordered(RankLess, ranked) && ranked != []
    requires var front := ranked[..|ranked| - 1]; var s := Greedy(cs, budget, limit, front);
      && WithinLimits(cs, budget, limit, s) && RankOrdered(s, front) && NoDuplicates(cs, s)
      && forall k :: 0 <= k < |front| ==> Settled(cs, budget, limit, s, front[k])
    ensures var s := Greedy(cs, budget, limit, ranked);
      && WithinLimits(cs, budget, limit, s) && RankOrdered(s, ranked) && NoDuplicates(cs, s)
      && forall k :: 0 <= k < |ranked| ==> Settled(cs, budget, limit, s, ranked[k])
  {
    hide Take;
    hide WithinLimits;
    hide RankOrdered;
    hide NoDuplicates;
    hide Settled;
    var n := |ranked| - 1;
    var front, r := ranked[..n], ranked[n];
    var s := Greedy(cs, budget, limit, front);
    assert ranked == front + [r];
    TakeKeepsLimits(cs, budget, limit, s, r);
    TakeKeepsOrder(cs, budget, limit, s, front, r);
    TakeSettles(cs, budget, limit, s, front, r);
    forall k | 0 <= k < n ensures Settled(cs, budget, limit, Take(cs, budget, limit, s, r), ranked[k]) {
      assert ranked[k] == front[k];
      TakeKeepsSettled(cs, budget, limit, s, r, ranked[k]);
    }
  }

  /** Whatever is ranked before a chosen item was chosen too, or duplicates an earlier choice;
      and if neither limit was reached, so does everything in the window. */
  lemma SkippedIsDuplicate(score: Scores, cs: seq<Candidate>, budget: nat, limit: nat, r: Rank)
    requires r in Window(score, cs, limit) && r.index < |cs| && InRange(cs, Window(score, cs, limit))
    requires var s := Greedy(cs, budget, limit, Window(score, cs, limit));
      !Full(budget, limit, s) || exists k :: 0 <= k < |s.items| && RankLess(r, RankOf(s.items[k]))
    ensures var s := Greedy(cs, budget, limit, Window(score, cs, limit));
      Chosen(s, r) || Covered(cs, s, r)
  {
    RankOrderIsStrict();
    var window := Window(score, cs, limit);
    WindowIsOrdered(score, cs, limit);
    GreedyGuarantees(cs, budget, limit, window);
    var p :| 0 <= p < |window| && window[p] == r;
    assert Settled(cs, budget, limit, Greedy(cs, budget, limit, window), window[p]);
  }

  lemma WindowIsOrdered(score: Scores, cs: seq<Candidate>, limit: nat)
    ensures Ordered(RankLess, Window(score, cs, limit))
  {
    RankOrderIsStrict();
    ListingIsOrdered(RankLess, Elements(Ranks(score, cs, |cs|)));
  }

  // ----- When the window is enough -----

  /** The candidates from position k on all duplicate a chosen one. */
  predicate RestIsDuplicate(cs: seq<Candidate>, s: Selected, ranked: seq<Rank>, k: nat)
    requires InRange(cs, ranked)
  {
    forall j :: k <= j < |ranked| ==> IsDuplicate(cs, s.items, cs[ranked[j].index])
  }

  lemma {:induction false} GreedyGrows(cs: seq<Candidate>, budget: nat, limit: nat, ranked: seq<Rank>, k: nat)
    requires InRange(cs, ranked) && k <= |ranked|
    ensures |Greedy(cs, budget, limit, ranked[..k]).items| <= |Greedy(cs, budget, limit, ranked).items|
  {
    hide IsDuplicate;
    if k == |ranked| {
      assert ranked[..k] == ranked;
    } else {
      var front := ranked[..|ranked| - 1];
      assert front[..k] == ranked[..k];
      GreedyGrows(cs, budget, limit, front, k);
    }
  }

  /** Looking further changes nothing exactly when the limits were reached before, or everything
      further down duplicates a chosen candidate. */
  lemma {:induction false} LookingFurtherIff(
    cs: seq<Candidate>, budget: nat, limit: nat, ranked: seq<Rank>, k: nat)
    requires InRange(cs, ranked) && k <= |ranked|
    ensures var s := Greedy(cs, budget, limit, ranked[..k]);
      Greedy(cs, budget, limit, ranked) == s <==> Full(budget, limit, s) || RestIsDuplicate(cs, s, ranked, k)
  {
    hide IsDuplicate;
    if k == |ranked| {
      assert ranked[..k] == ranked;
    } else {
      var n := |ranked| - 1;
      var front := ranked[..n];
      assert front[..k] == ranked[..k];
      LookingFurtherIff(cs, budget, limit, front, k);
      GreedyGrows(cs, budget, limit, front, k);
      var s := Greedy(cs, budget, limit, ranked[..k]);
      assert RestIsDuplicate(cs, s, ranked, k) <==>
        RestIsDuplicate(cs, s, front, k) && IsDuplicate(cs, s.items, cs[ranked[n].index]) by {
        assert forall j :: 0 <= j < n ==> front[j] == ranked[j];
      }
    }
  }

  /** The choice from the window is the choice from all changed candidates. */
  ghost predicate WindowIsEnough(score: Scores, cs: seq<Candidate>, budget: nat, limit: nat) {
    && InRange(cs, Ranking(score, cs)) && InRange(cs, Window(score, cs, limit))
    && Greedy(cs, budget, limit, Window(score, cs, limit)) == Greedy(cs, budget, limit, Ranking(score, cs))
  }

  /** The window is enough exactly when its choice reaches a limit, or every candidate that is
      ranked below the window duplicates a chosen one. */
  lemma WindowIsEnoughIff(score: Scores, cs: seq<Candidate>, budget: nat, limit: nat)
    ensures InRange(cs, Ranking(score, cs)) && InRange(cs, Window(score, cs, limit))
    ensures var s := Greedy(cs, budget, limit, Window(score, cs, limit));
      WindowIsEnough(score, cs, budget, limit) <==>
      Full(budget, limit, s) || RestIsDuplicate(cs, s, Ranking(score, cs), 4 * limit)
  {
    hide Greedy;
    hide Ranking;
    RanksHaveSize(score, cs, limit);
    var ranking := Ranking(score, cs);
    LookingFurtherIff(cs, budget, limit, ranking, Min(4 * limit, |ranking|));
  }

  /** The number of changed candidates. */
  function ChangedCount(cs: seq<Candidate>): nat {
    if cs == [] then 0 else ChangedCount(cs[..|cs| - 1]) + if cs[|cs| - 1].delta then 1 else 0
  }

  lemma {:induction false} RanksCount(score: Scores, cs: seq<Candidate>, upTo: nat)
    requires upTo <= |cs|
    ensures |Ranks(score, cs, upTo)| == ChangedCount(cs[..upTo])
  {
    if upTo > 0 {
      RanksCount(score, cs, upTo - 1);
      assert cs[..upTo][..upTo - 1] == cs[..upTo - 1];
    }
  }

  /** The window is enough for every list of this many changed candidates. */
  ghost predicate AlwaysEnough(changed: nat, limit: nat) {
    forall score: Scores, cs, budget: nat :: ChangedCount(cs) == changed ==> WindowIsEnough(score, cs, budget, limit)
  }

  /** Counting the changed candidates tells when the window is enough whatever they hold: there
      are at most four times the item limit, or at most one item is asked for. */
  lemma AlwaysEnoughIff(changed: nat, limit: nat)
    ensures AlwaysEnough(changed, limit) <==> limit <= 1 || changed <= 4 * limit
  {
    hide WindowIsEnough;
    if limit <= 1 || changed <= 4 * limit {
      forall score: Scores, cs, budget: nat | ChangedCount(cs) == changed
        ensures WindowIsEnough(score, cs, budget, limit) {
        FewAreEnough(score, cs, budget, limit);
      }
    } else {
      StarvedChoice(changed, limit);
    }
  }

  lemma FewAreEnough(score: Scores, cs: seq<Candidate>, budget: nat, limit: nat)
    requires limit <= 1 || ChangedCount(cs) <= 4 * limit
    ensures WindowIsEnough(score, cs, budget, limit)
  {
    hide WindowIsEnough;
    hide Greedy;
    hide Ranking;
    hide IsDuplicate;
    WindowIsEnoughIff(score, cs, budget, limit);
    RanksHaveSize(score, cs, limit);
    RanksCount(score, cs, |cs|);
    assert cs[..|cs|] == cs;
    var ranking := Ranking(score, cs);
    if 4 * limit < |ranking| {
      FirstIsTaken(cs, budget, limit, Window(score, cs, limit));
    }
  }

  lemma {:induction false} FirstIsTaken(cs: seq<Candidate>, budget: nat, limit: nat, ranked: seq<Rank>)
    requires InRange(cs, ranked) && limit <= 1 && |ranked| >= 4 * limit
    ensures Full(budget, limit, Greedy(cs, budget, limit, ranked))
  {
    if ranked == [] {
    } else {
      assert ranked[..1][..0] == [] && ranked[..1][0] == ranked[0];
      assert Full(budget, limit, Greedy(cs, budget, limit, ranked[..1]));
      FullStays(cs, budget, limit, ranked, 1);
    }
  }

  // Equal notes, and one that differs.
  const NOTE := Candidate(ToolSummary, None, [1], 0, 0, true)
  const OTHER_NOTE := Candidate(ToolSummary, None, [2], 0, 0, true)

  const NO_PREFERENCE: Scores := (cs: seq<Candidate>, i: nat) => 0

  function Starved(n: nat): seq<Candidate>
    requires n > 0
  {
    seq(n - 1, _ => NOTE) + [OTHER_NOTE]
  }

  lemma {:induction false} StarvedRanks(n: nat, upTo: nat)
    requires upTo <= n && n > 0
    ensures var r := Ranks(NO_PREFERENCE, Starved(n), upTo);
      |r| == upTo && forall i :: 0 <= i < upTo ==> r[i] == Rank(0, i)
  {
    if upTo > 0 {
      StarvedRanks(n, upTo - 1);
    }
  }

  lemma StarvedRanking(n: nat)
    requires n > 0
    ensures ChangedCount(Starved(n)) == n
    ensures Ranking(NO_PREFERENCE, Starved(n)) == seq(n, (i: nat) => Rank(0, i))
  {
    hide Listing;
    var cs, ranked := Starved(n), seq(n, (i: nat) => Rank(0, i));
    StarvedRanks(n, n);
    RanksCount(NO_PREFERENCE, cs, n);
    assert cs[..n] == cs;
    assert Ranks(NO_PREFERENCE, cs, n) == ranked;
    RankOrderIsStrict();
    ListingIs(RankLess, ranked, Elements(ranked));
  }

  /** A window full of equal candidates yields one item; a different one right below it is lost.
      With two items allowed, eight equal candidates and a ninth are enough for that. */
  lemma StarvedChoice(n: nat, limit: nat)
    requires limit >= 2 && n > 4 * limit
    ensures ChangedCount(Starved(n)) == n
    ensures InRange(Starved(n), Window(NO_PREFERENCE, Starved(n), limit))
    ensures |Greedy(Starved(n), 1000, limit, Window(NO_PREFERENCE, Starved(n), limit)).items| == 1
    ensures InRange(Starved(n), Ranking(NO_PREFERENCE, Starved(n)))
    ensures |Greedy(Starved(n), 1000, limit, Ranking(NO_PREFERENCE, Starved(n))).items| == 2
    ensures !WindowIsEnough(NO_PREFERENCE, Starved(n), 1000, limit)
  {
    hide Ranking;
    hide Greedy;
    hide IsDuplicate;
    var cs := Starved(n);
    StarvedRanking(n);
    var ranking := Ranking(NO_PREFERENCE, cs);
    RanksHaveSize(NO_PREFERENCE, cs, limit);
    DuplicatesStarveTheChoice(cs, 1000, limit, ranking[..4 * limit]);
    DuplicatesStarveTheChoice(cs, 1000, limit, ranking[..n - 1]);
    GreedyStep(cs, 1000, limit, ranking, n - 1);
    assert ranking[..n] == ranking;
    var s := Greedy(cs, 1000, limit, ranking[..n - 1]);
    OtherIsTaken(n, limit, s);
  }

  lemma OtherIsTaken(n: nat, limit: nat, s: Selected)
    requires n >= 2 && limit >= 2 && |s.items| == 1 && s.items[0].index == 0 && s.used < 1000
    ensures |Take(Starved(n), 1000, limit, s, Rank(0, n - 1)).items| == 2
  {
    assert Starved(n)[0] == NOTE && Starved(n)[n - 1] == OTHER_NOTE;
    assert NOTE.content[0] != OTHER_NOTE.content[0];
  }

  /** When the candidates looked at all duplicate the first one, only that one is chosen. */
  lemma {:induction false} DuplicatesStarveTheChoice(cs: seq<Candidate>, budget: nat, limit: nat, ranked: seq<Rank>)
    requires InRange(cs, ranked) && ranked != []
    requires forall k :: 1 <= k < |ranked| ==> Duplicate(cs[ranked[k].index], cs[ranked[0].index])
    requires budget > 0 && limit > 0
    ensures var s := Greedy(cs, budget, limit, ranked);
      |s.items| == 1 && s.items[0].index == ranked[0].index && s.used == Min(ByteLen(cs[ranked[0].index]), budget)
  {
    if |ranked| > 1 {
      DuplicatesStarveTheChoice(cs, budget, limit, ranked[..|ranked| - 1]);
    } else {
      assert ranked[..0] == [];
    }
  }
}
