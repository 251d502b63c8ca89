/** What a snapshot shows, and when an entry is still current. */
module RepoSnapshots {
  // Snapshots and entries described by the bytes of the workspace.

  import opened RepoCache
  import opened Wrappers
  import CappedBuckets
  import GitIndex

  // ----- Special files -----

  /** The file is there in both workspaces or in neither, and as far as it is read its bytes are
      the same: up to the limit, and whether there are more. */
  predicate SameStart(r: Repo, v: Workspace, w: Workspace, p: Path) {
    && (p in v.files <==> p in w.files)
    && (p in v.files ==> AgreeUpTo(v.files[p], w.files[p], r.limit(p)))
  }

  predicate AgreeUpTo(a: Bytes, b: Bytes, limit: nat) {
    && (|a| > limit <==> |b| > limit)
    && (|a| <= limit ==> |a| == |b|)
    && forall k :: 0 <= k < |a| && k < |b| && k < limit ==> a[k] == b[k]
  }

  /** What is read of a special file: its bytes up to the limit, and whether there are more. */
  predicate IsStart(r: Repo, w: Workspace, p: Path, c: Content) {
    && (c.readable <==> p in w.files)
    && (!c.readable ==> c.content == [] && !c.truncated)
    && (c.readable ==> AgreeUpTo(c.content + (if c.truncated then [0] else []), w.files[p], r.limit(p)))
  }

  /** Reading a special file tells exactly what it starts with. */
  lemma ReadTellsStart(r: Repo, v: Workspace, w: Workspace, p: Path)
    ensures IsStart(r, w, p, ReadSpecial(r, w, p))
    ensures ReadSpecial(r, v, p) == ReadSpecial(r, w, p) <==> SameStart(r, v, w, p)
  {
    if p in v.files && p in w.files {
      var a, b, n := v.files[p], w.files[p], r.limit(p);
      if ReadSpecial(r, v, p) == ReadSpecial(r, w, p) {
        forall k | 0 <= k < |a| && k < |b| && k < n ensures a[k] == b[k] {
          assert ReadSpecial(r, v, p).content[k] == a[k] && ReadSpecial(r, w, p).content[k] == b[k];
        }
      }
    }
  }

  function CountSpecial(r: Repo, ps: seq<Path>): nat {
    if ps == [] then 0 else CountSpecial(r, ps[..|ps| - 1]) + if r.isSpecial(ps[|ps| - 1]) then 1 else 0
  }

  /** The file is one of the first special ones. */
  predicate IsAmongFirst(r: Repo, ps: seq<Path>, j: nat)
    requires j < |ps|
  {
    r.isSpecial(ps[j]) && CountSpecial(r, ps[..j]) < r.maxSpecial
  }

  /** The file at place j of the listing is read, and stands where its number says. */
  predicate IsRead(r: Repo, w: Workspace, ps: seq<Path>, j: nat)
    requires j < |ps|
  {
    var fs, k := Specials(r, w, ps), CountSpecial(r, ps[..j]);
    k < |fs| && fs[k] == SpecialFile(ps[j], ReadSpecial(r, w, ps[j]))
  }

  /** The special files are the first ones of a special kind, in their order, as they are read. */
  lemma {:induction false} SpecialsAreFirst(r: Repo, w: Workspace, ps: seq<Path>)
    ensures |Specials(r, w, ps)| == if CountSpecial(r, ps) <= r.maxSpecial then CountSpecial(r, ps) else r.maxSpecial
    ensures forall j :: 0 <= j < |ps| && IsAmongFirst(r, ps, j) ==> IsRead(r, w, ps, j)
  {
    hide ReadSpecial;
    if ps != [] {
      var n := |ps| - 1;
      SpecialsAreFirst(r, w, ps[..n]);
      forall j | 0 <= j < |ps| && IsAmongFirst(r, ps, j) ensures IsRead(r, w, ps, j) {
        if j < n {
          assert ps[..n][..j] == ps[..j];
          assert IsAmongFirst(r, ps[..n], j) && IsRead(r, w, ps[..n], j);
          assert Specials(r, w, ps[..n]) <= Specials(r, w, ps);
        }
      }
    }
  }

  /** The place in the listing of a special file. */
  lemma {:induction false} ComesFrom(r: Repo, w: Workspace, ps: seq<Path>, i: nat) returns (j: nat)
    requires i < |Specials(r, w, ps)|
    ensures j < |ps| && IsAmongFirst(r, ps, j) && Specials(r, w, ps)[i].path == ps[j]
  {
    hide ReadSpecial;
    var n := |ps| - 1;
    var front := Specials(r, w, ps[..n]);
    if i < |front| {
      j := ComesFrom(r, w, ps[..n], i);
      assert ps[..n][..j] == ps[..j];
    } else {
      j := n;
      SpecialsAreFirst(r, w, ps[..n]);
    }
  }

  // ----- When an entry is current -----

  /** An entry that was made from v looks current in w exactly when the stamp of the index at its old
      place is the same, and every special file among the first ones starts as it did. */
  lemma CurrentIff(r: Repo, v: Workspace, w: Workspace)
    requires Inspect(r, v).Success? && !Collides(r, v, w)
    ensures var ps := Inspect(r, v).value.paths;
      IsCurrent(r, EntryOf(r, Inspect(r, v).value), w) <==>
        (StampAt(w, v.location) == StampAt(v, v.location)
         && forall j :: 0 <= j < |ps| && IsAmongFirst(r, ps, j) ==> SameStart(r, v, w, ps[j]))
  {
    hide Listing;
    hide Collides;
    hide SameStart;
    hide ReadSpecial;
    hide Build;
    hide IsAmongFirst;
    var inv := Inspect(r, v).value;
    var e, ps := EntryOf(r, inv), inv.paths;
    SpecialsAreFirst(r, v, ps);
    if IsCurrent(r, e, w) {
      CurrentSpecials(r, v, w, e);
      SpecialsAreFirst(r, w, ps);
      forall j | 0 <= j < |ps| && IsAmongFirst(r, ps, j) ensures SameStart(r, v, w, ps[j]) {
        ReadTellsStart(r, v, w, ps[j]);
        assert IsRead(r, v, ps, j) && IsRead(r, w, ps, j);
      }
    }
    if StampAt(w, v.location) == StampAt(v, v.location)
      && forall j :: 0 <= j < |ps| && IsAmongFirst(r, ps, j) ==> SameStart(r, v, w, ps[j])
    {
      forall i | 0 <= i < |e.inventory.specialStamps|
        ensures var stamp := e.inventory.specialStamps[i];
          ContentDigest(r, ReadSpecial(r, w, stamp.path)) == stamp.digest
      {
        var j := ComesFrom(r, v, ps, i);
        ReadTellsStart(r, v, w, ps[j]);
        assert e.inventory.specialStamps[i] == SpecialStamp(ps[j], ContentDigest(r, inv.special[i].content));
      }
    }
  }

  // ----- What a fresh snapshot shows -----

  /** The order is one of paths: any two are ordered, at most one way. */
  ghost predicate TotalOrder(r: Repo) {
    CappedBuckets.StrictOrder(r.pathLess)
  }

  predicate IsSorted(r: Repo, ps: seq<Path>) {
    forall i, j :: 0 <= i < j < |ps| ==> !r.pathLess(ps[j], ps[i])
  }

  lemma {:induction false} InsertSorts(r: Repo, sorted: seq<Path>, p: Path)
    requires TotalOrder(r) && IsSorted(r, sorted)
    ensures IsSorted(r, InsertPath(r, sorted, p))
    ensures forall q :: q in InsertPath(r, sorted, p) ==> q in sorted || q == p
  {
    var n := |sorted| - 1;
    if sorted != [] && r.pathLess(p, sorted[n]) {
      var front := InsertPath(r, sorted[..n], p);
      InsertSorts(r, sorted[..n], p);
      forall i | 0 <= i < |front| ensures !r.pathLess(sorted[n], front[i]) {
        assert front[i] in front;
      }
    } else if sorted != [] {
      forall i | 0 <= i < |sorted| ensures !r.pathLess(p, sorted[i]) {
        assert i < n ==> !r.pathLess(sorted[n], sorted[i]);
      }
    }
  }

  lemma {:induction false} SortSorts(r: Repo, ps: seq<Path>)
    requires TotalOrder(r)
    ensures IsSorted(r, SortPaths(r, ps))
  {
    if ps != [] {
      SortSorts(r, ps[..|ps| - 1]);
      InsertSorts(r, SortPaths(r, ps[..|ps| - 1]), ps[|ps| - 1]);
    }
  }

  /** There is a fresh snapshot exactly when the root is a directory and the paths can be listed.
      It counts them all, shows the first ones sorted, and leaves its details to the paths and the
      special files. */
  lemma FreshShows(r: Repo, w: Workspace)
    requires TotalOrder(r)
    ensures var listing, made := Listing(r, BytesAt(w, w.location)), Fresh(r, w);
      && (made.Success? <==> w.isDir && listing.Success?)
      && (made.Failure? ==> made.error == if w.isDir then listing.error else InvalidRoot)
      && (made.Success? ==>
            var ps, s := listing.value, made.value;
            && s.count == |ps|
            && |s.tracked| == (if |ps| <= r.maxFiles then |ps| else r.maxFiles)
            && multiset(s.tracked) == multiset(ps[..|s.tracked|]) && IsSorted(r, s.tracked)
            && s.details == r.details(ps, Specials(r, w, ps)))
  {
    hide Listing;
    hide Specials;
    var listing := Listing(r, BytesAt(w, w.location));
    if listing.Success? {
      var ps := listing.value;
      var first := if |ps| <= r.maxFiles then ps else ps[..r.maxFiles];
      SortIsPermutation(r, first);
      SortSorts(r, first);
      assert |SortPaths(r, first)| == |multiset(SortPaths(r, first))| == |multiset(first)| == |first|;
      assert first == ps[..|first|];
    }
  }

  /** The paths are those that git wrote into the index, as long as it is no larger than is read and
      has no extension that cannot be; of any other index they are what git itself says. */
  lemma ListingIs(r: Repo, f: GitIndex.IndexFile)
    requires GitIndex.ValidFile(f)
    ensures Listing(r, Some(GitIndex.EncodeFile(f))) ==
      if |GitIndex.EncodeFile(f)| <= GitIndex.MAX_INDEX_BYTES && !GitIndex.SeesForbidden(f.extensions, f.checksum)
      then Success(GitIndex.Mapped(r.lossy, GitIndex.Names(f.entries)))
      else r.lsFiles(Some(GitIndex.EncodeFile(f)))
    ensures Listing(r, None) == r.lsFiles(None)
  {
    if |GitIndex.EncodeFile(f)| <= GitIndex.MAX_INDEX_BYTES {
      GitIndex.FileRoundTripIff(f);
    }
  }

  // ----- Answers over runs -----

  /** After a call that succeeded the map holds what it answered, in an entry that looks current or
      has the fingerprint of the workspace; a call that failed leaves the entry alone. */
  lemma EntryAfterCall(r: Repo, ops: seq<Op>, w: Workspace)
    ensures var before, answer := CacheAfter(r, ops), Take(r, CacheAfter(r, ops), w).result;
      var after := CacheAfter(r, ops + [TakeSnapshot(w)]);
      if answer.Failure? then after == before
      else
        && after.Some? && after.value.snapshot == answer.value
        && (IsCurrent(r, after.value, w)
            || (Inspect(r, w).Success? && after.value.inventory.fingerprint == Inspect(r, w).value.fingerprint))
  {
    hide Inspect;
    hide IsCurrent;
    hide Build;
    assert (ops + [TakeSnapshot(w)])[..|ops|] == ops;
  }

  /** So asking again, when nothing has changed, gives the same answer. */
  lemma AskingAgain(r: Repo, ops: seq<Op>, w: Workspace)
    requires Take(r, CacheAfter(r, ops), w).result.Success?
    ensures Take(r, CacheAfter(r, ops + [TakeSnapshot(w)]), w) ==
      Step(CacheAfter(r, ops + [TakeSnapshot(w)]), Take(r, CacheAfter(r, ops), w).result)
  {
    hide Inspect;
    hide IsCurrent;
    hide Build;
    hide CacheAfter;
    EntryAfterCall(r, ops, w);
  }
}
