/** The repository map's cache of snapshots. */
module RepoCache {
  // A snapshot is reused while the index stamp and the contents of the special files
  // (manifests, instructions, readmes) say that nothing changed.

  import opened Wrappers
  import CappedBuckets
  import GitIndex

  type Path = Bytes
  type Digest = Bytes

  /** Manifests, packages, source roots, test paths, documentation and instructions. */
  type Details(!new, ==)

  /** What the rest of the program sees of the repository: the number of tracked files, the first
      of them in path order, and the details. */
  datatype Snapshot = Snapshot(count: nat, tracked: seq<Path>, details: Details)

  /** A place where an index file may be. */
  type Location = nat

  datatype Stamp = Stamp(length: nat, modifiedNanos: nat)

  datatype IndexFile = IndexFile(bytes: Bytes, stamp: Stamp)

  /** The files map holds the regular, readable files below the root, under safe paths. */
  datatype Workspace = Workspace(
    isDir: bool, location: Location, indexes: map<Location, IndexFile>, files: map<Path, Bytes>)

  datatype RepoError = InvalidRoot | GitFailed | IndexParserPanicked

  datatype Content = Content(content: Bytes, truncated: bool, readable: bool)

  datatype SpecialFile = SpecialFile(path: Path, content: Content)

  /** What the cache takes as given: the hash, git itself, path classes and order, limits and the
      details of a snapshot, which are made from paths and special files. */
  datatype Repo = Repo(
    hash: Bytes -> Digest,
    lossy: Bytes -> Bytes,
    lsFiles: Option<Bytes> -> Result<seq<Path>, RepoError>,
    isSpecial: Path -> bool,
    limit: Path -> nat,
    maxSpecial: nat,
    maxFiles: nat,
    pathLess: (Path, Path) -> bool,
    details: (seq<Path>, seq<SpecialFile>) -> Details)

  // ----- Reading the workspace -----

  function StampAt(w: Workspace, l: Location): Option<Stamp> {
    if l in w.indexes then Some(w.indexes[l].stamp) else None
  }

  function BytesAt(w: Workspace, l: Location): Option<Bytes> {
    if l in w.indexes then Some(w.indexes[l].bytes) else None
  }

  /** The tracked paths: from the index file, or from git when the file is missing, too large
      or not understood. */
  function Listing(r: Repo, index: Option<Bytes>): Result<seq<Path>, RepoError> {
    if index.None? || |index.value| > GitIndex.MAX_INDEX_BYTES then r.lsFiles(index)
    else
      var parsed := GitIndex.Parse(index.value);
      if parsed.Ok? then Success(GitIndex.Mapped(r.lossy, parsed.value))
      else if parsed.Fail? then r.lsFiles(index) else Failure(IndexParserPanicked)
  }

  function ReadSpecial(r: Repo, w: Workspace, p: Path): Content {
    if p !in w.files then Content([], false, false)
    else
      var bytes, limit := w.files[p], r.limit(p);
      if |bytes| > limit then Content(bytes[..limit], true, true) else Content(bytes, false, true)
  }

  // ----- What is hashed -----

  function FramePath(p: Path): Bytes {
    p + [0]
  }

  function FramePaths(ps: seq<Path>): Bytes {
    if ps == [] then [] else FramePath(ps[0]) + FramePaths(ps[1..])
  }

  function Le64(n: nat): (s: Bytes)
    ensures |s| == 8
  {
    [n % 0x100, n / 0x100 % 0x100, n / 0x1_0000 % 0x100, n / 0x100_0000 % 0x100,
     n / 0x1_0000_0000 % 0x100, n / 0x100_0000_0000 % 0x100, n / 0x1_0000_0000_0000 % 0x100,
     n / 0x100_0000_0000_0000 % 0x100]
  }

  function FrameContent(c: Content): Bytes {
    Le64(|c.content|) + [if c.truncated then 1 else 0, if c.readable then 1 else 0] + c.content
  }

  function ContentDigest(r: Repo, c: Content): Digest {
    r.hash(FrameContent(c))
  }

  function FrameSpecials(r: Repo, fs: seq<SpecialFile>): Bytes {
    if fs == [] then []
    else FrameSpecials(r, fs[..|fs| - 1]) + FramePath(fs[|fs| - 1].path) + ContentDigest(r, fs[|fs| - 1].content)
  }

  // ----- The inventory -----

  datatype Fingerprint = Fingerprint(tracked: Digest, special: Digest)

  datatype SpecialStamp = SpecialStamp(path: Path, digest: Digest)

  datatype Inventory = Inventory(
    paths: seq<Path>, special: seq<SpecialFile>, location: Location, indexStamp: Option<Stamp>,
    specialStamps: seq<SpecialStamp>, fingerprint: Fingerprint)

  /** The special files among some paths, the first `maxSpecial` of them. */
  function Specials(r: Repo, w: Workspace, ps: seq<Path>): (fs: seq<SpecialFile>)
    ensures forall i :: 0 <= i < |fs| ==> fs[i].content == ReadSpecial(r, w, fs[i].path)
  {
    if ps == [] then []
    else
      var before, p := Specials(r, w, ps[..|ps| - 1]), ps[|ps| - 1];
      if !r.isSpecial(p) || |before| >= r.maxSpecial then before
      else before + [SpecialFile(p, ReadSpecial(r, w, p))]
  }

  function Stamps(r: Repo, fs: seq<SpecialFile>): (ss: seq<SpecialStamp>)
    ensures |ss| == |fs|
    ensures forall i :: 0 <= i < |fs| ==> ss[i] == SpecialStamp(fs[i].path, ContentDigest(r, fs[i].content))
  {
    seq(|fs|, i requires 0 <= i < |fs| => SpecialStamp(fs[i].path, ContentDigest(r, fs[i].content)))
  }

  function InventoryOf(r: Repo, w: Workspace, paths: seq<Path>): Inventory {
    var special := Specials(r, w, paths);
    Inventory(
      paths, special, w.location, StampAt(w, w.location), Stamps(r, special),
      Fingerprint(r.hash(FramePaths(paths)), r.hash(FrameSpecials(r, special))))
  }

  function Inspect(r: Repo, w: Workspace): Result<Inventory, RepoError> {
    if !w.isDir then Failure(InvalidRoot)
    else
      var listing := Listing(r, BytesAt(w, w.location));
      if listing.Failure? then Failure(listing.error) else Success(InventoryOf(r, w, listing.value))
  }

  function InsertPath(r: Repo, sorted: seq<Path>, p: Path): seq<Path> {
    if sorted == [] || !r.pathLess(p, sorted[|sorted| - 1]) then sorted + [p]
    else InsertPath(r, sorted[..|sorted| - 1], p) + [sorted[|sorted| - 1]]
  }

  /** A stable sort by path. */
  function SortPaths(r: Repo, ps: seq<Path>): seq<Path> {
    if ps == [] then [] else InsertPath(r, SortPaths(r, ps[..|ps| - 1]), ps[|ps| - 1])
  }

  /** The tracked files that a snapshot shows. */
  function Shown(r: Repo, ps: seq<Path>): seq<Path> {
    SortPaths(r, if |ps| <= r.maxFiles then ps else ps[..r.maxFiles])
  }

  function Build(r: Repo, inv: Inventory): Snapshot {
    Snapshot(|inv.paths|, Shown(r, inv.paths), r.details(inv.paths, inv.special))
  }

  /** What a map without a cache would return. */
  function Fresh(r: Repo, w: Workspace): Result<Snapshot, RepoError> {
    var inv := Inspect(r, w);
    if inv.Failure? then Failure(inv.error) else Success(Build(r, inv.value))
  }

  // ----- The cache -----

  datatype CacheEntry = CacheEntry(inventory: Inventory, snapshot: Snapshot)

  function EntryOf(r: Repo, inv: Inventory): CacheEntry {
    CacheEntry(inv, Build(r, inv))
  }

  predicate IsCurrent(r: Repo, e: CacheEntry, w: Workspace) {
    && StampAt(w, e.inventory.location) == e.inventory.indexStamp
    && forall i :: 0 <= i < |e.inventory.specialStamps| ==>
         ContentDigest(r, ReadSpecial(r, w, e.inventory.specialStamps[i].path)) == e.inventory.specialStamps[i].digest
  }

  datatype Step = Step(cache: Option<CacheEntry>, result: Result<Snapshot, RepoError>)

  function Take(r: Repo, cache: Option<CacheEntry>, w: Workspace): Step {
    if cache.Some? && IsCurrent(r, cache.value, w) then Step(cache, Success(cache.value.snapshot))
    else
      var inv := Inspect(r, w);
      if inv.Failure? then Step(cache, Failure(inv.error))
      else if cache.Some? && cache.value.inventory.fingerprint == inv.value.fingerprint
        then Step(cache, Success(cache.value.snapshot))
      else Step(Some(EntryOf(r, inv.value)), Success(Build(r, inv.value)))
  }

  datatype Op = TakeSnapshot(workspace: Workspace) | Invalidate

  /** The cache after a run; the workspace may be any other one at every call. */
  function CacheAfter(r: Repo, ops: seq<Op>): Option<CacheEntry> {
    if ops == [] then None
    else
      var op := ops[|ops| - 1];
      if op.Invalidate? then None else Take(r, CacheAfter(r, ops[..|ops| - 1]), op.workspace).cache
  }

  // ----- Hypotheses on a run -----

  predicate NulFree(ps: seq<Path>) {
    forall i :: 0 <= i < |ps| ==> 0 !in ps[i]
  }

  /** The byte strings that are hashed for a workspace. */
  ghost predicate Hashed(r: Repo, w: Workspace, s: Bytes) {
    || (exists p :: s == FrameContent(ReadSpecial(r, w, p)))
    || (var inv := Inspect(r, w);
        inv.Success? && (s == FramePaths(inv.value.paths) || s == FrameSpecials(r, inv.value.special)))
  }

  /** The hash has 32 bytes and does not collide on what these two workspaces make it hash. */
  ghost predicate Collides(r: Repo, v: Workspace, w: Workspace) {
    exists s, t :: Hashed(r, v, s) && Hashed(r, w, t) && s != t && r.hash(s) == r.hash(t)
  }

  /** Equal index stamps mean equal index bytes, and the index is at the same place. */
  predicate SameIndexWhenStamped(v: Workspace, w: Workspace) {
    && v.location == w.location
    && (StampAt(v, v.location) == StampAt(w, w.location) ==> BytesAt(v, v.location) == BytesAt(w, w.location))
  }

  ghost predicate Comparable(r: Repo, v: Workspace, w: Workspace) {
    && SameIndexWhenStamped(v, w) && !Collides(r, v, w)
    && (Inspect(r, v).Success? ==> NulFree(Inspect(r, v).value.paths))
    && (Inspect(r, w).Success? ==> NulFree(Inspect(r, w).value.paths))
  }

  ghost predicate WideHash(r: Repo) {
    forall s :: |r.hash(s)| == 32
  }

  // ----- The framings are injective -----

  lemma FirstFrame(ps: seq<Path>)
    requires ps != []
    ensures var s, m := FramePaths(ps), |ps[0]|;
      m < |s| && s[..m] == ps[0] && s[m] == 0 && s[m + 1..] == FramePaths(ps[1..])
  {
  }

  lemma FirstNulEnds(s: Bytes, p: Path, m: nat)
    requires |p| <= |s| && s[..|p|] == p && 0 !in p && m < |s| && s[m] == 0
    ensures m >= |p|
  {
    assert forall i :: 0 <= i < |p| ==> p[i] == s[i];
  }

  lemma {:induction false} PathFramingIsInjective(ps: seq<Path>, qs: seq<Path>)
    requires NulFree(ps) && NulFree(qs) && FramePaths(ps) == FramePaths(qs)
    ensures ps == qs
  {
    if ps == [] || qs == [] {
      assert ps != [] ==> |FramePaths(ps)| > 0;
      assert qs != [] ==> |FramePaths(qs)| > 0;
    } else {
      var s := FramePaths(ps);
      var m, n := |ps[0]|, |qs[0]|;
      FirstFrame(ps);
      FirstFrame(qs);
      FirstNulEnds(s, ps[0], n);
      FirstNulEnds(s, qs[0], m);
      PathFramingIsInjective(ps[1..], qs[1..]);
      assert ps == [ps[0]] + ps[1..] && qs == [qs[0]] + qs[1..];
    }
  }

  /** With a NUL byte in a path the framing is ambiguous. */
  lemma PathFramingNeedsNulFree(a: Path, b: Path)
    ensures FramePaths([a, b]) == FramePaths([a + [0] + b]) && [a, b] != [a + [0] + b]
  {
    assert [a, b][1..] == [b];
    assert FramePaths([b]) == FramePath(b);
    assert FramePath(a) + FramePath(b) == FramePath(a + [0] + b);
  }

  lemma ContentFramingIsInjective(c: Content, d: Content)
    requires FrameContent(c) == FrameContent(d)
    ensures c == d
  {
    var s := FrameContent(c);
    assert s[8] == (if c.truncated then 1 else 0) == (if d.truncated then 1 else 0);
    assert s[9] == (if c.readable then 1 else 0) == (if d.readable then 1 else 0);
    assert s[10..] == c.content == d.content;
  }

  /** Over the same special paths, the framing of their digests determines the digests. */
  lemma {:induction false} SpecialFramingIsInjective(r: Repo, fs: seq<SpecialFile>, gs: seq<SpecialFile>)
    requires WideHash(r) && |fs| == |gs| && forall i :: 0 <= i < |fs| ==> fs[i].path == gs[i].path
    requires FrameSpecials(r, fs) == FrameSpecials(r, gs)
    ensures forall i :: 0 <= i < |fs| ==> ContentDigest(r, fs[i].content) == ContentDigest(r, gs[i].content)
  {
    if fs != [] {
      var n := |fs| - 1;
      var s := FrameSpecials(r, fs);
      var a, b := FrameSpecials(r, fs[..n]), FrameSpecials(r, gs[..n]);
      var da, db := ContentDigest(r, fs[n].content), ContentDigest(r, gs[n].content);
      assert s == a + FramePath(fs[n].path) + da == b + FramePath(fs[n].path) + db;
      assert |a| == |b|;
      assert a == s[..|a|] == b;
      assert da == s[|s| - 32..] == db;
      SpecialFramingIsInjective(r, fs[..n], gs[..n]);
    }
  }

  // ----- Coherence -----

  lemma {:induction false} SameSpecialPaths(r: Repo, v: Workspace, w: Workspace, ps: seq<Path>)
    ensures var fs, gs := Specials(r, v, ps), Specials(r, w, ps);
      |fs| == |gs| && forall i :: 0 <= i < |fs| ==> fs[i].path == gs[i].path
  {
    if ps != [] {
      SameSpecialPaths(r, v, w, ps[..|ps| - 1]);
    }
  }

  /** Same paths and same digests of the special files: same inventory of special files. */
  lemma SameSpecials(r: Repo, v: Workspace, w: Workspace, ps: seq<Path>)
    requires !Collides(r, v, w)
    requires forall i :: 0 <= i < |Specials(r, v, ps)| ==>
      var f := Specials(r, v, ps)[i]; ContentDigest(r, f.content) == ContentDigest(r, ReadSpecial(r, w, f.path))
    ensures Specials(r, v, ps) == Specials(r, w, ps)
  {
    SameSpecialPaths(r, v, w, ps);
    var fs, gs := Specials(r, v, ps), Specials(r, w, ps);
    forall i | 0 <= i < |fs| ensures fs[i] == gs[i] {
      var c, d := ReadSpecial(r, v, fs[i].path), ReadSpecial(r, w, fs[i].path);
      assert Hashed(r, v, FrameContent(c)) && Hashed(r, w, FrameContent(d));
      ContentFramingFromDigest(r, v, w, c, d);
    }
  }

  lemma ContentFramingFromDigest(r: Repo, v: Workspace, w: Workspace, c: Content, d: Content)
    requires !Collides(r, v, w) && Hashed(r, v, FrameContent(c)) && Hashed(r, w, FrameContent(d))
    requires ContentDigest(r, c) == ContentDigest(r, d)
    ensures c == d
  {
    ContentFramingIsInjective'(c, d);
  }

  lemma ContentFramingIsInjective'(c: Content, d: Content)
    ensures FrameContent(c) == FrameContent(d) ==> c == d
  {
    if FrameContent(c) == FrameContent(d) {
      ContentFramingIsInjective(c, d);
    }
  }

  /** A cache entry made for v is current for w only if w has the same listing and specials. */
  lemma CurrentMeansSame(r: Repo, v: Workspace, w: Workspace)
    requires Comparable(r, v, w) && Inspect(r, v).Success? && w.isDir
    requires IsCurrent(r, EntryOf(r, Inspect(r, v).value), w)
    ensures Fresh(r, w) == Fresh(r, v)
  {
    hide Collides;
    CurrentSpecials(r, v, w, EntryOf(r, Inspect(r, v).value));
  }

  lemma SameFingerprintMeansSame(r: Repo, v: Workspace, w: Workspace)
    requires WideHash(r) && Comparable(r, v, w) && Inspect(r, v).Success? && Inspect(r, w).Success?
    requires Inspect(r, v).value.fingerprint == Inspect(r, w).value.fingerprint
    ensures Fresh(r, w) == Fresh(r, v)
  {
    var a, b := Inspect(r, v).value, Inspect(r, w).value;
    assert Hashed(r, v, FramePaths(a.paths)) && Hashed(r, w, FramePaths(b.paths));
    assert FramePaths(a.paths) == FramePaths(b.paths);
    PathFramingIsInjective(a.paths, b.paths);
    assert Hashed(r, v, FrameSpecials(r, a.special)) && Hashed(r, w, FrameSpecials(r, b.special));
    assert FrameSpecials(r, a.special) == FrameSpecials(r, b.special);
    SameSpecialPaths(r, v, w, a.paths);
    SpecialFramingIsInjective(r, a.special, b.special);
    SameSpecials(r, v, w, a.paths);
  }

  predicate MadeFrom(r: Repo, e: CacheEntry, op: Op) {
    op.TakeSnapshot? && Inspect(r, op.workspace).Success? && e == EntryOf(r, Inspect(r, op.workspace).value)
  }

  /** The cache holds the entry of a workspace that some earlier call saw. */
  lemma {:induction false} CacheComesFromHistory(r: Repo, ops: seq<Op>)
    requires CacheAfter(r, ops).Some?
    ensures exists i :: 0 <= i < |ops| && MadeFrom(r, CacheAfter(r, ops).value, ops[i])
  {
    var n := |ops| - 1;
    var before := CacheAfter(r, ops[..n]);
    if CacheAfter(r, ops) == before {
      CacheComesFromHistory(r, ops[..n]);
      var i :| 0 <= i < n && MadeFrom(r, before.value, ops[..n][i]);
      assert ops[i] == ops[..n][i];
    } else {
      assert MadeFrom(r, CacheAfter(r, ops).value, ops[n]);
    }
  }

  /** The last call of a run may be compared with every call before it. */
  ghost predicate Trusted(r: Repo, ops: seq<Op>, w: Workspace) {
    WideHash(r) && forall i :: 0 <= i < |ops| && ops[i].TakeSnapshot? ==> Comparable(r, ops[i].workspace, w)
  }

  /** After any run of edits, calls and invalidations the map returns what a rebuild returns,
      unless the root is gone and the entry still looks current. */
  lemma CacheIsCoherentIff(r: Repo, ops: seq<Op>, w: Workspace)
    requires Trusted(r, ops, w)
    ensures var cache := CacheAfter(r, ops);
      Take(r, cache, w).result == Fresh(r, w) <==> w.isDir || cache.None? || !IsCurrent(r, cache.value, w)
  {
    var cache := CacheAfter(r, ops);
    if cache.Some? {
      CacheComesFromHistory(r, ops);
      var i :| 0 <= i < |ops| && MadeFrom(r, cache.value, ops[i]);
      var v := ops[i].workspace;
      if w.isDir && IsCurrent(r, cache.value, w) {
        CurrentMeansSame(r, v, w);
      } else if Inspect(r, w).Success? && cache.value.inventory.fingerprint == Inspect(r, w).value.fingerprint {
        SameFingerprintMeansSame(r, v, w);
      }
    }
  }

  /** This listing leads to the snapshot that was made from the inventory: as many paths, the same
      ones shown, and the same details. */
  predicate LeadsTo(r: Repo, w: Workspace, listing: Result<seq<Path>, RepoError>, inv: Inventory) {
    && listing.Success? && |listing.value| == |inv.paths| && Shown(r, listing.value) == Shown(r, inv.paths)
    && r.details(listing.value, Specials(r, w, listing.value)) == r.details(inv.paths, inv.special)
  }

  /** A call that finds the entry current does not look for the index again.  After any run of
      edits, calls and invalidations its answer is what a rebuild returns exactly when the index
      of the workspace, wherever it is now, leads to the snapshot of the entry; so it is when the
      listing is the old one. */
  lemma CurrentAnswerIff(r: Repo, ops: seq<Op>, w: Workspace)
    requires CacheAfter(r, ops).Some? && w.isDir && IsCurrent(r, CacheAfter(r, ops).value, w)
    requires forall i :: 0 <= i < |ops| && ops[i].TakeSnapshot? ==> !Collides(r, ops[i].workspace, w)
    ensures var cache, now := CacheAfter(r, ops), Listing(r, BytesAt(w, w.location));
      && (Take(r, cache, w).result == Fresh(r, w) <==> LeadsTo(r, w, now, cache.value.inventory))
      && (now == Success(cache.value.inventory.paths) ==> Take(r, cache, w).result == Fresh(r, w))
  {
    hide Listing;
    hide Collides;
    hide Shown;
    CacheComesFromHistory(r, ops);
    var e := CacheAfter(r, ops).value;
    var i :| 0 <= i < |ops| && MadeFrom(r, e, ops[i]);
    var v := ops[i].workspace;
    CurrentSpecials(r, v, w, e);
  }

  lemma {:induction false} InsertIsPermutation(r: Repo, sorted: seq<Path>, p: Path)
    ensures multiset(InsertPath(r, sorted, p)) == multiset(sorted) + multiset{p}
  {
    if sorted != [] && r.pathLess(p, sorted[|sorted| - 1]) {
      InsertIsPermutation(r, sorted[..|sorted| - 1], p);
      assert sorted == sorted[..|sorted| - 1] + [sorted[|sorted| - 1]];
    }
  }

  lemma {:induction false} SortIsPermutation(r: Repo, ps: seq<Path>)
    ensures multiset(SortPaths(r, ps)) == multiset(ps)
  {
    if ps != [] {
      SortIsPermutation(r, ps[..|ps| - 1]);
      InsertIsPermutation(r, SortPaths(r, ps[..|ps| - 1]), ps[|ps| - 1]);
      assert ps == ps[..|ps| - 1] + [ps[|ps| - 1]];
    }
  }

  /** Lists in one strict order show the same paths only if they are the same, as long as nothing
      is cut off. */
  lemma ShownInOrder(r: Repo, ps: seq<Path>, qs: seq<Path>, order: (Path, Path) -> bool)
    requires CappedBuckets.StrictOrder(order) && CappedBuckets.Ordered(order, ps) && CappedBuckets.Ordered(order, qs)
    requires |ps| == |qs| <= r.maxFiles && Shown(r, ps) == Shown(r, qs)
    ensures ps == qs
  {
    SortIsPermutation(r, ps);
    SortIsPermutation(r, qs);
    forall p ensures p in ps <==> p in qs {
      assert p in ps <==> p in multiset(ps);
      assert p in qs <==> p in multiset(qs);
    }
    CappedBuckets.OrderedIsUnique(order, ps, qs);
  }

  /** For listings in one order, as Git keeps them, that are shown in full, the answer is right
      exactly when the listing is the old one. */
  lemma CurrentAnswerInOrderIff(r: Repo, ops: seq<Op>, w: Workspace, order: (Path, Path) -> bool)
    requires CacheAfter(r, ops).Some? && w.isDir && IsCurrent(r, CacheAfter(r, ops).value, w)
    requires forall i :: 0 <= i < |ops| && ops[i].TakeSnapshot? ==> !Collides(r, ops[i].workspace, w)
    requires CappedBuckets.StrictOrder(order)
    requires var before, now := CacheAfter(r, ops).value.inventory.paths, Listing(r, BytesAt(w, w.location));
      && CappedBuckets.Ordered(order, before) && |before| <= r.maxFiles
      && (now.Success? ==> CappedBuckets.Ordered(order, now.value))
    ensures var cache := CacheAfter(r, ops);
      Take(r, cache, w).result == Fresh(r, w)
      <==> Listing(r, BytesAt(w, w.location)) == Success(cache.value.inventory.paths)
  {
    hide Listing;
    hide Collides;
    hide Shown;
    hide Take;
    hide Fresh;
    hide IsCurrent;
    hide CacheAfter;
    var inv, now := CacheAfter(r, ops).value.inventory, Listing(r, BytesAt(w, w.location));
    CurrentAnswerIff(r, ops, w);
    if LeadsTo(r, w, now, inv) {
      ShownInOrder(r, now.value, inv.paths, order);
    }
  }

  lemma CurrentSpecials(r: Repo, v: Workspace, w: Workspace, e: CacheEntry)
    requires !Collides(r, v, w) && Inspect(r, v).Success? && e == EntryOf(r, Inspect(r, v).value)
    requires IsCurrent(r, e, w)
    ensures Specials(r, w, e.inventory.paths) == e.inventory.special
  {
    hide Listing;
    hide Collides;
    var inv := e.inventory;
    forall i | 0 <= i < |inv.special|
      ensures ContentDigest(r, inv.special[i].content) == ContentDigest(r, ReadSpecial(r, w, inv.special[i].path))
    {
      assert inv.specialStamps[i] == SpecialStamp(inv.special[i].path, ContentDigest(r, inv.special[i].content));
    }
    SameSpecials(r, v, w, inv.paths);
  }

  /** The index moves; its old place and the files stay as they were. */
  predicate IndexMoved(v: Workspace, w: Workspace) {
    w.isDir && w.files == v.files && StampAt(w, v.location) == StampAt(v, v.location)
  }

  lemma MovedEntryIsCurrent(r: Repo, v: Workspace, w: Workspace)
    requires Inspect(r, v).Success? && IndexMoved(v, w)
    ensures IsCurrent(r, EntryOf(r, Inspect(r, v).value), w)
    ensures Take(r, Some(EntryOf(r, Inspect(r, v).value)), w).result == Fresh(r, v)
  {
    var inv := Inspect(r, v).value;
    forall p ensures ReadSpecial(r, w, p) == ReadSpecial(r, v, p) {
    }
    forall i | 0 <= i < |inv.specialStamps|
      ensures ContentDigest(r, ReadSpecial(r, w, inv.specialStamps[i].path)) == inv.specialStamps[i].digest
    {
      assert inv.specialStamps[i] == SpecialStamp(inv.special[i].path, ContentDigest(r, inv.special[i].content));
    }
  }

  lemma {:induction false} SameFilesSameSpecials(r: Repo, v: Workspace, w: Workspace, ps: seq<Path>)
    requires v.files == w.files
    ensures Specials(r, v, ps) == Specials(r, w, ps)
  {
    if ps != [] {
      SameFilesSameSpecials(r, v, w, ps[..|ps| - 1]);
    }
  }

  /** The place of the index is not looked up again, so after a move the old snapshot is returned;
      it is the right one exactly when the new index leads to it, as it does when both indexes
      list the same paths. */
  lemma MovedIndexIff(r: Repo, v: Workspace, w: Workspace)
    requires Inspect(r, v).Success? && IndexMoved(v, w)
    ensures var answer, inv := Take(r, Some(EntryOf(r, Inspect(r, v).value)), w).result, Inspect(r, v).value;
      var now := Listing(r, BytesAt(w, w.location));
      && answer == Fresh(r, v) && (answer == Fresh(r, w) <==> LeadsTo(r, w, now, inv))
      && (now == Success(inv.paths) ==> answer == Fresh(r, w))
  {
    hide Listing;
    hide IsCurrent;
    hide Shown;
    MovedEntryIsCurrent(r, v, w);
    SameFilesSameSpecials(r, v, w, Inspect(r, v).value.paths);
  }

  function IndexOf(entries: seq<GitIndex.IndexEntry>): GitIndex.IndexFile {
    GitIndex.IndexFile(2, entries, [], GitIndex.Zeros(20))
  }

  const ENTRY_A := GitIndex.IndexEntry(GitIndex.Zeros(60), false, 0, None, [97])

  lemma SmallIndexes()
    ensures GitIndex.ValidFile(IndexOf([])) && GitIndex.ValidFile(IndexOf([ENTRY_A]))
    ensures |GitIndex.EncodeFile(IndexOf([]))| == 32 && |GitIndex.EncodeFile(IndexOf([ENTRY_A]))| == 96
    ensures GitIndex.Parse(GitIndex.EncodeFile(IndexOf([]))) == GitIndex.Ok([])
    ensures GitIndex.Parse(GitIndex.EncodeFile(IndexOf([ENTRY_A]))) == GitIndex.Ok([[97]])
  {
    hide GitIndex.Parse;
    assert ENTRY_A.stat[24..28] == [0, 0, 0, 0];
    assert GitIndex.ValidEntry(ENTRY_A);
    assert [ENTRY_A][1..] == [];
    assert GitIndex.EncodeEntries([ENTRY_A]) == GitIndex.EncodeEntry(ENTRY_A) + GitIndex.EncodeEntries([]);
    GitIndex.FileRoundTrip(IndexOf([]));
    GitIndex.FileRoundTrip(IndexOf([ENTRY_A]));
    assert GitIndex.Names([ENTRY_A]) == [[97]];
  }

  /** An empty index at place 0, and later one with a file at place 1, the old one untouched: the
      map still returns the snapshot without files. */
  lemma MovedIndexIsMissed(r: Repo, files: map<Path, Bytes>, old0: Stamp, new1: Stamp)
    ensures GitIndex.ValidFile(IndexOf([])) && GitIndex.ValidFile(IndexOf([ENTRY_A]))
    ensures var before := IndexFile(GitIndex.EncodeFile(IndexOf([])), old0);
      var after := IndexFile(GitIndex.EncodeFile(IndexOf([ENTRY_A])), new1);
      var v, w := Workspace(true, 0, map[0 := before], files), Workspace(true, 1, map[0 := before, 1 := after], files);
      && Inspect(r, v).Success? && Fresh(r, w).Success?
      && Take(r, Some(EntryOf(r, Inspect(r, v).value)), w).result == Fresh(r, v) != Fresh(r, w)
  {
    hide GitIndex.Parse;
    hide GitIndex.EncodeFile;
    hide IsCurrent;
    hide Take;
    SmallIndexes();
    var before := IndexFile(GitIndex.EncodeFile(IndexOf([])), old0);
    var after := IndexFile(GitIndex.EncodeFile(IndexOf([ENTRY_A])), new1);
    var v, w := Workspace(true, 0, map[0 := before], files), Workspace(true, 1, map[0 := before, 1 := after], files);
    assert BytesAt(v, 0) == Some(before.bytes) && BytesAt(w, 1) == Some(after.bytes);
    assert GitIndex.Mapped(r.lossy, []) == [] && |GitIndex.Mapped(r.lossy, [[97]])| == 1;
    MovedEntryIsCurrent(r, v, w);
    MovedIndexIff(r, v, w);
  }

  // ----- The mutable map -----

  /** The second loop: special files, their stamps and the bytes given to the hasher. */
  method ReadSpecials(r: Repo, w: Workspace, paths: seq<Path>)
    returns (special: seq<SpecialFile>, stamps: seq<SpecialStamp>, hashed: Bytes)
    ensures special == Specials(r, w, paths) && stamps == Stamps(r, special) && hashed == FrameSpecials(r, special)
  {
    hide ReadSpecial;
    hide ContentDigest;
    hide FramePath;
    special, stamps, hashed := [], [], [];
    for i := 0 to |paths|
      invariant special == Specials(r, w, paths[..i])
      invariant stamps == Stamps(r, special) && hashed == FrameSpecials(r, special)
    {
      assert paths[..i + 1][..i] == paths[..i];
      var path := paths[i];
      if !r.isSpecial(path) || |special| >= r.maxSpecial {
        continue;
      }
      var file := ReadSpecial(r, w, path);
      var digest := ContentDigest(r, file);
      hashed := hashed + FramePath(path) + digest;
      stamps := stamps + [SpecialStamp(path, digest)];
      ghost var before := special;
      special := special + [SpecialFile(path, file)];
      assert special[..|special| - 1] == before;
    }
    assert paths[..|paths|] == paths;
  }

  lemma {:induction false} FramePathsAppend(ps: seq<Path>, p: Path)
    ensures FramePaths(ps + [p]) == FramePaths(ps) + FramePath(p)
  {
    if ps == [] {
      assert [p][1..] == [];
    } else {
      assert (ps + [p])[1..] == ps[1..] + [p];
      FramePathsAppend(ps[1..], p);
    }
  }

  method CollectInventory(r: Repo, w: Workspace) returns (inv: Result<Inventory, RepoError>)
    ensures inv == Inspect(r, w)
  {
    if !w.isDir {
      return Failure(InvalidRoot);
    }
    var listing := Listing(r, BytesAt(w, w.location));
    if listing.Failure? {
      return Failure(listing.error);
    }
    var paths := listing.value;
    var tracked: Bytes := [];
    for i := 0 to |paths|
      invariant tracked == FramePaths(paths[..i])
    {
      FramePathsAppend(paths[..i], paths[i]);
      assert paths[..i + 1] == paths[..i] + [paths[i]];
      tracked := tracked + FramePath(paths[i]);
    }
    assert paths[..|paths|] == paths;
    var special, stamps, hashed := ReadSpecials(r, w, paths);
    return Success(Inventory(
      paths, special, w.location, StampAt(w, w.location), stamps, Fingerprint(r.hash(tracked), r.hash(hashed))));
  }

  class RepoMap {
    const repo: Repo
    var cache: Option<CacheEntry>

    constructor (repo: Repo)
      ensures this.repo == repo && cache == CacheAfter(repo, [])
    {
      this.repo := repo;
      cache := None;
    }

    method TakeSnapshot(w: Workspace) returns (result: Result<Snapshot, RepoError>)
      modifies this
      ensures Step(cache, result) == Take(repo, old(cache), w)
    {
      if cache.Some? && IsCurrent(repo, cache.value, w) {
        return Success(cache.value.snapshot);
      }
      var inv := CollectInventory(repo, w);
      if inv.Failure? {
        return Failure(inv.error);
      }
      if cache.Some? && cache.value.inventory.fingerprint == inv.value.fingerprint {
        return Success(cache.value.snapshot);
      }
      var snapshot := Build(repo, inv.value);
      cache := Some(CacheEntry(inv.value, snapshot));
      return Success(snapshot);
    }

    method Invalidate()
      modifies this
      ensures cache == None
    {
      cache := None;
    }
  }
}
