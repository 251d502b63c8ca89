/** The relationship index over all runs, overflow included. */
module RelationshipRuns {
  import opened Wrappers
  import opened CappedBuckets
  import opened RelationshipIndex

  // ----- Well-formed over every run -----

  ghost predicate GoodBucket<T(!new)>(less: (T, T) -> bool, s: seq<T>) {
    s != [] && Ordered(less, s) && |s| <= FANOUT
  }

  /** Every piece of evidence is about a held file, names a symbol that exists, and is recorded
      among that file's contributions. */
  ghost predicate Accounted(files: Files, idx: KeyIndex, key: string, e: Evidence) {
    && e.path in files && e.path in idx.contributions
    && (key, e) in idx.contributions[e.path]
    && (e.symbolIndex.Some? ==> e.symbolIndex.value < |files[e.path].symbols|)
  }

  ghost predicate GoodKeys(files: Files, idx: KeyIndex) {
    && idx.contributions.Keys == files.Keys
    && (forall key :: key in idx.byKey ==> GoodBucket(EvidenceLess, idx.byKey[key]))
    && (forall key, e :: e in Bucket(idx.byKey, key) ==> Accounted(files, idx, key, e))
    && (forall p, c :: p in idx.contributions && c in idx.contributions[p] ==> c.1.path == p)
  }

  ghost predicate GoodStems(files: Files, idx: StemIndex) {
    && idx.stemsByPath.Keys <= files.Keys
    && (forall stem :: stem in idx.byStem ==> GoodBucket(PathLess, idx.byStem[stem]))
    && (forall stem, p :: p in Bucket(idx.byStem, stem) ==> p in idx.stemsByPath && idx.stemsByPath[p] == stem)
  }

  ghost predicate GoodIndex(files: Files, idx: Index) {
    Keyed(files) && GoodKeys(files, idx.keys) && GoodStems(files, idx.stems)
  }

  ghost predicate Good(s: Store) {
    |s.files| <= MAX_FILES && GoodIndex(s.files, s.index)
  }

  lemma BucketBounds<K(!new), T(!new)>(less: (T, T) -> bool, m: map<K, seq<T>>)
    requires forall k :: k in m ==> GoodBucket(less, m[k])
    ensures forall k :: Ordered(less, Bucket(m, k)) && |Bucket(m, k)| <= FANOUT
    ensures NoEmptyBucket(m)
  {
  }

  lemma RemoveAllGood<K(!new), T(!new)>(less: (T, T) -> bool, m: map<K, seq<T>>, es: seq<(K, T)>)
    requires forall k :: k in m ==> GoodBucket(less, m[k])
    ensures forall k :: k in RemoveAll(m, es) ==> GoodBucket(less, RemoveAll(m, es)[k])
  {
    BucketBounds(less, m);
    BucketsStayNonEmpty(less, m, es);
    forall k | k in RemoveAll(m, es) ensures GoodBucket(less, RemoveAll(m, es)[k]) {
      RemoveAllWithout(m, es, k);
      WithoutOrdered(less, Bucket(m, k), Values(es, k));
      WithoutElements(Bucket(m, k), Values(es, k));
      assert RemoveAll(m, es)[k] == Bucket(RemoveAll(m, es), k);
    }
  }

  lemma AddAllGood<K(!new), T(!new)>(less: (T, T) -> bool, m: map<K, seq<T>>, es: seq<(K, T)>)
    requires StrictOrder(less) && forall k :: k in m ==> GoodBucket(less, m[k])
    ensures forall k :: k in AddAll(less, m, es) ==> GoodBucket(less, AddAll(less, m, es)[k])
  {
    BucketBounds(less, m);
    BucketsStayNonEmpty(less, m, es);
    forall k | k in AddAll(less, m, es) ensures GoodBucket(less, AddAll(less, m, es)[k]) {
      AddAllStaysOrdered(less, m, es, k);
      assert AddAll(less, m, es)[k] == Bucket(AddAll(less, m, es), k);
    }
  }

  /** After removing a path, none of its evidence is left anywhere. */
  lemma RemovedFileIsForgotten(files: Files, idx: KeyIndex, p: Path, key: string, e: Evidence)
    requires GoodKeys(files, idx) && e in Bucket(idx.RemoveFile(p).byKey, key)
    ensures e.path != p && e in Bucket(idx.byKey, key)
  {
    var gone := if p in idx.contributions then idx.contributions[p] else [];
    RemoveAllWithout(idx.byKey, gone, key);
    WithoutElements(Bucket(idx.byKey, key), Values(gone, key));
    assert Accounted(files, idx, key, e);
    assert e.path == p ==> (key, e) in gone;
    EntryIsValue(gone, key, e);
  }

  lemma EntryIsValue<K, T(!new)>(es: seq<(K, T)>, k: K, x: T)
    ensures (k, x) in es ==> x in Values(es, k)
  {
    if (k, x) in es {
      var i :| 0 <= i < |es| && es[i] == (k, x);
      assert es[i].0 == k;
    }
  }

  lemma RemoveKeysGood(files: Files, idx: KeyIndex, p: Path)
    requires GoodKeys(files, idx)
    ensures GoodKeys(files - {p}, idx.RemoveFile(p))
  {
    var after := idx.RemoveFile(p);
    RemoveAllGood(EvidenceLess, idx.byKey, if p in idx.contributions then idx.contributions[p] else []);
    forall key, e | e in Bucket(after.byKey, key) ensures Accounted(files - {p}, after, key, e) {
      RemovedFileIsForgotten(files, idx, p, key, e);
      assert Accounted(files, idx, key, e);
    }
  }

  lemma RemoveStemsGood(files: Files, idx: StemIndex, p: Path)
    requires GoodStems(files, idx)
    ensures GoodStems(files - {p}, idx.RemoveFile(p))
    ensures forall stem :: p !in Bucket(idx.RemoveFile(p).byStem, stem)
  {
    var after := idx.RemoveFile(p);
    if p in idx.stemsByPath {
      var stem := idx.stemsByPath[p];
      var es := [(stem, p)];
      assert es[..0] == [] && RemoveAll(idx.byStem, es[..0]) == idx.byStem;
      assert RemoveAll(idx.byStem, es) == after.byStem;
      RemoveAllGood(PathLess, idx.byStem, es);
      RemovedBucket(idx.byStem, stem, p);
      WithoutElements(Bucket(idx.byStem, stem), {p});
    }
    forall s, q | q in Bucket(after.byStem, s) ensures q in Bucket(idx.byStem, s) && q != p {
    }
  }

  lemma AddKeysGood(n: Naming, files: Files, idx: KeyIndex, f: SymbolFile)
    requires Keyed(files) && GoodKeys(files, idx) && f.path !in files
    ensures GoodKeys(files[f.path := f], idx.AddFile(f.path, FileEvidence(n, f)))
  {
    hide FileEvidence;
    hide AddAll;
    hide Recorded;
    hide GoodBucket;
    hide Ordered;
    hide StrictOrder;
    hide Bucket;
    hide Accounted;
    hide OwnEvidence;
    hide Keyed;
    var es := FileEvidence(n, f);
    var after := idx.AddFile(f.path, es);
    OrdersAreStrict();
    AddAllGood(EvidenceLess, idx.byKey, es);
    FileEvidenceIsOwn(n, f);
    RecordedAreOwn(idx.byKey, f, es);
    forall key, e | e in Bucket(after.byKey, key) ensures Accounted(files[f.path := f], after, key, e) {
      AddedIsAccounted(files, idx, f, es, key, e);
    }
  }

  lemma RecordedAreOwn(byKey: map<string, seq<Evidence>>, f: SymbolFile, es: seq<Entry>)
    requires OwnEvidence(f, es)
    ensures forall c :: c in Recorded(EvidenceLess, byKey, es) ==> c.1.path == f.path
  {
    RecordedAreAdded(EvidenceLess, byKey, es);
  }

  lemma AddedIsAccounted(files: Files, idx: KeyIndex, f: SymbolFile, es: seq<Entry>, key: string, e: Evidence)
    requires GoodKeys(files, idx) && f.path !in files && OwnEvidence(f, es)
    requires e in Bucket(AddAll(EvidenceLess, idx.byKey, es), key)
    ensures Accounted(files[f.path := f], idx.AddFile(f.path, es), key, e)
  {
    hide AddAll;
    hide Recorded;
    hide StrictOrder;
    OrdersAreStrict();
    BucketBounds(EvidenceLess, idx.byKey);
    BucketFromRecorded(EvidenceLess, idx.byKey, es, key, e);
    RecordedAreAdded(EvidenceLess, idx.byKey, es);
    if e in Bucket(idx.byKey, key) {
      assert Accounted(files, idx, key, e);
    }
  }

  lemma {:induction false} RecordedAreAdded<K(!new), T(!new)>(less: (T, T) -> bool, m: map<K, seq<T>>, es: seq<(K, T)>)
    ensures forall c :: c in Recorded(less, m, es) ==> c in es
  {
    if es != [] {
      RecordedAreAdded(less, m, es[..|es| - 1]);
    }
  }

  lemma AddStemsGood(files: Files, idx: StemIndex, path: Path, f: SymbolFile, stem: Option<(bool, string)>)
    requires GoodStems(files, idx) && path !in files
    ensures GoodStems(files[path := f], idx.AddFile(path, stem))
  {
    hide StrictOrder;
    hide Add;
    if stem.Some? {
      OrdersAreStrict();
      BucketBounds(PathLess, idx.byStem);
      AddElements(PathLess, Bucket(idx.byStem, stem.value), path);
      AddIsNonEmpty(PathLess, Bucket(idx.byStem, stem.value), path);
      var after := idx.AddFile(path, stem);
      forall s, p | p in Bucket(after.byStem, s) ensures p in after.stemsByPath && after.stemsByPath[p] == s {
        assert p in Bucket(idx.byStem, s) ==> p in idx.stemsByPath;
      }
    }
  }

  lemma RemoveFileIsGood(files: Files, idx: Index, p: Path)
    requires GoodIndex(files, idx)
    ensures GoodIndex(files - {p}, RemoveFile(idx, p))
  {
    RemoveKeysGood(files, idx.keys, p);
    RemoveStemsGood(files, idx.stems, p);
  }

  lemma InsertFileIsGood(n: Naming, files: Files, idx: Index, f: SymbolFile)
    requires GoodIndex(files, idx)
    ensures GoodIndex(files[f.path := f], InsertFile(n, idx, f))
  {
    var without := files - {f.path};
    RemoveFileIsGood(files, idx, f.path);
    hide GoodKeys;
    hide GoodStems;
    AddKeysGood(n, without, idx.keys.RemoveFile(f.path), f);
    AddStemsGood(without, idx.stems.RemoveFile(f.path), f.path, f, StemEntry(n, f));
    assert without[f.path := f] == files[f.path := f];
  }

  /** Over every run, overflow and eviction included, the index is well formed. */
  lemma {:induction false} RunIsGood(n: Naming, ops: seq<Op>)
    ensures Good(Run(n, ops))
  {
    hide GoodIndex;
    if ops == [] {
      EmptyIsGood();
    } else {
      var s, op := Run(n, ops[..|ops| - 1]), ops[|ops| - 1];
      RunIsGood(n, ops[..|ops| - 1]);
      if op.Clear? {
        EmptyIsGood();
      } else if op.Drop? {
        RemoveFileIsGood(s.files, s.index, op.path);
        SubsetSize((s.files - {op.path}).Keys, s.files.Keys);
      } else {
        PutKeepsGood(n, s, op.file);
      }
    }
  }

  lemma EmptyIsGood()
    ensures GoodIndex(map[], EMPTY_INDEX)
  {
  }

  lemma PutKeepsGood(n: Naming, s: Store, f: SymbolFile)
    requires Good(s)
    ensures Good(Apply(n, s, Put(f)))
  {
    hide GoodIndex;
    hide InsertFile;
    hide RelationshipIndex.RemoveFile;
    var stripped := RemoveFile(s.index, f.path);
    RemoveFileIsGood(s.files, s.index, f.path);
    if f.path !in s.files && |s.files| >= MAX_FILES {
      var oldest := LeastPath(s.files.Keys);
      WithoutAbsent(s.files, f.path);
      RemoveFileIsGood(s.files, stripped, oldest);
      InsertFileIsGood(n, s.files - {oldest}, RemoveFile(stripped, oldest), f);
      ReplacedSize(s.files, oldest, f.path, f);
    } else {
      InsertFileIsGood(n, s.files - {f.path}, stripped, f);
      assert s.files[f.path := f] == (s.files - {f.path})[f.path := f];
      PutSize(s.files, f.path, f);
    }
  }

  lemma PutSize<K, V>(m: map<K, V>, k: K, v: V)
    ensures |m[k := v]| == |m| + if k in m then 0 else 1
  {
    assert m[k := v].Keys == m.Keys + {k};
  }

  lemma ReplacedSize<K, V>(m: map<K, V>, out: K, k: K, v: V)
    requires out in m && k !in m
    ensures |(m - {out})[k := v]| == |m|
  {
    assert (m - {out}).Keys == m.Keys - {out};
    PutSize(m - {out}, k, v);
  }

  // ----- Overflow -----

  /** Every step inserts a file that is new, into a collection that is not full. */
  ghost predicate InsertOnly(n: Naming, ops: seq<Op>) {
    ops == [] ||
    (var before, op := Run(n, ops[..|ops| - 1]).files, ops[|ops| - 1];
     InsertOnly(n, ops[..|ops| - 1]) && op.Put? && op.file.path !in before && |before| < MAX_FILES)
  }

  /** Every bucket holds the least 32 of what its files contribute. */
  ghost predicate Topped(n: Naming, files: Files, idx: Index) {
    && (forall key :: Bucket(idx.keys.byKey, key) == Top(EvidenceLess, Ideal(n, files, key)))
    && (forall stem :: Bucket(idx.stems.byStem, stem) == Top(PathLess, IdealPaths(n, files, stem)))
  }

  /** In an insert-only run every bucket, by key and by stem, holds the least 32 entries of its
      files, however many there were and in whatever order the files came. */
  lemma {:induction false} InsertOnlyKeepsLeast(n: Naming, ops: seq<Op>)
    requires InsertOnly(n, ops)
    ensures Topped(n, Run(n, ops).files, Run(n, ops).index)
  {
    hide Apply;
    hide Topped;
    if ops == [] {
      EmptyIsTopped(n);
    } else {
      var front, f := ops[..|ops| - 1], ops[|ops| - 1].file;
      InsertOnlyKeepsLeast(n, front);
      RunIsGood(n, front);
      InsertKeepsTopped(n, Run(n, front), f);
    }
  }

  lemma EmptyIsTopped(n: Naming)
    ensures Topped(n, map[], EMPTY_INDEX)
  {
    EmptyIsExact(n);
  }

  lemma NotHeldKeys(files: Files, idx: KeyIndex, p: Path)
    requires GoodKeys(files, idx) && p !in files
    ensures idx.RemoveFile(p) == idx
  {
    assert p !in idx.contributions.Keys;
    assert idx.contributions - {p} == idx.contributions;
  }

  lemma NotHeldStems(files: Files, idx: StemIndex, p: Path)
    requires GoodStems(files, idx) && p !in files
    ensures idx.RemoveFile(p) == idx
  {
    assert p !in idx.stemsByPath.Keys;
    assert idx.stemsByPath - {p} == idx.stemsByPath;
  }

  /** A new file is only added: nothing is removed before. */
  lemma FreshInsert(n: Naming, s: Store, f: SymbolFile)
    requires Good(s) && f.path !in s.files && |s.files| < MAX_FILES
    ensures var t := Apply(n, s, Put(f));
      && t.files == s.files[f.path := f]
      && t.index.keys == s.index.keys.AddFile(f.path, FileEvidence(n, f))
      && t.index.stems == s.index.stems.AddFile(f.path, StemEntry(n, f))
  {
    hide GoodKeys;
    hide GoodStems;
    hide FileEvidence;
    hide StemEntry;
    hide KeyIndex.RemoveFile;
    hide KeyIndex.AddFile;
    hide StemIndex.RemoveFile;
    hide StemIndex.AddFile;
    NotHeldKeys(s.files, s.index.keys, f.path);
    NotHeldStems(s.files, s.index.stems, f.path);
  }

  lemma InsertKeepsTopped(n: Naming, s: Store, f: SymbolFile)
    requires Good(s) && f.path !in s.files && |s.files| < MAX_FILES && Topped(n, s.files, s.index)
    ensures var t := Apply(n, s, Put(f)); Topped(n, t.files, t.index)
  {
    hide Apply;
    hide AddAll;
    hide FileEvidence;
    hide StemEntry;
    hide Top;
    hide Ideal;
    hide IdealPaths;
    hide StrictOrder;
    OrdersAreStrict();
    FreshInsert(n, s, f);
    GoodIsKeyed(s);
    var t := Apply(n, s, Put(f));
    forall key ensures Bucket(t.index.keys.byKey, key) == Top(EvidenceLess, Ideal(n, t.files, key)) {
      AddAllTop(EvidenceLess, s.index.keys.byKey, FileEvidence(n, f), key, Ideal(n, s.files, key));
      IdealWith(n, s.files, f, key);
    }
    forall stem ensures Bucket(t.index.stems.byStem, stem) == Top(PathLess, IdealPaths(n, t.files, stem)) {
      AddStemTop(n, s.files, s.index.stems, f, stem);
    }
  }

  lemma GoodIsKeyed(s: Store)
    requires Good(s)
    ensures Keyed(s.files)
  {
  }

  lemma AddStemTop(n: Naming, files: Files, idx: StemIndex, f: SymbolFile, stem: (bool, string))
    requires f.path !in files && Bucket(idx.byStem, stem) == Top(PathLess, IdealPaths(n, files, stem))
    ensures Bucket(idx.AddFile(f.path, StemEntry(n, f)).byStem, stem)
      == Top(PathLess, IdealPaths(n, files[f.path := f], stem))
  {
    hide Top;
    hide Add;
    hide StrictOrder;
    hide StemEntry;
    OrdersAreStrict();
    var paths := IdealPaths(n, files, stem);
    if StemEntry(n, f) == Some(stem) {
      AddTop(PathLess, paths, f.path);
      assert IdealPaths(n, files[f.path := f], stem) == paths + {f.path};
    } else {
      assert IdealPaths(n, files[f.path := f], stem) == paths;
    }
  }

  // ----- Removal after an overflow -----

  lemma {:induction false} WithoutSame<T(!new)>(s: seq<T>, a: set<T>, b: set<T>)
    requires forall y :: y in s ==> (y in a <==> y in b)
    ensures Without(s, a) == Without(s, b)
  {
    if s != [] {
      var n := |s| - 1;
      assert s[n] in s && forall y :: y in s[..n] ==> y in s;
      WithoutSame(s[..n], a, b);
    }
  }

  ghost function OfPath(s: set<Evidence>, p: Path): set<Evidence> {
    set e | e in s && e.path == p
  }

  /** A removal takes exactly the evidence of the path out of a bucket. */
  lemma RemovalTakesPath(files: Files, idx: KeyIndex, p: Path, key: string, s: set<Evidence>)
    requires GoodKeys(files, idx) && forall e :: e in Bucket(idx.byKey, key) ==> e in s
    ensures Bucket(idx.RemoveFile(p).byKey, key) == Without(Bucket(idx.byKey, key), OfPath(s, p))
  {
    hide RemoveAll;
    hide Without;
    hide GoodBucket;
    var es := if p in idx.contributions then idx.contributions[p] else [];
    RemoveAllWithout(idx.byKey, es, key);
    forall e | e in Bucket(idx.byKey, key) ensures e in Values(es, key) <==> e in OfPath(s, p) {
      assert Accounted(files, idx, key, e);
      EntryIsValue(es, key, e);
    }
    WithoutSame(Bucket(idx.byKey, key), Values(es, key), OfPath(s, p));
  }

  /** No entry of the path was kept, or every entry that was dropped is of that path. */
  ghost predicate LosesNothing(kept: seq<Evidence>, s: set<Evidence>, p: Path) {
    (forall e :: e in kept ==> e.path != p) || (forall e :: e in s && e !in kept ==> e.path == p)
  }

  ghost predicate LosesNoPath(kept: seq<Path>, s: set<Path>, p: Path) {
    p !in kept || (forall q :: q in s && q !in kept ==> q == p)
  }

  /** Removing a file from a truncated bucket leaves what belongs there exactly when nothing of
      that file was kept, or nothing of any other file was dropped. */
  lemma RemoveFromToppedKeyIff(n: Naming, files: Files, idx: KeyIndex, p: Path, key: string)
    requires Keyed(files) && GoodKeys(files, idx)
    requires Bucket(idx.byKey, key) == Top(EvidenceLess, Ideal(n, files, key))
    ensures Bucket(idx.RemoveFile(p).byKey, key) == Top(EvidenceLess, Ideal(n, files - {p}, key))
      <==> LosesNothing(Bucket(idx.byKey, key), Ideal(n, files, key), p)
  {
    hide Top;
    hide Without;
    hide GoodKeys;
    hide StrictOrder;
    OrdersAreStrict();
    var s := Ideal(n, files, key);
    var mine := OfPath(s, p);
    TopElements(EvidenceLess, s);
    RemovalTakesPath(files, idx, p, key, s);
    WithoutTopIff(EvidenceLess, s, mine);
    forall e ensures e in Ideal(n, files - {p}, key) <==> e in s - mine {
      InIdeal(n, files, key, e);
      InIdeal(n, files - {p}, key, e);
    }
    assert Ideal(n, files - {p}, key) == s - mine;
    forall e | e in Top(EvidenceLess, s) ensures e in s && (e in mine <==> e.path == p) {
      assert e in Elements(Top(EvidenceLess, s));
    }
  }

  lemma RemoveFromToppedStemIff(n: Naming, files: Files, idx: StemIndex, p: Path, stem: (bool, string))
    requires GoodStems(files, idx) && Bucket(idx.byStem, stem) == Top(PathLess, IdealPaths(n, files, stem))
    ensures Bucket(idx.RemoveFile(p).byStem, stem) == Top(PathLess, IdealPaths(n, files - {p}, stem))
      <==> LosesNoPath(Bucket(idx.byStem, stem), IdealPaths(n, files, stem), p)
  {
    hide Top;
    hide Without;
    hide StrictOrder;
    hide GoodBucket;
    OrdersAreStrict();
    var s := IdealPaths(n, files, stem);
    WithoutTopIff(PathLess, s, {p});
    assert IdealPaths(n, files - {p}, stem) == s - {p};
    RemovedStemBucket(files, idx, p, stem);
  }

  lemma RemovedStemBucket(files: Files, idx: StemIndex, p: Path, stem: (bool, string))
    requires GoodStems(files, idx)
    ensures Bucket(idx.RemoveFile(p).byStem, stem) == Without(Bucket(idx.byStem, stem), {p})
  {
    if p in idx.stemsByPath {
      RemovedBucket(idx.byStem, idx.stemsByPath[p], p);
    }
    if p !in Bucket(idx.byStem, stem) {
      WithoutNothing(Bucket(idx.byStem, stem), {p});
    }
  }

  /** The removed file's evidence was all dropped, or no other file's was: exactly then a bucket
      after the removal is that of a rebuild from the remaining files. */
  lemma RemovalEqualsRebuildIff(n: Naming, ops: seq<Op>, p: Path, rebuild: seq<Op>, key: string)
    requires InsertOnly(n, ops) && InsertOnly(n, rebuild) && Run(n, rebuild).files == Run(n, ops).files - {p}
    ensures var s := Run(n, ops);
      (Bucket(Apply(n, s, Drop(p)).index.keys.byKey, key) == Bucket(Run(n, rebuild).index.keys.byKey, key))
      <==> LosesNothing(Bucket(s.index.keys.byKey, key), Ideal(n, s.files, key), p)
  {
    hide Top;
    hide Ideal;
    hide LosesNothing;
    InsertOnlyKeepsLeast(n, ops);
    InsertOnlyKeepsLeast(n, rebuild);
    RunIsGood(n, ops);
    RemoveFromToppedKeyIff(n, Run(n, ops).files, Run(n, ops).index.keys, p, key);
  }

  lemma StemRemovalEqualsRebuildIff(n: Naming, ops: seq<Op>, p: Path, rebuild: seq<Op>, stem: (bool, string))
    requires InsertOnly(n, ops) && InsertOnly(n, rebuild) && Run(n, rebuild).files == Run(n, ops).files - {p}
    ensures var s := Run(n, ops);
      (Bucket(Apply(n, s, Drop(p)).index.stems.byStem, stem) == Bucket(Run(n, rebuild).index.stems.byStem, stem))
      <==> LosesNoPath(Bucket(s.index.stems.byStem, stem), IdealPaths(n, s.files, stem), p)
  {
    hide Top;
    hide IdealPaths;
    hide LosesNoPath;
    InsertOnlyKeepsLeast(n, ops);
    InsertOnlyKeepsLeast(n, rebuild);
    RunIsGood(n, ops);
    RemoveFromToppedStemIff(n, Run(n, ops).files, Run(n, ops).index.stems, p, stem);
  }

  lemma InsertOnlySnoc(n: Naming, ops: seq<Op>, f: SymbolFile)
    requires InsertOnly(n, ops) && f.path !in Run(n, ops).files && |Run(n, ops).files| < MAX_FILES
    ensures InsertOnly(n, ops + [Put(f)])
    ensures Run(n, ops + [Put(f)]).files == Run(n, ops).files[f.path := f]
  {
    hide Apply;
    assert (ops + [Put(f)])[..|ops|] == ops;
    RunIsGood(n, ops);
    FreshInsert(n, Run(n, ops), f);
  }

  lemma NoInserts(n: Naming)
    ensures InsertOnly(n, []) && Run(n, []).files == map[]
  {
  }

  /** Every collection of files that fits has a rebuild: a run that inserts them one by one. */
  lemma {:induction false} RebuildExists(n: Naming, files: Files) returns (rebuild: seq<Op>)
    requires Keyed(files) && |files| <= MAX_FILES
    ensures InsertOnly(n, rebuild) && Run(n, rebuild).files == files
    decreases |files|
  {
    hide InsertOnly;
    hide Run;
    if files == map[] {
      NoInserts(n);
      return [];
    }
    var p :| p in files;
    var rest := files - {p};
    assert rest[p := files[p]] == files;
    PutSize(rest, p, files[p]);
    rebuild := RebuildExists(n, rest);
    InsertOnlySnoc(n, rebuild, files[p]);
    rebuild := rebuild + [Put(files[p])];
  }

  // ----- A run that loses evidence -----

  const PLAIN := Naming(s => s, s => None, p => None, p => false)

  /** A file without symbols that refers to k once. */
  function CallerFile(p: Path): SymbolFile {
    SymbolFile(p, [], [Relation("", "k", References)])
  }

  function CallerOf(p: Path): Evidence {
    Evidence(p, None, Caller)
  }

  /** Inserts the files from `low` up to, but not including, `high`. */
  function InsertCallers(low: nat, high: nat): (ops: seq<Op>)
    ensures |ops| == if high <= low then 0 else high - low
  {
    if high <= low then [] else InsertCallers(low, high - 1) + [Put(CallerFile(high - 1))]
  }

  ghost function CallerFiles(low: nat, high: nat): Files {
    map p: nat | low <= p < high :: CallerFile(p)
  }

  lemma CallerEvidence(p: Path)
    ensures FileEvidence(PLAIN, CallerFile(p)) == [("k", CallerOf(p))]
    ensures Values(FileEvidence(PLAIN, CallerFile(p)), "k") == {CallerOf(p)}
  {
    var f := CallerFile(p);
    assert RelationsEvidence(PLAIN, f, 1)
        == RelationsEvidence(PLAIN, f, 0) + RelationEvidence(PLAIN, f, f.relations[0]);
    var es := FileEvidence(PLAIN, f);
    assert es[0] == ("k", CallerOf(p));
  }

  lemma MoreCallers(low: nat, high: nat)
    requires low < high
    ensures CallerFiles(low, high) == CallerFiles(low, high - 1)[high - 1 := CallerFile(high - 1)]
    ensures high - 1 !in CallerFiles(low, high - 1)
    ensures |CallerFiles(low, high)| == |CallerFiles(low, high - 1)| + 1
  {
    PutSize(CallerFiles(low, high - 1), high - 1, CallerFile(high - 1));
  }

  lemma {:induction false} CallerRun(low: nat, high: nat)
    requires low <= high <= low + MAX_FILES
    ensures InsertOnly(PLAIN, InsertCallers(low, high))
    ensures Run(PLAIN, InsertCallers(low, high)).files == CallerFiles(low, high)
    ensures |CallerFiles(low, high)| == high - low
  {
    hide InsertOnly;
    hide CallerFiles;
    hide Run;
    if high > low {
      CallerRun(low, high - 1);
      MoreCallers(low, high);
      InsertOnlySnoc(PLAIN, InsertCallers(low, high - 1), CallerFile(high - 1));
    } else {
      NoCallers(low);
      NoInserts(PLAIN);
    }
  }

  lemma NoCallers(low: nat)
    ensures CallerFiles(low, low) == map[]
  {
  }

  lemma FirstCallerGone(count: nat)
    requires count > 0
    ensures 0 in CallerFiles(0, count) && CallerFiles(0, count) - {0} == CallerFiles(1, count)
  {
  }

  lemma CallerIdeal(count: nat)
    ensures forall e :: e in Ideal(PLAIN, CallerFiles(0, count), "k") <==> e.path < count && e == CallerOf(e.path)
  {
    forall e ensures e in Ideal(PLAIN, CallerFiles(0, count), "k") <==> e.path < count && e == CallerOf(e.path) {
      InIdeal(PLAIN, CallerFiles(0, count), "k", e);
      CallerEvidence(e.path);
    }
  }

  lemma {:induction false} ManyCallers(count: nat, s: set<Evidence>)
    requires forall e :: e in s <==> e.path < count && e == CallerOf(e.path)
    ensures |s| == count
  {
    if count > 0 {
      ManyCallers(count - 1, s - {CallerOf(count - 1)});
    } else {
      assert forall e :: e !in s;
    }
  }

  /** More than thirty-two files refer to k, and the first one is dropped: the bucket misses an
      entry that a rebuild from the other files holds. */
  lemma OverflowLosesEvidence(count: nat)
    requires FANOUT < count <= MAX_FILES
    ensures var ops, rebuild := InsertCallers(0, count), InsertCallers(1, count);
      && Run(PLAIN, rebuild).files == Run(PLAIN, ops + [Drop(0)]).files
      && Bucket(Run(PLAIN, ops + [Drop(0)]).index.keys.byKey, "k") != Bucket(Run(PLAIN, rebuild).index.keys.byKey, "k")
  {
    hide Ideal;
    hide Top;
    hide StrictOrder;
    hide InsertOnly;
    hide InsertCallers;
    hide Topped;
    hide CallerFiles;
    hide Run;
    hide Apply;
    hide LosesNothing;
    var ops, rebuild := InsertCallers(0, count), InsertCallers(1, count);
    CallerRun(0, count);
    CallerRun(1, count);
    DropAfter(PLAIN, ops, 0);
    FirstCallerGone(count);
    RemovalEqualsRebuildIff(PLAIN, ops, 0, rebuild, "k");
    CallersAreLost(count, Run(PLAIN, ops).index);
  }

  lemma DropAfter(n: Naming, ops: seq<Op>, p: Path)
    ensures Run(n, ops + [Drop(p)]) == Apply(n, Run(n, ops), Drop(p))
    ensures Run(n, ops + [Drop(p)]).files == Run(n, ops).files - {p}
  {
    assert (ops + [Drop(p)])[..|ops|] == ops;
  }

  lemma CallersAreLost(count: nat, idx: Index)
    requires FANOUT < count && Run(PLAIN, InsertCallers(0, count)).files == CallerFiles(0, count)
    requires idx == Run(PLAIN, InsertCallers(0, count)).index && InsertOnly(PLAIN, InsertCallers(0, count))
    ensures !LosesNothing(Bucket(idx.keys.byKey, "k"), Ideal(PLAIN, CallerFiles(0, count), "k"), 0)
  {
    hide Ideal;
    hide Top;
    hide StrictOrder;
    hide InsertOnly;
    hide InsertCallers;
    hide Run;
    InsertOnlyKeepsLeast(PLAIN, InsertCallers(0, count));
    CallerIdeal(count);
    var s := Ideal(PLAIN, CallerFiles(0, count), "k");
    ManyCallers(count, s);
    OrdersAreStrict();
    LeastIsOnTop(EvidenceLess, s, CallerOf(0));
    SomethingIsDropped(EvidenceLess, s);
    var y :| y in s && y !in Top(EvidenceLess, s);
    assert y.path != 0;
  }
}
