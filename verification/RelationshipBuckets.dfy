/** Single buckets of the relationship index. */
module RelationshipBuckets {
  // A bucket that has never overflowed is exact, whatever happened to the others.

  import opened Wrappers
  import opened CappedBuckets
  import opened RelationshipIndex
  import opened RelationshipRuns

  // ----- Buckets by key -----

  /** The bucket is that of the held files, and all of their entries under the key are recorded. */
  ghost predicate ExactKey(n: Naming, files: Files, idx: KeyIndex, key: string) {
    && idx.contributions.Keys == files.Keys
    && Bucket(idx.byKey, key) == Listing(EvidenceLess, Ideal(n, files, key))
    && forall p :: p in files ==> Values(idx.contributions[p], key) == Values(FileEvidence(n, files[p]), key)
  }

  lemma RemoveKeepsKey(n: Naming, files: Files, idx: KeyIndex, p: Path, key: string)
    requires Keyed(files) && ExactKey(n, files, idx, key)
    ensures Keyed(files - {p}) && ExactKey(n, files - {p}, idx.RemoveFile(p), key)
  {
    hide Without;
    hide FileEvidence;
    hide Ideal;
    hide Values;
    hide Listing;
    hide StrictOrder;
    if p in files {
      OrdersAreStrict();
      RemoveAllWithout(idx.byKey, idx.contributions[p], key);
      WithoutListing(EvidenceLess, Ideal(n, files, key), Values(idx.contributions[p], key));
      IdealWithout(n, files, p, key);
    } else {
      assert p !in idx.contributions.Keys;
      RemoveAbsentKeys(idx, p);
      WithoutAbsent(files, p);
    }
  }

  /** While a bucket does not overflow, every entry added under its key is recorded. */
  lemma {:induction false} AllRecordedAt<K(!new), T(!new)>(
    less: (T, T) -> bool, m: map<K, seq<T>>, es: seq<(K, T)>, k: K, ideal: set<T>)
    requires StrictOrder(less) && Bucket(m, k) == Listing(less, ideal) && |ideal + Values(es, k)| <= FANOUT
    ensures Values(Recorded(less, m, es), k) == Values(es, k)
  {
    hide Values;
    hide Bucket;
    hide Listing;
    hide StrictOrder;
    hide AddAll;
    if es != [] {
      var n := |es| - 1;
      FrontFits(es, k, ideal);
      AllRecordedAt(less, m, es[..n], k, ideal);
      ValuesStep(es, k);
      if es[n].0 == k {
        LastIsRecorded(less, m, es, k, ideal);
      }
      var recorded, front := Recorded(less, m, es), Recorded(less, m, es[..n]);
      if recorded != front {
        ValuesStep(recorded, k);
        assert recorded[..|front|] == front;
      }
    }
  }

  lemma AddKeepsKey(n: Naming, files: Files, idx: KeyIndex, f: SymbolFile, key: string)
    requires Keyed(files) && ExactKey(n, files, idx, key) && f.path !in files
    requires |Ideal(n, files[f.path := f], key)| <= FANOUT
    ensures ExactKey(n, files[f.path := f], idx.AddFile(f.path, FileEvidence(n, f)), key)
  {
    hide Listing;
    hide Ideal;
    hide FileEvidence;
    hide AddAll;
    hide Recorded;
    hide Values;
    hide StrictOrder;
    hide Keyed;
    OrdersAreStrict();
    AddOneKey(n, files, idx.byKey, f, key);
    AllRecordedAt(EvidenceLess, idx.byKey, FileEvidence(n, f), key, Ideal(n, files, key));
  }

  /** Evicting a path that may be there and inserting a file. */
  lemma InsertKeepsKey(n: Naming, files: Files, idx: Index, f: SymbolFile, key: string)
    requires Keyed(files) && ExactKey(n, files, idx.keys, key)
    requires |Ideal(n, files[f.path := f], key)| <= FANOUT
    ensures ExactKey(n, files[f.path := f], InsertFile(n, idx, f).keys, key)
  {
    hide ExactKey;
    hide Ideal;
    hide Keyed;
    hide FileEvidence;
    hide KeyIndex.RemoveFile;
    hide KeyIndex.AddFile;
    var without := files - {f.path};
    assert without[f.path := f] == files[f.path := f];
    RemoveKeepsKey(n, files, idx.keys, f.path, key);
    AddKeepsKey(n, without, idx.keys.RemoveFile(f.path), f, key);
  }

  lemma ApplyKeepsKey(n: Naming, s: Store, op: Op, key: string)
    requires Good(s) && ExactKey(n, s.files, s.index.keys, key)
    requires |Ideal(n, Apply(n, s, op).files, key)| <= FANOUT
    ensures ExactKey(n, Apply(n, s, op).files, Apply(n, s, op).index.keys, key)
  {
    hide ExactKey;
    hide Ideal;
    hide Evict;
    hide InsertFile;
    hide KeyIndex.RemoveFile;
    hide GoodKeys;
    hide GoodStems;
    match op
    case Clear =>
      EmptyKey(n, key);
    case Drop(p) =>
      RemoveKeepsKey(n, s.files, s.index.keys, p, key);
    case Put(f) =>
      PutKeepsKey(n, s, f, key);
  }

  lemma RemoveFileKeepsKey(n: Naming, files: Files, idx: Index, p: Path, key: string)
    requires Keyed(files) && ExactKey(n, files, idx.keys, key)
    ensures Keyed(files - {p}) && ExactKey(n, files - {p}, RemoveFile(idx, p).keys, key)
  {
    hide ExactKey;
    RemoveKeepsKey(n, files, idx.keys, p, key);
  }

  lemma RoomKeepsKey(n: Naming, s: Store, path: Path, key: string)
    requires Keyed(s.files) && ExactKey(n, s.files, s.index.keys, key)
    ensures var room := Evict(Store(s.files, RemoveFile(s.index, path)), path);
      Keyed(room.files - {path}) && ExactKey(n, room.files - {path}, room.index.keys, key)
  {
    hide ExactKey;
    hide RelationshipIndex.RemoveFile;
    var stripped := RemoveFile(s.index, path);
    RemoveFileKeepsKey(n, s.files, s.index, path, key);
    if path !in s.files && |s.files| >= MAX_FILES {
      var oldest := LeastPath(s.files.Keys);
      WithoutAbsent(s.files, path);
      RemoveFileKeepsKey(n, s.files, stripped, oldest, key);
      WithoutAbsent(s.files - {oldest}, path);
    }
  }

  lemma PutKeepsKey(n: Naming, s: Store, f: SymbolFile, key: string)
    requires Keyed(s.files) && ExactKey(n, s.files, s.index.keys, key)
    requires |Ideal(n, Apply(n, s, Put(f)).files, key)| <= FANOUT
    ensures ExactKey(n, Apply(n, s, Put(f)).files, Apply(n, s, Put(f)).index.keys, key)
  {
    hide ExactKey;
    hide Ideal;
    hide Keyed;
    hide Evict;
    hide InsertFile;
    hide RelationshipIndex.RemoveFile;
    RoomKeepsKey(n, s, f.path, key);
    var room := Evict(Store(s.files, RemoveFile(s.index, f.path)), f.path);
    assert (room.files - {f.path})[f.path := f] == room.files[f.path := f];
    InsertKeepsKey(n, room.files - {f.path}, room.index, f, key);
  }

  lemma EmptyKey(n: Naming, key: string)
    ensures ExactKey(n, map[], KeyIndex(map[], map[]), key)
  {
    EmptyIsExact(n);
  }

  /** At no time of the run do the held files have more entries under this key than a bucket
      holds. */
  ghost predicate KeyFits(n: Naming, ops: seq<Op>, key: string) {
    forall i :: 0 <= i <= |ops| ==> |Ideal(n, Run(n, ops[..i]).files, key)| <= FANOUT
  }

  /** A bucket that never overflowed is that of the held files, although others did overflow. */
  lemma {:induction false} KeyIsExact(n: Naming, ops: seq<Op>, key: string)
    requires KeyFits(n, ops, key)
    ensures ExactKey(n, Run(n, ops).files, Run(n, ops).index.keys, key)
  {
    hide ExactKey;
    hide Ideal;
    hide Apply;
    if ops == [] {
      EmptyKey(n, key);
    } else {
      var front := ops[..|ops| - 1];
      forall i | 0 <= i <= |front| ensures |Ideal(n, Run(n, front[..i]).files, key)| <= FANOUT {
        assert front[..i] == ops[..i];
      }
      KeyIsExact(n, front, key);
      RunIsGood(n, front);
      assert ops[..|ops|] == ops;
      ApplyKeepsKey(n, Run(n, front), ops[|ops| - 1], key);
    }
  }

  // ----- Buckets by stem -----

  ghost predicate ExactStem(n: Naming, files: Files, idx: StemIndex, stem: (bool, string)) {
    && idx.stemsByPath == (map p | p in files && StemEntry(n, files[p]).Some? :: StemEntry(n, files[p]).value)
    && Bucket(idx.byStem, stem) == Listing(PathLess, IdealPaths(n, files, stem))
  }

  lemma RemoveKeepsStem(n: Naming, files: Files, idx: StemIndex, p: Path, stem: (bool, string))
    requires ExactStem(n, files, idx, stem)
    ensures ExactStem(n, files - {p}, idx.RemoveFile(p), stem)
  {
    hide Listing;
    hide Without;
    hide StemEntry;
    hide IdealPaths;
    RemoveStemExact(n, files, idx, p, stem);
  }

  lemma InsertKeepsStem(n: Naming, files: Files, idx: Index, f: SymbolFile, stem: (bool, string))
    requires Keyed(files) && ExactStem(n, files, idx.stems, stem)
    requires |IdealPaths(n, files[f.path := f], stem)| <= FANOUT
    ensures ExactStem(n, files[f.path := f], InsertFile(n, idx, f).stems, stem)
  {
    hide Listing;
    hide IdealPaths;
    hide StemEntry;
    hide StemIndex.RemoveFile;
    var without, base := files - {f.path}, idx.stems.RemoveFile(f.path);
    assert without[f.path := f] == files[f.path := f];
    RemoveKeepsStem(n, files, idx.stems, f.path, stem);
    AddOneStem(n, without, base, f, stem);
    AddedStems(n, without, f);
  }

  lemma ApplyKeepsStem(n: Naming, s: Store, op: Op, stem: (bool, string))
    requires Good(s) && ExactStem(n, s.files, s.index.stems, stem)
    requires |IdealPaths(n, Apply(n, s, op).files, stem)| <= FANOUT
    ensures ExactStem(n, Apply(n, s, op).files, Apply(n, s, op).index.stems, stem)
  {
    hide ExactStem;
    hide IdealPaths;
    hide Evict;
    hide InsertFile;
    hide StemIndex.RemoveFile;
    hide GoodKeys;
    hide GoodStems;
    match op
    case Clear =>
      EmptyStem(n, stem);
    case Drop(p) =>
      RemoveKeepsStem(n, s.files, s.index.stems, p, stem);
    case Put(f) =>
      PutKeepsStem(n, s, f, stem);
  }

  lemma RemoveFileKeepsStem(n: Naming, files: Files, idx: Index, p: Path, stem: (bool, string))
    requires Keyed(files) && ExactStem(n, files, idx.stems, stem)
    ensures Keyed(files - {p}) && ExactStem(n, files - {p}, RemoveFile(idx, p).stems, stem)
  {
    hide ExactStem;
    RemoveKeepsStem(n, files, idx.stems, p, stem);
  }

  lemma RoomKeepsStem(n: Naming, s: Store, path: Path, stem: (bool, string))
    requires Keyed(s.files) && ExactStem(n, s.files, s.index.stems, stem)
    ensures var room := Evict(Store(s.files, RemoveFile(s.index, path)), path);
      Keyed(room.files - {path}) && ExactStem(n, room.files - {path}, room.index.stems, stem)
  {
    hide ExactStem;
    hide RelationshipIndex.RemoveFile;
    var stripped := RemoveFile(s.index, path);
    RemoveFileKeepsStem(n, s.files, s.index, path, stem);
    if path !in s.files && |s.files| >= MAX_FILES {
      var oldest := LeastPath(s.files.Keys);
      WithoutAbsent(s.files, path);
      RemoveFileKeepsStem(n, s.files, stripped, oldest, stem);
      WithoutAbsent(s.files - {oldest}, path);
    }
  }

  lemma PutKeepsStem(n: Naming, s: Store, f: SymbolFile, stem: (bool, string))
    requires Keyed(s.files) && ExactStem(n, s.files, s.index.stems, stem)
    requires |IdealPaths(n, Apply(n, s, Put(f)).files, stem)| <= FANOUT
    ensures ExactStem(n, Apply(n, s, Put(f)).files, Apply(n, s, Put(f)).index.stems, stem)
  {
    hide ExactStem;
    hide IdealPaths;
    hide Keyed;
    hide Evict;
    hide InsertFile;
    hide RelationshipIndex.RemoveFile;
    RoomKeepsStem(n, s, f.path, stem);
    var room := Evict(Store(s.files, RemoveFile(s.index, f.path)), f.path);
    assert (room.files - {f.path})[f.path := f] == room.files[f.path := f];
    InsertKeepsStem(n, room.files - {f.path}, room.index, f, stem);
  }

  lemma EmptyStem(n: Naming, stem: (bool, string))
    ensures ExactStem(n, map[], StemIndex(map[], map[]), stem)
  {
    EmptyIsExact(n);
  }

  ghost predicate StemFits(n: Naming, ops: seq<Op>, stem: (bool, string)) {
    forall i :: 0 <= i <= |ops| ==> |IdealPaths(n, Run(n, ops[..i]).files, stem)| <= FANOUT
  }

  /** The same for the files of a stem. */
  lemma {:induction false} StemIsExact(n: Naming, ops: seq<Op>, stem: (bool, string))
    requires StemFits(n, ops, stem)
    ensures ExactStem(n, Run(n, ops).files, Run(n, ops).index.stems, stem)
  {
    hide ExactStem;
    hide IdealPaths;
    hide Apply;
    if ops == [] {
      EmptyStem(n, stem);
    } else {
      var front := ops[..|ops| - 1];
      forall i | 0 <= i <= |front| ensures |IdealPaths(n, Run(n, front[..i]).files, stem)| <= FANOUT {
        assert front[..i] == ops[..i];
      }
      StemIsExact(n, front, stem);
      RunIsGood(n, front);
      assert ops[..|ops|] == ops;
      ApplyKeepsStem(n, Run(n, front), ops[|ops| - 1], stem);
    }
  }

  // ----- Rebuilds -----

  /** Two runs that end with the same files agree on every bucket that overflowed in neither. */
  lemma BucketEqualsRebuild(n: Naming, ops: seq<Op>, rebuild: seq<Op>, key: string, stem: (bool, string))
    requires Run(n, ops).files == Run(n, rebuild).files
    ensures KeyFits(n, ops, key) && KeyFits(n, rebuild, key) ==>
      Bucket(Run(n, ops).index.keys.byKey, key) == Bucket(Run(n, rebuild).index.keys.byKey, key)
    ensures StemFits(n, ops, stem) && StemFits(n, rebuild, stem) ==>
      Bucket(Run(n, ops).index.stems.byStem, stem) == Bucket(Run(n, rebuild).index.stems.byStem, stem)
  {
    hide Run;
    hide KeyFits;
    hide StemFits;
    if KeyFits(n, ops, key) && KeyFits(n, rebuild, key) {
      KeyIsExact(n, ops, key);
      KeyIsExact(n, rebuild, key);
    }
    if StemFits(n, ops, stem) && StemFits(n, rebuild, stem) {
      StemIsExact(n, ops, stem);
      StemIsExact(n, rebuild, stem);
    }
  }
}
