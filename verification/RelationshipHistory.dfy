/** The relationship index over whole runs, change by change. */
module RelationshipHistory {
  // A run is a sequence of single removals and insertions: a file that is put is first taken out,
  // then room is made for it, then it goes in.  A bucket is that of a rebuild at all times exactly
  // when no removal takes a kept entry while an entry that was dropped before still belongs.

  import opened Wrappers
  import opened CappedBuckets
  import opened RelationshipIndex
  import opened RelationshipRuns

  datatype Change = Takes(path: Path) | Gives(file: SymbolFile) | Empties

  function ChangeStore(n: Naming, s: Store, c: Change): Store {
    match c
    case Takes(path) => Store(s.files - {path}, RemoveFile(s.index, path))
    case Gives(f) => Store(s.files[f.path := f], InsertFile(n, s.index, f))
    case Empties => EMPTY_STORE
  }

  function After(n: Naming, cs: seq<Change>): Store {
    if cs == [] then EMPTY_STORE else ChangeStore(n, After(n, cs[..|cs| - 1]), cs[|cs| - 1])
  }

  /** The changes that one operation makes. */
  ghost function Changes(s: Store, op: Op): seq<Change> {
    match op
    case Clear => [Empties]
    case Drop(path) => [Takes(path)]
    case Put(f) =>
      [Takes(f.path)]
      + (if f.path !in s.files && |s.files| >= MAX_FILES then [Takes(LeastPath(s.files.Keys))] else [])
      + [Gives(f)]
  }

  ghost function AllChanges(n: Naming, ops: seq<Op>): seq<Change> {
    if ops == [] then []
    else AllChanges(n, ops[..|ops| - 1]) + Changes(Run(n, ops[..|ops| - 1]), ops[|ops| - 1])
  }

  /** Only files that are not there are inserted, and only where there is room. */
  ghost predicate Legal(n: Naming, cs: seq<Change>) {
    cs == [] || (
      var front, c := cs[..|cs| - 1], cs[|cs| - 1];
      && Legal(n, front)
      && (c.Gives? ==> c.file.path !in After(n, front).files && |After(n, front).files| < MAX_FILES))
  }

  lemma OneMoreChange(n: Naming, cs: seq<Change>, c: Change)
    ensures After(n, cs + [c]) == ChangeStore(n, After(n, cs), c)
    ensures Legal(n, cs + [c])
      <==> Legal(n, cs) && (c.Gives? ==> c.file.path !in After(n, cs).files && |After(n, cs).files| < MAX_FILES)
  {
    hide ChangeStore;
    assert (cs + [c])[..|cs|] == cs;
  }

  lemma PutWhenFull(n: Naming, cs: seq<Change>, s: Store, f: SymbolFile)
    requires After(n, cs) == s && Legal(n, cs) && f.path !in s.files && |s.files| == MAX_FILES
    ensures After(n, cs + Changes(s, Put(f))) == Apply(n, s, Put(f)) && Legal(n, cs + Changes(s, Put(f)))
  {
    hide InsertFile;
    hide RelationshipIndex.RemoveFile;
    hide After;
    hide Legal;
    var oldest := LeastPath(s.files.Keys);
    var taken := cs + [Takes(f.path)];
    var room := taken + [Takes(oldest)];
    OneMoreChange(n, cs, Takes(f.path));
    OneMoreChange(n, taken, Takes(oldest));
    OneMoreChange(n, room, Gives(f));
    WithoutAbsent(s.files, f.path);
    WithoutSize(s.files, oldest);
    assert cs + Changes(s, Put(f)) == room + [Gives(f)];
  }

  lemma RoomIsThere(n: Naming, s: Store, f: SymbolFile)
    requires f.path in s.files || |s.files| < MAX_FILES
    ensures Changes(s, Put(f)) == [Takes(f.path), Gives(f)]
    ensures Apply(n, s, Put(f)) == ChangeStore(n, ChangeStore(n, s, Takes(f.path)), Gives(f))
  {
    hide InsertFile;
    hide RelationshipIndex.RemoveFile;
    assert (s.files - {f.path})[f.path := f] == s.files[f.path := f];
  }

  lemma PutWithRoom(n: Naming, cs: seq<Change>, s: Store, f: SymbolFile)
    requires After(n, cs) == s && Legal(n, cs) && |s.files| <= MAX_FILES
    requires f.path in s.files || |s.files| < MAX_FILES
    ensures After(n, cs + Changes(s, Put(f))) == Apply(n, s, Put(f)) && Legal(n, cs + Changes(s, Put(f)))
  {
    hide InsertFile;
    hide RelationshipIndex.RemoveFile;
    hide After;
    hide Legal;
    hide Apply;
    hide Changes;
    var taken := cs + [Takes(f.path)];
    OneMoreChange(n, cs, Takes(f.path));
    OneMoreChange(n, taken, Gives(f));
    WithoutSize(s.files, f.path);
    RoomIsThere(n, s, f);
    assert cs + [Takes(f.path), Gives(f)] == taken + [Gives(f)];
  }

  lemma WithoutSize(files: Files, p: Path)
    ensures |files - {p}| == |files| - if p in files then 1 else 0
  {
    assert (files - {p}).Keys == files.Keys - {p};
  }

  /** The changes of a run lead to the store that the run leads to. */
  lemma {:induction false} RunIsItsChanges(n: Naming, ops: seq<Op>)
    ensures After(n, AllChanges(n, ops)) == Run(n, ops) && Legal(n, AllChanges(n, ops))
  {
    hide Apply;
    hide ChangeStore;
    hide Changes;
    if ops != [] {
      var front, op := ops[..|ops| - 1], ops[|ops| - 1];
      RunIsItsChanges(n, front);
      RunIsGood(n, front);
      OpIsItsChanges(n, AllChanges(n, front), Run(n, front), op);
    }
  }

  lemma OpIsItsChanges(n: Naming, cs: seq<Change>, s: Store, op: Op)
    requires After(n, cs) == s && Legal(n, cs) && Good(s)
    ensures After(n, cs + Changes(s, op)) == Apply(n, s, op) && Legal(n, cs + Changes(s, op))
  {
    hide After;
    hide Legal;
    hide GoodIndex;
    match op
    case Clear => OneMoreChange(n, cs, Empties);
    case Drop(path) => OneMoreChange(n, cs, Takes(path));
    case Put(f) =>
      if f.path !in s.files && |s.files| >= MAX_FILES {
        PutWhenFull(n, cs, s, f);
      } else {
        PutWithRoom(n, cs, s, f);
      }
  }

  lemma {:induction false} AfterIsGood(n: Naming, cs: seq<Change>)
    requires Legal(n, cs)
    ensures Good(After(n, cs))
  {
    hide GoodIndex;
    hide InsertFile;
    hide RelationshipIndex.RemoveFile;
    if cs == [] {
      EmptyIsGood();
    } else {
      var s, c := After(n, cs[..|cs| - 1]), cs[|cs| - 1];
      AfterIsGood(n, cs[..|cs| - 1]);
      match c
      case Takes(path) =>
        RemoveFileIsGood(s.files, s.index, path);
        WithoutSize(s.files, path);
      case Gives(f) =>
        InsertFileIsGood(n, s.files, s.index, f);
        PutSize(s.files, f.path, f);
      case Empties =>
        EmptyIsGood();
    }
  }

  // ----- One bucket -----

  datatype BucketName = ByKey(key: string) | ByStem(stem: (bool, string))

  ghost predicate SameBucket(a: Index, b: Index, name: BucketName) {
    match name
    case ByKey(key) => Bucket(a.keys.byKey, key) == Bucket(b.keys.byKey, key)
    case ByStem(stem) => Bucket(a.stems.byStem, stem) == Bucket(b.stems.byStem, stem)
  }

  /** The bucket is that of every index built by inserting the held files one by one. */
  ghost predicate EqualsRebuild(n: Naming, s: Store, name: BucketName) {
    forall rebuild :: InsertOnly(n, rebuild) && Run(n, rebuild).files == s.files ==>
      SameBucket(s.index, Run(n, rebuild).index, name)
  }

  ghost predicate ToppedAt(n: Naming, s: Store, name: BucketName) {
    match name
    case ByKey(key) => Bucket(s.index.keys.byKey, key) == Top(EvidenceLess, Ideal(n, s.files, key))
    case ByStem(stem) => Bucket(s.index.stems.byStem, stem) == Top(PathLess, IdealPaths(n, s.files, stem))
  }

  /** A removal loses nothing: no entry of the file was kept, or every entry that was dropped is of
      that file. */
  ghost predicate Harmless(n: Naming, s: Store, c: Change, name: BucketName) {
    c.Takes? ==>
      match name
      case ByKey(key) => LosesNothing(Bucket(s.index.keys.byKey, key), Ideal(n, s.files, key), c.path)
      case ByStem(stem) => LosesNoPath(Bucket(s.index.stems.byStem, stem), IdealPaths(n, s.files, stem), c.path)
  }

  lemma EqualsRebuildIff(n: Naming, s: Store, name: BucketName)
    requires Good(s)
    ensures EqualsRebuild(n, s, name) <==> ToppedAt(n, s, name)
  {
    hide Run;
    hide InsertOnly;
    hide Top;
    hide Ideal;
    hide IdealPaths;
    forall rebuild | InsertOnly(n, rebuild) && Run(n, rebuild).files == s.files
      ensures SameBucket(s.index, Run(n, rebuild).index, name) <==> ToppedAt(n, s, name) {
      InsertOnlyKeepsLeast(n, rebuild);
    }
    var _ := RebuildExists(n, s.files);
  }

  lemma GivesKeepsTopped(n: Naming, s: Store, f: SymbolFile, name: BucketName)
    requires Good(s) && f.path !in s.files && |s.files| < MAX_FILES && ToppedAt(n, s, name)
    ensures ToppedAt(n, ChangeStore(n, s, Gives(f)), name)
  {
    hide AddAll;
    hide FileEvidence;
    hide StemEntry;
    hide Top;
    hide Ideal;
    hide IdealPaths;
    hide StrictOrder;
    hide GoodKeys;
    hide GoodStems;
    hide KeyIndex.RemoveFile;
    hide StemIndex.RemoveFile;
    OrdersAreStrict();
    NotHeldKeys(s.files, s.index.keys, f.path);
    NotHeldStems(s.files, s.index.stems, f.path);
    match name
    case ByKey(key) =>
      AddAllTop(EvidenceLess, s.index.keys.byKey, FileEvidence(n, f), key, Ideal(n, s.files, key));
      IdealWith(n, s.files, f, key);
    case ByStem(stem) =>
      AddStemTop(n, s.files, s.index.stems, f, stem);
  }

  lemma ChangeKeepsIff(n: Naming, s: Store, c: Change, name: BucketName)
    requires Good(s) && ToppedAt(n, s, name)
    requires c.Gives? ==> c.file.path !in s.files && |s.files| < MAX_FILES
    ensures ToppedAt(n, ChangeStore(n, s, c), name) <==> Harmless(n, s, c, name)
  {
    hide Top;
    hide Ideal;
    hide IdealPaths;
    hide GoodKeys;
    hide GoodStems;
    hide LosesNothing;
    hide LosesNoPath;
    hide InsertFile;
    match c
    case Takes(path) =>
      match name {
        case ByKey(key) => RemoveFromToppedKeyIff(n, s.files, s.index.keys, path, key);
        case ByStem(stem) => RemoveFromToppedStemIff(n, s.files, s.index.stems, path, stem);
      }
    case Gives(f) =>
      GivesKeepsTopped(n, s, f, name);
    case Empties =>
      EmptyIsTopped(n);
  }

  ghost predicate AlwaysEqualsRebuild(n: Naming, cs: seq<Change>, name: BucketName) {
    forall i :: 0 <= i <= |cs| ==> EqualsRebuild(n, After(n, cs[..i]), name)
  }

  ghost predicate AlwaysHarmless(n: Naming, cs: seq<Change>, name: BucketName) {
    forall i :: 0 <= i < |cs| ==> Harmless(n, After(n, cs[..i]), cs[i], name)
  }

  lemma FrontOfAlways(n: Naming, cs: seq<Change>, name: BucketName)
    requires cs != []
    ensures var front, c := cs[..|cs| - 1], cs[|cs| - 1];
      && (AlwaysEqualsRebuild(n, cs, name) <==>
            AlwaysEqualsRebuild(n, front, name) && EqualsRebuild(n, After(n, cs), name))
      && (AlwaysHarmless(n, cs, name) <==>
            AlwaysHarmless(n, front, name) && Harmless(n, After(n, front), c, name))
  {
    hide After;
    hide EqualsRebuild;
    hide Harmless;
    var n', front := |cs| - 1, cs[..|cs| - 1];
    assert cs[..|cs|] == cs;
    assert forall i :: 0 <= i <= n' ==> front[..i] == cs[..i];
  }

  lemma {:induction false} ChangesKeepIff(n: Naming, cs: seq<Change>, name: BucketName)
    requires Legal(n, cs)
    ensures AlwaysEqualsRebuild(n, cs, name) <==> AlwaysHarmless(n, cs, name)
    ensures AlwaysEqualsRebuild(n, cs, name) ==> EqualsRebuild(n, After(n, cs), name)
  {
    hide ChangeStore;
    hide EqualsRebuild;
    hide Harmless;
    hide ToppedAt;
    hide Good;
    hide AlwaysEqualsRebuild;
    hide AlwaysHarmless;
    AfterIsGood(n, cs);
    EqualsRebuildIff(n, After(n, cs), name);
    if cs == [] {
      NothingChanged(n, name);
    } else {
      var front, c := cs[..|cs| - 1], cs[|cs| - 1];
      ChangesKeepIff(n, front, name);
      AfterIsGood(n, front);
      EqualsRebuildIff(n, After(n, front), name);
      FrontOfAlways(n, cs, name);
      if AlwaysEqualsRebuild(n, front, name) {
        ChangeKeepsIff(n, After(n, front), c, name);
      }
    }
  }

  lemma NothingChanged(n: Naming, name: BucketName)
    ensures AlwaysEqualsRebuild(n, [], name) && AlwaysHarmless(n, [], name)
    ensures EqualsRebuild(n, After(n, []), name)
  {
    hide EqualsRebuild;
    EmptyIsTopped(n);
    EmptyIsGood();
    EqualsRebuildIff(n, EMPTY_STORE, name);
    var none: seq<Change> := [];
    assert none[..0] == none;
  }

  /** Over every run, overflows, evictions, replacements and clears included: a bucket is that of a
      rebuild from the held files after every change exactly when no removal takes an entry it kept
      while an entry of another file that it dropped still belongs; and it then is so at the end. */
  lemma RunEqualsRebuildIff(n: Naming, ops: seq<Op>, name: BucketName)
    ensures AlwaysEqualsRebuild(n, AllChanges(n, ops), name) <==> AlwaysHarmless(n, AllChanges(n, ops), name)
    ensures AlwaysHarmless(n, AllChanges(n, ops), name) ==> EqualsRebuild(n, Run(n, ops), name)
  {
    hide Run;
    hide After;
    hide EqualsRebuild;
    hide AlwaysEqualsRebuild;
    hide AlwaysHarmless;
    RunIsItsChanges(n, ops);
    ChangesKeepIff(n, AllChanges(n, ops), name);
  }
}
