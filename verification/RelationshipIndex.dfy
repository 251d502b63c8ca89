/** The incrementally maintained index of symbol relationships. */
module RelationshipIndex {
  // Files come and go one at a time; every file adds evidence under the keys of its symbols
  // and relations, and takes it back when it is removed or replaced.  The specification is
  // stated on values; the classes of RelationshipStore run the loops on mutable fields.

  import opened Wrappers
  import opened CappedBuckets

  /** A path, by its rank in the order of paths. */
  type Path = nat

  const MAX_FILES: nat := 128

  datatype SymbolKind = Function | Method | Struct | Enum | Trait | TypeAlias | Module | Test | Import

  datatype Symbol = Symbol(name: string, kind: SymbolKind, container: Option<string>, isTest: bool)

  datatype RelationKind = Contains | Imports | References | Implements

  datatype Relation = Relation(from: string, to: string, kind: RelationKind)

  datatype SymbolFile = SymbolFile(path: Path, symbols: seq<Symbol>, relations: seq<Relation>)

  datatype EvidenceKind =
    | Definition | Caller | Implementation | TestEvidence | Dependency | ImportEvidence | ModuleEvidence

  datatype Evidence = Evidence(path: Path, symbolIndex: Option<nat>, kind: EvidenceKind)

  /** Name handling that the index takes as given. */
  datatype Naming = Naming(
    key: string -> string,              // trimmed, lower case
    lastSegment: string -> Option<string>,   // last non-empty part of a `::` path
    stem: Path -> Option<string>,
    testPath: Path -> bool)

  // ----- The evidence of one file -----

  type Entry = (string, Evidence)

  function NonEmptyKey(key: string, e: Evidence): seq<Entry> {
    if key == "" then [] else [(key, e)]
  }

  predicate IsTestFile(n: Naming, f: SymbolFile) {
    n.testPath(f.path) || exists i :: 0 <= i < |f.symbols| && f.symbols[i].isTest
  }

  function SymbolEvidence(n: Naming, f: SymbolFile, i: nat): seq<Entry>
    requires i < |f.symbols|
  {
    var s := f.symbols[i];
    if s.kind == Import then []
    else
      var kind := if s.kind == Module then ModuleEvidence else if s.isTest then TestEvidence else Definition;
      NonEmptyKey(n.key(s.name), Evidence(f.path, Some(i), kind))
      + if s.kind == Method && s.container.Some?
        then NonEmptyKey(n.key(s.container.value), Evidence(f.path, Some(i), Implementation))
        else []
  }

  function Position(symbols: seq<Symbol>, name: string): (i: Option<nat>)
    ensures i.Some? ==> i.value < |symbols| && symbols[i.value].name == name
    ensures i.None? ==> forall j :: 0 <= j < |symbols| ==> symbols[j].name != name
  {
    if symbols == [] then None
    else if symbols[0].name == name then Some(0)
    else
      var rest := Position(symbols[1..], name);
      if rest.Some? then Some(rest.value + 1) else None
  }

  function RelationEvidence(n: Naming, f: SymbolFile, r: Relation): seq<Entry> {
    var owner := Position(f.symbols, r.from);
    match r.kind
    case Contains => []
    case References =>
      var test := IsTestFile(n, f) || (owner.Some? && f.symbols[owner.value].isTest);
      NonEmptyKey(n.key(r.to), Evidence(f.path, owner, if test then TestEvidence else Caller))
    case Implements => NonEmptyKey(n.key(r.to), Evidence(f.path, owner, Implementation))
    case Imports =>
      var target, last := n.key(r.to), n.lastSegment(r.to);
      NonEmptyKey(target, Evidence(f.path, owner, Dependency))
      + (if last.Some? && n.key(last.value) != target
         then NonEmptyKey(n.key(last.value), Evidence(f.path, owner, Dependency)) else [])
      + (if owner.Some?
         then NonEmptyKey(n.key(f.symbols[owner.value].name), Evidence(f.path, owner, ImportEvidence)) else [])
  }

  function SymbolsEvidence(n: Naming, f: SymbolFile, upTo: nat): seq<Entry>
    requires upTo <= |f.symbols|
  {
    if upTo == 0 then [] else SymbolsEvidence(n, f, upTo - 1) + SymbolEvidence(n, f, upTo - 1)
  }

  function RelationsEvidence(n: Naming, f: SymbolFile, upTo: nat): seq<Entry>
    requires upTo <= |f.relations|
  {
    if upTo == 0 then [] else RelationsEvidence(n, f, upTo - 1) + RelationEvidence(n, f, f.relations[upTo - 1])
  }

  /** Everything a file contributes, in the order it is added. */
  function FileEvidence(n: Naming, f: SymbolFile): seq<Entry> {
    SymbolsEvidence(n, f, |f.symbols|) + RelationsEvidence(n, f, |f.relations|)
  }

  predicate OwnEvidence(f: SymbolFile, es: seq<Entry>) {
    forall i :: 0 <= i < |es| ==>
      es[i].1.path == f.path && (es[i].1.symbolIndex.Some? ==> es[i].1.symbolIndex.value < |f.symbols|)
  }

  lemma OwnConcat(f: SymbolFile, u: seq<Entry>, v: seq<Entry>)
    requires OwnEvidence(f, u) && OwnEvidence(f, v)
    ensures OwnEvidence(f, u + v)
  {
  }

  lemma SymbolEvidenceIsOwn(n: Naming, f: SymbolFile, i: nat)
    requires i < |f.symbols|
    ensures OwnEvidence(f, SymbolEvidence(n, f, i))
  {
  }

  lemma {:induction false} SymbolsEvidenceIsOwn(n: Naming, f: SymbolFile, upTo: nat)
    requires upTo <= |f.symbols|
    ensures OwnEvidence(f, SymbolsEvidence(n, f, upTo))
  {
    hide SymbolEvidence;
    if upTo > 0 {
      SymbolsEvidenceIsOwn(n, f, upTo - 1);
      SymbolEvidenceIsOwn(n, f, upTo - 1);
      OwnConcat(f, SymbolsEvidence(n, f, upTo - 1), SymbolEvidence(n, f, upTo - 1));
    }
  }

  lemma NonEmptyKeyIsOwn(f: SymbolFile, key: string, e: Evidence)
    requires e.path == f.path && (e.symbolIndex.Some? ==> e.symbolIndex.value < |f.symbols|)
    ensures OwnEvidence(f, NonEmptyKey(key, e))
  {
  }

  lemma RelationEvidenceIsOwn(n: Naming, f: SymbolFile, r: Relation)
    ensures OwnEvidence(f, RelationEvidence(n, f, r))
  {
    var owner := Position(f.symbols, r.from);
    if r.kind == Imports {
      var last := n.lastSegment(r.to);
      NonEmptyKeyIsOwn(f, n.key(r.to), Evidence(f.path, owner, Dependency));
      if last.Some? {
        NonEmptyKeyIsOwn(f, n.key(last.value), Evidence(f.path, owner, Dependency));
      }
      if owner.Some? {
        NonEmptyKeyIsOwn(f, n.key(f.symbols[owner.value].name), Evidence(f.path, owner, ImportEvidence));
      }
    }
  }

  lemma {:induction false} RelationsEvidenceIsOwn(n: Naming, f: SymbolFile, upTo: nat)
    requires upTo <= |f.relations|
    ensures OwnEvidence(f, RelationsEvidence(n, f, upTo))
  {
    hide RelationEvidence;
    if upTo > 0 {
      RelationsEvidenceIsOwn(n, f, upTo - 1);
      RelationEvidenceIsOwn(n, f, f.relations[upTo - 1]);
      OwnConcat(f, RelationsEvidence(n, f, upTo - 1), RelationEvidence(n, f, f.relations[upTo - 1]));
    }
  }

  /** A file only adds evidence about itself, with symbol numbers that exist. */
  lemma FileEvidenceIsOwn(n: Naming, f: SymbolFile)
    ensures OwnEvidence(f, FileEvidence(n, f))
  {
    SymbolsEvidenceIsOwn(n, f, |f.symbols|);
    RelationsEvidenceIsOwn(n, f, |f.relations|);
  }

  /** Where a file is listed by its stem: among the tests or among the sources. */
  function StemEntry(n: Naming, f: SymbolFile): Option<(bool, string)> {
    var stem := n.stem(f.path);
    if stem.Some? then Some((IsTestFile(n, f), stem.value)) else None
  }

  // ----- The orders -----

  function KindRank(k: EvidenceKind): nat {
    match k
    case Definition => 0 case Caller => 1 case Implementation => 2 case TestEvidence => 3
    case Dependency => 4 case ImportEvidence => 5 case ModuleEvidence => 6
  }

  function IndexRank(i: Option<nat>): nat {
    if i.None? then 0 else i.value + 1
  }

  const EvidenceLess: (Evidence, Evidence) -> bool :=
    (a: Evidence, b: Evidence) =>
      a.path < b.path || (a.path == b.path &&
        (IndexRank(a.symbolIndex) < IndexRank(b.symbolIndex) || (a.symbolIndex == b.symbolIndex &&
          KindRank(a.kind) < KindRank(b.kind))))

  const PathLess: (Path, Path) -> bool := (a: Path, b: Path) => a < b

  lemma OrdersAreStrict()
    ensures StrictOrder(EvidenceLess) && StrictOrder(PathLess)
  {
  }

  // ----- The index -----

  datatype KeyIndex = KeyIndex(byKey: map<string, seq<Evidence>>, contributions: map<Path, seq<Entry>>)
  {
    function RemoveFile(path: Path): KeyIndex {
      KeyIndex(
        RemoveAll(byKey, if path in contributions then contributions[path] else []),
        contributions - {path})
    }

    function AddFile(path: Path, es: seq<Entry>): KeyIndex {
      KeyIndex(AddAll(EvidenceLess, byKey, es), contributions[path := Recorded(EvidenceLess, byKey, es)])
    }
  }

  /** Files by stem: tests under true, sources under false. */
  datatype StemIndex = StemIndex(byStem: map<(bool, string), seq<Path>>, stemsByPath: map<Path, (bool, string)>)
  {
    function RemoveFile(path: Path): StemIndex {
      StemIndex(
        if path in stemsByPath then RemoveFrom(byStem, stemsByPath[path], path) else byStem,
        stemsByPath - {path})
    }

    function AddFile(path: Path, stem: Option<(bool, string)>): StemIndex {
      if stem.None? then this
      else StemIndex(AddTo(PathLess, byStem, stem.value, path), stemsByPath[path := stem.value])
    }
  }

  datatype Index = Index(keys: KeyIndex, stems: StemIndex)

  const EMPTY_INDEX := Index(KeyIndex(map[], map[]), StemIndex(map[], map[]))

  function RemoveFile(idx: Index, path: Path): Index {
    Index(idx.keys.RemoveFile(path), idx.stems.RemoveFile(path))
  }

  function InsertFile(n: Naming, idx: Index, f: SymbolFile): Index {
    var base := RemoveFile(idx, f.path);
    Index(base.keys.AddFile(f.path, FileEvidence(n, f)), base.stems.AddFile(f.path, StemEntry(n, f)))
  }

  // ----- The bounded collection of files -----

  type Files = map<Path, SymbolFile>

  datatype Store = Store(files: Files, index: Index)

  const EMPTY_STORE := Store(map[], EMPTY_INDEX)

  datatype Op = Put(file: SymbolFile) | Drop(path: Path) | Clear

  ghost function LeastPath(s: set<Path>): (x: Path)
    requires s != {}
    ensures Least(s, x)
  {
    LeastExists(s);
    var x :| Least(s, x);
    x
  }

  /** Makes room for a new path: when the collection is full, its first path goes. */
  ghost function Evict(s: Store, path: Path): Store {
    if path !in s.files && |s.files| >= MAX_FILES then
      var oldest := LeastPath(s.files.Keys);
      Store(s.files - {oldest}, RemoveFile(s.index, oldest))
    else s
  }

  ghost function Apply(n: Naming, s: Store, op: Op): Store {
    match op
    case Clear => EMPTY_STORE
    case Drop(path) => Store(s.files - {path}, RemoveFile(s.index, path))
    case Put(f) =>
      var room := Evict(Store(s.files, RemoveFile(s.index, f.path)), f.path);
      Store(room.files[f.path := f], InsertFile(n, room.index, f))
  }

  ghost function Run(n: Naming, ops: seq<Op>): Store {
    if ops == [] then EMPTY_STORE else Apply(n, Run(n, ops[..|ops| - 1]), ops[|ops| - 1])
  }

  // ----- What the index should hold -----

  ghost function Ideal(n: Naming, files: Files, key: string): set<Evidence> {
    set p, e | p in files && e in Values(FileEvidence(n, files[p]), key) :: e
  }

  ghost function IdealPaths(n: Naming, files: Files, stem: (bool, string)): set<Path> {
    set p | p in files && StemEntry(n, files[p]) == Some(stem)
  }

  ghost predicate Keyed(files: Files) {
    forall p :: p in files ==> files[p].path == p
  }

  /** No key and no stem has more entries than a bucket holds. */
  ghost predicate Fits(n: Naming, files: Files) {
    && (forall key :: |Ideal(n, files, key)| <= FANOUT)
    && (forall stem :: |IdealPaths(n, files, stem)| <= FANOUT)
  }

  ghost predicate ExactKeys(n: Naming, files: Files, idx: KeyIndex) {
    && idx.contributions == (map p | p in files :: FileEvidence(n, files[p]))
    && NoEmptyBucket(idx.byKey)
    && forall key :: Bucket(idx.byKey, key) == Listing(EvidenceLess, Ideal(n, files, key))
  }

  ghost predicate ExactStems(n: Naming, files: Files, idx: StemIndex) {
    && idx.stemsByPath == (map p | p in files && StemEntry(n, files[p]).Some? :: StemEntry(n, files[p]).value)
    && NoEmptyBucket(idx.byStem)
    && forall stem :: Bucket(idx.byStem, stem) == Listing(PathLess, IdealPaths(n, files, stem))
  }

  /** The index holds exactly the evidence of the files, sorted. */
  ghost predicate Exact(n: Naming, files: Files, idx: Index) {
    Keyed(files) && ExactKeys(n, files, idx.keys) && ExactStems(n, files, idx.stems)
  }

  /** A piece of evidence belongs to exactly one file, the one it names. */
  lemma InIdeal(n: Naming, files: Files, key: string, e: Evidence)
    requires Keyed(files)
    ensures e in Ideal(n, files, key) <==> e.path in files && e in Values(FileEvidence(n, files[e.path]), key)
  {
    if e in Ideal(n, files, key) {
      var p :| p in files && e in Values(FileEvidence(n, files[p]), key);
      OwnValues(n, files[p], key, e);
    }
  }

  lemma OwnValues(n: Naming, f: SymbolFile, key: string, e: Evidence)
    requires e in Values(FileEvidence(n, f), key)
    ensures e.path == f.path
  {
    FileEvidenceIsOwn(n, f);
  }

  lemma IdealWithout(n: Naming, files: Files, p: Path, key: string)
    requires Keyed(files) && p in files
    ensures Ideal(n, files, key) - Values(FileEvidence(n, files[p]), key) == Ideal(n, files - {p}, key)
  {
    var rest := files - {p};
    forall e
      ensures e in Ideal(n, rest, key) <==> e in Ideal(n, files, key) && e !in Values(FileEvidence(n, files[p]), key)
    {
      InIdeal(n, files, key, e);
      InIdeal(n, rest, key, e);
      if e in Values(FileEvidence(n, files[p]), key) {
        OwnValues(n, files[p], key, e);
      }
    }
  }

  lemma IdealWith(n: Naming, files: Files, f: SymbolFile, key: string)
    requires Keyed(files) && f.path !in files
    ensures Ideal(n, files[f.path := f], key) == Ideal(n, files, key) + Values(FileEvidence(n, f), key)
  {
    var more := files[f.path := f];
    forall e ensures e in Ideal(n, more, key) <==> e in Ideal(n, files, key) || e in Values(FileEvidence(n, f), key) {
      InIdeal(n, files, key, e);
      InIdeal(n, more, key, e);
      if e in Values(FileEvidence(n, f), key) {
        OwnValues(n, f, key, e);
      }
    }
  }

  lemma RemoveKeyExact(n: Naming, files: Files, idx: KeyIndex, p: Path, key: string)
    requires Keyed(files) && ExactKeys(n, files, idx) && p in files
    ensures Bucket(RemoveAll(idx.byKey, FileEvidence(n, files[p])), key)
      == Listing(EvidenceLess, Ideal(n, files - {p}, key))
  {
    hide Without;
    hide FileEvidence;
    hide Ideal;
    hide Values;
    hide Listing;
    OrdersAreStrict();
    var gone := FileEvidence(n, files[p]);
    RemoveAllWithout(idx.byKey, gone, key);
    WithoutListing(EvidenceLess, Ideal(n, files, key), Values(gone, key));
    IdealWithout(n, files, p, key);
  }

  lemma RemoveKeysExact(n: Naming, files: Files, idx: KeyIndex, p: Path)
    requires Keyed(files) && ExactKeys(n, files, idx)
    ensures ExactKeys(n, files - {p}, idx.RemoveFile(p))
  {
    hide Listing;
    hide FileEvidence;
    hide Ideal;
    hide RemoveAll;
    hide AddAll;
    hide StrictOrder;
    hide Keyed;
    if p in files {
      var gone := idx.contributions[p];
      assert gone == FileEvidence(n, files[p]);
      BucketsStayNonEmpty(EvidenceLess, idx.byKey, gone);
      forall key ensures Bucket(RemoveAll(idx.byKey, gone), key) == Listing(EvidenceLess, Ideal(n, files - {p}, key)) {
        RemoveKeyExact(n, files, idx, p, key);
      }
    } else {
      assert files - {p} == files;
      RemoveAbsentKeys(idx, p);
    }
  }

  lemma RemoveAbsentKeys(idx: KeyIndex, p: Path)
    requires p !in idx.contributions
    ensures idx.RemoveFile(p) == idx
  {
    assert RemoveAll(idx.byKey, []) == idx.byKey;
  }

  lemma RemoveStemsExact(n: Naming, files: Files, idx: StemIndex, p: Path)
    requires Keyed(files) && ExactStems(n, files, idx)
    ensures ExactStems(n, files - {p}, idx.RemoveFile(p))
  {
    hide Listing;
    hide Without;
    hide IdealPaths;
    hide StemEntry;
    forall stem
      ensures Bucket(idx.RemoveFile(p).byStem, stem) == Listing(PathLess, IdealPaths(n, files - {p}, stem))
    {
      RemoveStemExact(n, files, idx, p, stem);
    }
  }

  lemma RemoveStemExact(n: Naming, files: Files, idx: StemIndex, p: Path, stem: (bool, string))
    requires idx.stemsByPath == (map p | p in files && StemEntry(n, files[p]).Some? :: StemEntry(n, files[p]).value)
    requires Bucket(idx.byStem, stem) == Listing(PathLess, IdealPaths(n, files, stem))
    ensures Bucket(idx.RemoveFile(p).byStem, stem) == Listing(PathLess, IdealPaths(n, files - {p}, stem))
  {
    hide Listing;
    hide Without;
    hide StemEntry;
    OrdersAreStrict();
    if p in idx.stemsByPath && idx.stemsByPath[p] == stem {
      WithoutListing(PathLess, IdealPaths(n, files, stem), {p});
      assert IdealPaths(n, files, stem) - {p} == IdealPaths(n, files - {p}, stem);
      RemovedBucket(idx.byStem, stem, p);
    } else {
      assert IdealPaths(n, files, stem) == IdealPaths(n, files - {p}, stem);
    }
  }

  lemma RemovedBucket<K(!new), T(!new)>(m: map<K, seq<T>>, k: K, x: T)
    ensures Bucket(RemoveFrom(m, k, x), k) == Without(Bucket(m, k), {x})
  {
    WithoutNothing(Bucket(m, k)[..0], {x});
  }

  /** Removing a file from an exact index leaves the exact index of the other files. */
  lemma RemoveFileIsExact(n: Naming, files: Files, idx: Index, p: Path)
    requires Exact(n, files, idx)
    ensures Exact(n, files - {p}, RemoveFile(idx, p))
  {
    RemoveKeysExact(n, files, idx.keys, p);
    RemoveStemsExact(n, files, idx.stems, p);
  }

  lemma AddOneKey(n: Naming, files: Files, byKey: map<string, seq<Evidence>>, f: SymbolFile, key: string)
    requires Keyed(files) && f.path !in files
    requires Bucket(byKey, key) == Listing(EvidenceLess, Ideal(n, files, key))
    requires |Ideal(n, files[f.path := f], key)| <= FANOUT
    ensures Bucket(AddAll(EvidenceLess, byKey, FileEvidence(n, f)), key)
      == Listing(EvidenceLess, Ideal(n, files[f.path := f], key))
    ensures |Ideal(n, files, key) + Values(FileEvidence(n, f), key)| <= FANOUT
  {
    OrdersAreStrict();
    IdealWith(n, files, f, key);
    FitsTop(EvidenceLess, Ideal(n, files, key), Ideal(n, files[f.path := f], key));
    AddAllTop(EvidenceLess, byKey, FileEvidence(n, f), key, Ideal(n, files, key));
  }

  lemma AddedContributions(n: Naming, files: Files, f: SymbolFile)
    ensures var more := files[f.path := f];
      (map p | p in files :: FileEvidence(n, files[p]))[f.path := FileEvidence(n, f)]
        == map p | p in more :: FileEvidence(n, more[p])
  {
  }

  lemma AddedAreRecorded(n: Naming, files: Files, byKey: map<string, seq<Evidence>>, es: seq<Entry>)
    requires forall key :: Bucket(byKey, key) == Listing(EvidenceLess, Ideal(n, files, key))
    requires forall key :: |Ideal(n, files, key) + Values(es, key)| <= FANOUT
    ensures Recorded(EvidenceLess, byKey, es) == es
  {
    OrdersAreStrict();
    AllRecorded(EvidenceLess, byKey, es, key => Ideal(n, files, key));
  }

  lemma AddKeysExact(n: Naming, files: Files, idx: KeyIndex, f: SymbolFile)
    requires Keyed(files) && ExactKeys(n, files, idx) && f.path !in files && Fits(n, files[f.path := f])
    ensures ExactKeys(n, files[f.path := f], idx.AddFile(f.path, FileEvidence(n, f)))
  {
    hide Listing;
    hide Ideal;
    hide FileEvidence;
    hide AddAll;
    hide Recorded;
    hide Values;
    hide Keyed;
    var es := FileEvidence(n, f);
    forall key
      ensures Bucket(AddAll(EvidenceLess, idx.byKey, es), key)
        == Listing(EvidenceLess, Ideal(n, files[f.path := f], key))
      ensures |Ideal(n, files, key) + Values(es, key)| <= FANOUT
    {
      AddOneKey(n, files, idx.byKey, f, key);
    }
    BucketsStayNonEmpty(EvidenceLess, idx.byKey, es);
    AddedAreRecorded(n, files, idx.byKey, es);
    AddedContributions(n, files, f);
  }

  lemma AddOneStem(n: Naming, files: Files, idx: StemIndex, f: SymbolFile, stem: (bool, string))
    requires Keyed(files) && f.path !in files
    requires Bucket(idx.byStem, stem) == Listing(PathLess, IdealPaths(n, files, stem))
    requires |IdealPaths(n, files[f.path := f], stem)| <= FANOUT
    ensures Bucket(idx.AddFile(f.path, StemEntry(n, f)).byStem, stem)
      == Listing(PathLess, IdealPaths(n, files[f.path := f], stem))
  {
    var more := files[f.path := f];
    OrdersAreStrict();
    IdealPathsWith(n, files, f, stem);
    if StemEntry(n, f) == Some(stem) {
      FitsTop(PathLess, IdealPaths(n, files, stem), IdealPaths(n, more, stem));
      AddTop(PathLess, IdealPaths(n, files, stem), f.path);
    }
  }

  lemma IdealPathsWith(n: Naming, files: Files, f: SymbolFile, stem: (bool, string))
    requires f.path !in files
    ensures IdealPaths(n, files[f.path := f], stem)
      == IdealPaths(n, files, stem) + (if StemEntry(n, f) == Some(stem) then {f.path} else {})
  {
  }

  lemma AddStemsExact(n: Naming, files: Files, idx: StemIndex, f: SymbolFile)
    requires Keyed(files) && ExactStems(n, files, idx) && f.path !in files && Fits(n, files[f.path := f])
    ensures ExactStems(n, files[f.path := f], idx.AddFile(f.path, StemEntry(n, f)))
  {
    var more, after := files[f.path := f], idx.AddFile(f.path, StemEntry(n, f));
    forall stem ensures Bucket(after.byStem, stem) == Listing(PathLess, IdealPaths(n, more, stem)) {
      AddOneStem(n, files, idx, f, stem);
    }
    AddedStemIsNonEmpty(idx, f.path, StemEntry(n, f));
    AddedStems(n, files, f);
  }

  lemma AddedStemIsNonEmpty(idx: StemIndex, path: Path, stem: Option<(bool, string)>)
    requires NoEmptyBucket(idx.byStem)
    ensures NoEmptyBucket(idx.AddFile(path, stem).byStem)
  {
    if stem.Some? {
      AddIsNonEmpty(PathLess, Bucket(idx.byStem, stem.value), path);
    }
  }

  lemma AddedStems(n: Naming, files: Files, f: SymbolFile)
    requires f.path !in files
    ensures var stems := map p | p in files && StemEntry(n, files[p]).Some? :: StemEntry(n, files[p]).value;
      var more := files[f.path := f];
      (if StemEntry(n, f).Some? then stems[f.path := StemEntry(n, f).value] else stems)
        == map p | p in more && StemEntry(n, more[p]).Some? :: StemEntry(n, more[p]).value
  {
  }

  /** Adding a new file to an exact index gives the exact index of all files, if it fits. */
  lemma InsertFileIsExact(n: Naming, files: Files, idx: Index, f: SymbolFile)
    requires Exact(n, files, idx) && f.path !in files && Fits(n, files[f.path := f])
    ensures Exact(n, files[f.path := f], InsertFile(n, idx, f))
  {
    assert idx.keys.RemoveFile(f.path) == idx.keys by {
      assert f.path !in idx.keys.contributions;
    }
    assert idx.stems.RemoveFile(f.path) == idx.stems by {
      assert f.path !in idx.stems.stemsByPath;
    }
    AddKeysExact(n, files, idx.keys, f);
    AddStemsExact(n, files, idx.stems, f);
  }

  lemma FitsTop<T(!new)>(less: (T, T) -> bool, small: set<T>, large: set<T>)
    requires StrictOrder(less) && small <= large && |large| <= FANOUT
    ensures Top(less, small) == Listing(less, small) && Top(less, large) == Listing(less, large)
  {
    SubsetSize(small, large);
    ListingIsOrdered(less, small);
    ListingIsOrdered(less, large);
  }

  // ----- Whole runs without overflow -----

  ghost predicate AlwaysFits(n: Naming, ops: seq<Op>) {
    forall i :: 0 <= i <= |ops| ==> Fits(n, Run(n, ops[..i]).files)
  }

  lemma ApplyKeepsExact(n: Naming, s: Store, op: Op)
    requires Exact(n, s.files, s.index) && Fits(n, Apply(n, s, op).files)
    ensures Exact(n, Apply(n, s, op).files, Apply(n, s, op).index)
  {
    if op.Clear? {
      EmptyIsExact(n);
    } else if op.Drop? {
      RemoveFileIsExact(n, s.files, s.index, op.path);
    } else {
      PutKeepsExact(n, s, op.file);
    }
  }

  lemma PutKeepsExact(n: Naming, s: Store, f: SymbolFile)
    requires Exact(n, s.files, s.index) && Fits(n, Apply(n, s, Put(f)).files)
    ensures Exact(n, Apply(n, s, Put(f)).files, Apply(n, s, Put(f)).index)
  {
    var stripped := RemoveFile(s.index, f.path);
    RemoveFileIsExact(n, s.files, s.index, f.path);
    var room := Evict(Store(s.files, stripped), f.path);
    if f.path !in s.files && |s.files| >= MAX_FILES {
      var oldest := LeastPath(s.files.Keys);
      WithoutAbsent(s.files, f.path);
      RemoveFileIsExact(n, s.files, stripped, oldest);
      WithoutAbsent(room.files, f.path);
      InsertIntoExact(n, room.files, room.files, room.index, f);
    } else {
      InsertIntoExact(n, s.files, s.files - {f.path}, stripped, f);
    }
  }

  lemma WithoutAbsent(files: Files, p: Path)
    requires p !in files
    ensures files - {p} == files
  {
  }

  lemma InsertIntoExact(n: Naming, files: Files, without: Files, idx: Index, f: SymbolFile)
    requires Exact(n, without, idx) && without == files - {f.path} && Fits(n, files[f.path := f])
    ensures Exact(n, files[f.path := f], InsertFile(n, idx, f))
  {
    assert files[f.path := f] == without[f.path := f];
    InsertFileIsExact(n, without, idx, f);
  }

  lemma EmptyIsExact(n: Naming)
    ensures Exact(n, map[], EMPTY_INDEX)
  {
    forall key ensures Ideal(n, map[], key) == {} {}
    forall stem ensures IdealPaths(n, map[], stem) == {} {}
  }

  /** After any run of insertions, replacements, removals and evictions in which nothing
      overflows, the index is exactly the evidence of the files it holds. */
  lemma {:induction false} RunIsExact(n: Naming, ops: seq<Op>)
    requires AlwaysFits(n, ops)
    ensures Exact(n, Run(n, ops).files, Run(n, ops).index)
  {
    if ops == [] {
      EmptyIsExact(n);
    } else {
      var front := ops[..|ops| - 1];
      forall i | 0 <= i <= |front| ensures Fits(n, Run(n, front[..i]).files) {
        assert front[..i] == ops[..i];
      }
      RunIsExact(n, front);
      assert ops[..|ops|] == ops;
      ApplyKeepsExact(n, Run(n, front), ops[|ops| - 1]);
    }
  }

  /** So the index does not depend on its history: a rebuild, or any other run that ends with
      the same files, gives the same index. */
  lemma IndexEqualsRebuild(n: Naming, ops: seq<Op>, rebuild: seq<Op>)
    requires AlwaysFits(n, ops) && AlwaysFits(n, rebuild)
    requires Run(n, ops).files == Run(n, rebuild).files
    ensures Run(n, ops).index == Run(n, rebuild).index
  {
    RunIsExact(n, ops);
    RunIsExact(n, rebuild);
    var a, b := Run(n, ops).index, Run(n, rebuild).index;
    SameBuckets(a.keys.byKey, b.keys.byKey);
    SameBuckets(a.stems.byStem, b.stems.byStem);
  }
}
