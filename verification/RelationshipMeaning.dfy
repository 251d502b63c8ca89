/** What the entries of the relationship index mean. */
module RelationshipMeaning {
  // Read off the symbols and relations of the held files: which evidence stands under which name.

  import opened Wrappers
  import opened CappedBuckets
  import opened RelationshipIndex
  import opened RelationshipRuns
  import opened RelationshipBuckets

  /** Symbol i of the file is the first one with this name; None if there is none. */
  predicate FirstNamed(f: SymbolFile, name: string, i: Option<nat>) {
    if i.Some? then i.value < |f.symbols| && f.symbols[i.value].name == name
      && forall j :: 0 <= j < i.value ==> f.symbols[j].name != name
    else forall j :: 0 <= j < |f.symbols| ==> f.symbols[j].name != name
  }

  /** The file is a test by its path, or some symbol of it is one. */
  predicate HoldsTests(n: Naming, f: SymbolFile) {
    n.testPath(f.path) || exists j :: 0 <= j < |f.symbols| && f.symbols[j].isTest
  }

  predicate FromTest(n: Naming, f: SymbolFile, owner: Option<nat>) {
    HoldsTests(n, f) || (owner.Some? && owner.value < |f.symbols| && f.symbols[owner.value].isTest)
  }

  /** A symbol, no import, stands under its own name: as a module, a test or a definition. */
  predicate FromSymbolName(n: Naming, f: SymbolFile, key: string, e: Evidence) {
    e.symbolIndex.Some? && e.symbolIndex.value < |f.symbols| &&
    var s := f.symbols[e.symbolIndex.value];
    && s.kind != Import && n.key(s.name) == key
    && (e.kind == ModuleEvidence <==> s.kind == Module)
    && (e.kind == TestEvidence <==> s.kind != Module && s.isTest)
    && (e.kind == Definition <==> s.kind != Module && !s.isTest)
  }

  /** A method stands under the name of its container. */
  predicate FromContainer(n: Naming, f: SymbolFile, key: string, e: Evidence) {
    e.symbolIndex.Some? && e.symbolIndex.value < |f.symbols| &&
    var s := f.symbols[e.symbolIndex.value];
    s.kind == Method && s.container.Some? && n.key(s.container.value) == key && e.kind == Implementation
  }

  /** A relation stands under what it refers to: a reference as a caller or a test, an
      implementation as such, an import as a dependency, under the whole path and under its last
      part. */
  predicate FromTarget(n: Naming, f: SymbolFile, r: Relation, key: string, e: Evidence) {
    && FirstNamed(f, r.from, e.symbolIndex)
    && (|| (r.kind == References && n.key(r.to) == key
            && e.kind == if FromTest(n, f, e.symbolIndex) then TestEvidence else Caller)
        || (r.kind == Implements && n.key(r.to) == key && e.kind == Implementation)
        || (r.kind == Imports && e.kind == Dependency
            && (n.key(r.to) == key || (n.lastSegment(r.to).Some? && n.key(n.lastSegment(r.to).value) == key))))
  }

  /** An import stands under the name it introduces. */
  predicate FromImportName(n: Naming, f: SymbolFile, r: Relation, key: string, e: Evidence) {
    && r.kind == Imports && e.kind == ImportEvidence
    && e.symbolIndex.Some? && FirstNamed(f, r.from, e.symbolIndex) && n.key(r.from) == key
  }

  predicate FromRelation(n: Naming, f: SymbolFile, r: Relation, key: string, e: Evidence) {
    FromTarget(n, f, r, key, e) || FromImportName(n, f, r, key, e)
  }

  /** The file says this about the name. */
  predicate Says(n: Naming, f: SymbolFile, key: string, e: Evidence) {
    && key != "" && e.path == f.path
    && (|| FromSymbolName(n, f, key, e) || FromContainer(n, f, key, e)
        || exists j :: 0 <= j < |f.relations| && FromRelation(n, f, f.relations[j], key, e))
  }

  // ----- The evidence of a file is what it says -----

  predicate Has(es: seq<Entry>, key: string, e: Evidence) {
    exists i :: 0 <= i < |es| && es[i] == (key, e)
  }

  lemma HasConcat(u: seq<Entry>, v: seq<Entry>, key: string, e: Evidence)
    ensures Has(u + v, key, e) <==> Has(u, key, e) || Has(v, key, e)
  {
    if Has(u, key, e) {
      var i :| 0 <= i < |u| && u[i] == (key, e);
      assert (u + v)[i] == (key, e);
    }
    if Has(v, key, e) {
      var i :| 0 <= i < |v| && v[i] == (key, e);
      assert (u + v)[|u| + i] == (key, e);
    }
  }

  lemma HasOne(key: string, e: Evidence, k: string, x: Evidence)
    ensures Has(NonEmptyKey(k, x), key, e) <==> key != "" && key == k && e == x
  {
    if k != "" {
      assert NonEmptyKey(k, x)[0] == (k, x);
    }
  }

  lemma FirstNamedIsPosition(f: SymbolFile, name: string, i: Option<nat>)
    ensures FirstNamed(f, name, i) <==> i == Position(f.symbols, name)
  {
    PositionIsFirst(f.symbols, name);
  }

  lemma {:induction false} PositionIsFirst(symbols: seq<Symbol>, name: string)
    ensures var p := Position(symbols, name);
      p.Some? ==> forall j :: 0 <= j < p.value ==> symbols[j].name != name
  {
    if symbols != [] && symbols[0].name != name {
      PositionIsFirst(symbols[1..], name);
      assert forall j :: 0 < j < |symbols| ==> symbols[j] == symbols[1..][j - 1];
    }
  }

  lemma SymbolSays(n: Naming, f: SymbolFile, i: nat, key: string, e: Evidence)
    requires i < |f.symbols|
    ensures Has(SymbolEvidence(n, f, i), key, e) <==>
      key != "" && e.path == f.path && e.symbolIndex == Some(i)
      && (FromSymbolName(n, f, key, e) || FromContainer(n, f, key, e))
  {
    var s := f.symbols[i];
    if s.kind != Import {
      var kind := if s.kind == Module then ModuleEvidence else if s.isTest then TestEvidence else Definition;
      HasOne(key, e, n.key(s.name), Evidence(f.path, Some(i), kind));
      var first := NonEmptyKey(n.key(s.name), Evidence(f.path, Some(i), kind));
      if s.kind == Method && s.container.Some? {
        HasOne(key, e, n.key(s.container.value), Evidence(f.path, Some(i), Implementation));
        HasConcat(first, NonEmptyKey(n.key(s.container.value), Evidence(f.path, Some(i), Implementation)), key, e);
      } else {
        assert SymbolEvidence(n, f, i) == first;
      }
    }
  }

  lemma ImportSays(n: Naming, f: SymbolFile, r: Relation, key: string, e: Evidence)
    requires r.kind == Imports
    ensures Has(RelationEvidence(n, f, r), key, e) <==> key != "" && e.path == f.path && FromRelation(n, f, r, key, e)
  {
    var owner, last := Position(f.symbols, r.from), n.lastSegment(r.to);
    FirstNamedIsPosition(f, r.from, e.symbolIndex);
    var whole := NonEmptyKey(n.key(r.to), Evidence(f.path, owner, Dependency));
    var part := if last.Some? && n.key(last.value) != n.key(r.to)
      then NonEmptyKey(n.key(last.value), Evidence(f.path, owner, Dependency)) else [];
    var name := if owner.Some?
      then NonEmptyKey(n.key(f.symbols[owner.value].name), Evidence(f.path, owner, ImportEvidence)) else [];
    HasOne(key, e, n.key(r.to), Evidence(f.path, owner, Dependency));
    if last.Some? {
      HasOne(key, e, n.key(last.value), Evidence(f.path, owner, Dependency));
    }
    if owner.Some? {
      HasOne(key, e, n.key(f.symbols[owner.value].name), Evidence(f.path, owner, ImportEvidence));
    }
    HasConcat(whole + part, name, key, e);
    HasConcat(whole, part, key, e);
  }

  lemma RelationSays(n: Naming, f: SymbolFile, r: Relation, key: string, e: Evidence)
    ensures Has(RelationEvidence(n, f, r), key, e) <==> key != "" && e.path == f.path && FromRelation(n, f, r, key, e)
  {
    var owner := Position(f.symbols, r.from);
    FirstNamedIsPosition(f, r.from, e.symbolIndex);
    match r.kind
    case Contains =>
    case References =>
      var kind := if FromTest(n, f, owner) then TestEvidence else Caller;
      HasOne(key, e, n.key(r.to), Evidence(f.path, owner, kind));
    case Implements =>
      HasOne(key, e, n.key(r.to), Evidence(f.path, owner, Implementation));
    case Imports =>
      ImportSays(n, f, r, key, e);
  }

  lemma {:induction false} SymbolsSay(n: Naming, f: SymbolFile, upTo: nat, key: string, e: Evidence)
    requires upTo <= |f.symbols|
    ensures Has(SymbolsEvidence(n, f, upTo), key, e) <==>
      key != "" && e.path == f.path && e.symbolIndex.Some? && e.symbolIndex.value < upTo
      && (FromSymbolName(n, f, key, e) || FromContainer(n, f, key, e))
  {
    hide SymbolEvidence;
    hide FromSymbolName;
    hide FromContainer;
    if upTo > 0 {
      SymbolsSay(n, f, upTo - 1, key, e);
      SymbolSays(n, f, upTo - 1, key, e);
      HasConcat(SymbolsEvidence(n, f, upTo - 1), SymbolEvidence(n, f, upTo - 1), key, e);
    }
  }

  lemma {:induction false} RelationsSay(n: Naming, f: SymbolFile, upTo: nat, key: string, e: Evidence)
    requires upTo <= |f.relations|
    ensures Has(RelationsEvidence(n, f, upTo), key, e) <==>
      key != "" && e.path == f.path && exists j :: 0 <= j < upTo && FromRelation(n, f, f.relations[j], key, e)
  {
    hide RelationEvidence;
    hide FromRelation;
    if upTo > 0 {
      RelationsSay(n, f, upTo - 1, key, e);
      RelationSays(n, f, f.relations[upTo - 1], key, e);
      HasConcat(RelationsEvidence(n, f, upTo - 1), RelationEvidence(n, f, f.relations[upTo - 1]), key, e);
    }
  }

  /** What a file contributes is what its symbols and relations say. */
  lemma EvidenceIsSaid(n: Naming, f: SymbolFile, key: string, e: Evidence)
    ensures e in Values(FileEvidence(n, f), key) <==> Says(n, f, key, e)
  {
    hide FromSymbolName;
    hide FromContainer;
    hide FromRelation;
    var symbols, relations := SymbolsEvidence(n, f, |f.symbols|), RelationsEvidence(n, f, |f.relations|);
    SymbolsSay(n, f, |f.symbols|, key, e);
    RelationsSay(n, f, |f.relations|, key, e);
    HasConcat(symbols, relations, key, e);
    SymbolNumbers(n, f, key, e);
    assert e in Values(symbols + relations, key) <==> Has(symbols + relations, key, e);
  }

  lemma SymbolNumbers(n: Naming, f: SymbolFile, key: string, e: Evidence)
    ensures FromSymbolName(n, f, key, e) || FromContainer(n, f, key, e) ==>
      e.symbolIndex.Some? && e.symbolIndex.value < |f.symbols|
  {
  }

  // ----- The index after a run -----

  /** Over every run in which the bucket of a name never overflows: it holds exactly what the held
      files say about the name. */
  lemma BucketSays(n: Naming, ops: seq<Op>, key: string, e: Evidence)
    requires KeyFits(n, ops, key)
    ensures var s := Run(n, ops);
      e in Bucket(s.index.keys.byKey, key) <==> e.path in s.files && Says(n, s.files[e.path], key, e)
  {
    hide Run;
    hide Listing;
    hide KeyFits;
    hide Says;
    hide FileEvidence;
    hide Ideal;
    var s := Run(n, ops);
    KeyIsExact(n, ops, key);
    RunIsGood(n, ops);
    GoodIsKeyed(s);
    OrdersAreStrict();
    ListingIsOrdered(EvidenceLess, Ideal(n, s.files, key));
    InIdeal(n, s.files, key, e);
    if e.path in s.files {
      EvidenceIsSaid(n, s.files[e.path], key, e);
    }
  }

  /** What is recorded of a held file is among what it contributes. */
  ghost predicate Truthful(n: Naming, files: Files, idx: KeyIndex) {
    forall p, c :: p in idx.contributions && c in idx.contributions[p] ==>
      p in files && c in FileEvidence(n, files[p])
  }

  lemma RemoveIsTruthful(n: Naming, files: Files, idx: KeyIndex, p: Path)
    requires Truthful(n, files, idx)
    ensures Truthful(n, files - {p}, idx.RemoveFile(p))
  {
    hide FileEvidence;
  }

  lemma InsertIsTruthful(n: Naming, files: Files, idx: Index, f: SymbolFile)
    requires Truthful(n, files, idx.keys)
    ensures Truthful(n, files[f.path := f], InsertFile(n, idx, f).keys)
  {
    hide FileEvidence;
    hide Recorded;
    hide AddAll;
    var base := RemoveFile(idx, f.path).keys;
    RemoveIsTruthful(n, files, idx.keys, f.path);
    RecordedAreAdded(EvidenceLess, base.byKey, FileEvidence(n, f));
  }

  lemma {:induction false} RunIsTruthful(n: Naming, ops: seq<Op>)
    ensures Truthful(n, Run(n, ops).files, Run(n, ops).index.keys)
  {
    hide Truthful;
    hide InsertFile;
    if ops == [] {
      NothingIsTruthful(n);
    } else {
      var s, op := Run(n, ops[..|ops| - 1]), ops[|ops| - 1];
      RunIsTruthful(n, ops[..|ops| - 1]);
      match op
      case Clear => NothingIsTruthful(n);
      case Drop(p) => RemoveIsTruthful(n, s.files, s.index.keys, p);
      case Put(f) => PutIsTruthful(n, s, f);
    }
  }

  lemma PutIsTruthful(n: Naming, s: Store, f: SymbolFile)
    requires Truthful(n, s.files, s.index.keys)
    ensures Truthful(n, Apply(n, s, Put(f)).files, Apply(n, s, Put(f)).index.keys)
  {
    hide Truthful;
    hide InsertFile;
    hide KeyIndex.RemoveFile;
    var stripped := RemoveFile(s.index, f.path);
    RemoveIsTruthful(n, s.files, s.index.keys, f.path);
    StillTruthful(n, s.files - {f.path}, s.files, stripped.keys);
    if f.path !in s.files && |s.files| >= MAX_FILES {
      var oldest := LeastPath(s.files.Keys);
      RemoveIsTruthful(n, s.files, stripped.keys, oldest);
      InsertIsTruthful(n, s.files - {oldest}, RemoveFile(stripped, oldest), f);
    } else {
      InsertIsTruthful(n, s.files, stripped, f);
    }
  }

  lemma StillTruthful(n: Naming, some: Files, files: Files, idx: KeyIndex)
    requires Truthful(n, some, idx) && forall p :: p in some ==> p in files && files[p] == some[p]
    ensures Truthful(n, files, idx)
  {
  }

  lemma NothingIsTruthful(n: Naming)
    ensures Truthful(n, map[], KeyIndex(map[], map[]))
  {
  }

  /** Over every run with any overflow, a bucket holds nothing but what held files say about its
      name. */
  lemma BucketSaysNothingElse(n: Naming, ops: seq<Op>, key: string, e: Evidence)
    requires e in Bucket(Run(n, ops).index.keys.byKey, key)
    ensures e.path in Run(n, ops).files && Says(n, Run(n, ops).files[e.path], key, e)
  {
    hide Run;
    hide Says;
    hide FileEvidence;
    RunIsGood(n, ops);
    RunIsTruthful(n, ops);
    var s := Run(n, ops);
    assert Accounted(s.files, s.index.keys, key, e);
    EntryIsValue(FileEvidence(n, s.files[e.path]), key, e);
    EvidenceIsSaid(n, s.files[e.path], key, e);
  }

  // ----- The order of entries -----

  /** Entries are in the order of paths, then of symbol numbers, those without one first, then of
      kinds. */
  lemma EntriesInOrder(p: Path, q: Path, i: nat, j: nat, a: EvidenceKind, b: EvidenceKind)
    ensures p < q ==> EvidenceLess(Evidence(p, Some(i), a), Evidence(q, None, b))
    ensures EvidenceLess(Evidence(p, None, a), Evidence(p, Some(i), b))
    ensures i < j ==> EvidenceLess(Evidence(p, Some(i), a), Evidence(p, Some(j), b))
    ensures var kinds :=
        [Definition, Caller, Implementation, TestEvidence, Dependency, ImportEvidence, ModuleEvidence];
      Ordered(EvidenceLess, seq(7, k requires 0 <= k < 7 => Evidence(p, Some(i), kinds[k])))
  {
  }

  // ----- Which files are held -----

  /** The path makes room for a new file. */
  predicate GivenUp(files: Files, f: SymbolFile, p: Path) {
    f.path !in files && |files| >= MAX_FILES && p in files && forall q :: q in files ==> p <= q
  }

  /** A file that is put is held afterwards; every other file stays, except that the first path is
      given up when the store is full and the file is new. */
  lemma PutHolds(n: Naming, s: Store, f: SymbolFile, p: Path)
    ensures var t := Apply(n, s, Put(f));
      && f.path in t.files && t.files[f.path] == f
      && (p != f.path ==> (p in t.files <==> p in s.files && !GivenUp(s.files, f, p)))
      && (p != f.path && p in t.files ==> t.files[p] == s.files[p])
  {
    hide InsertFile;
    hide RelationshipIndex.RemoveFile;
  }

  /** The files listed under a stem are the held ones with that stem, tests apart from sources. */
  lemma StemSays(n: Naming, ops: seq<Op>, test: bool, stem: string, p: Path)
    requires StemFits(n, ops, (test, stem))
    ensures var s := Run(n, ops);
      p in Bucket(s.index.stems.byStem, (test, stem)) <==>
      p in s.files && n.stem(p) == Some(stem) && (test <==> HoldsTests(n, s.files[p]))
  {
    hide Run;
    hide Listing;
    hide StemFits;
    var s := Run(n, ops);
    StemIsExact(n, ops, (test, stem));
    RunIsGood(n, ops);
    GoodIsKeyed(s);
    OrdersAreStrict();
    ListingIsOrdered(PathLess, IdealPaths(n, s.files, (test, stem)));
  }
}
