/** The mutable relationship index and the bounded collection of files that owns it, with the loops
    that insert and remove. */
module RelationshipStore {
  import opened Wrappers
  import opened CappedBuckets
  import opened RelationshipIndex

  /** Buckets and recorded entries after adding some entries to the buckets in `start`. */
  predicate Added(
    start: map<string, seq<Evidence>>, added: seq<Entry>, byKey: map<string, seq<Evidence>>, entries: seq<Entry>)
  {
    byKey == AddAll(EvidenceLess, start, added) && entries == Recorded(EvidenceLess, start, added)
  }

  /** Adds one entry under a key and remembers it if its bucket kept it.  `added` are the
      entries of this file added so far to the buckets in `start`. */
  method AddContribution(
    byKey: map<string, seq<Evidence>>, contributions: seq<Entry>, key: string, evidence: Evidence,
    ghost start: map<string, seq<Evidence>>, ghost added: seq<Entry>)
    returns (byKeyAfter: map<string, seq<Evidence>>, contributionsAfter: seq<Entry>)
    requires Added(start, added, byKey, contributions)
    ensures Added(start, added + NonEmptyKey(key, evidence), byKeyAfter, contributionsAfter)
  {
    byKeyAfter, contributionsAfter := byKey, contributions;
    if key == "" {
      assert added + [] == added;
      return;
    }
    var values := Bucket(byKeyAfter, key);
    if evidence !in values {
      values := Cap(Sort(EvidenceLess, values + [evidence]));
    }
    byKeyAfter := byKeyAfter[key := values];
    if evidence in values {
      contributionsAfter := contributionsAfter + [(key, evidence)];
    }
    AddedOneMore(start, added, key, evidence, byKey);
  }

  lemma AddedOneMore(
    start: map<string, seq<Evidence>>, added: seq<Entry>, key: string, evidence: Evidence,
    byKey: map<string, seq<Evidence>>)
    requires byKey == AddAll(EvidenceLess, start, added)
    ensures var more, after := added + [(key, evidence)], AddTo(EvidenceLess, byKey, key, evidence);
      && AddAll(EvidenceLess, start, more) == after
      && Recorded(EvidenceLess, start, more) ==
          Recorded(EvidenceLess, start, added) + (if evidence in after[key] then [(key, evidence)] else [])
  {
    var more := added + [(key, evidence)];
    assert more[..|more| - 1] == added && more[|more| - 1] == (key, evidence);
  }

  class RelationshipIndexObject {
    const naming: Naming
    var byKey: map<string, seq<Evidence>>
    var contributions: map<Path, seq<Entry>>
    var byStem: map<(bool, string), seq<Path>>
    var stemsByPath: map<Path, (bool, string)>

    constructor (naming: Naming)
      ensures this.naming == naming && State() == EMPTY_INDEX
    {
      this.naming := naming;
      byKey, contributions, byStem, stemsByPath := map[], map[], map[], map[];
    }

    function State(): Index reads this {
      Index(KeyIndex(byKey, contributions), StemIndex(byStem, stemsByPath))
    }

    method RemoveFile(path: Path)
      modifies this
      ensures State() == RelationshipIndex.RemoveFile(old(State()), path)
    {
      if path in contributions {
        var gone := contributions[path];
        contributions := contributions - {path};
        for i := 0 to |gone|
          modifies this`byKey
          invariant byKey == RemoveAll(old(byKey), gone[..i])
        {
          assert gone[..i + 1][..i] == gone[..i];
          byKey := RemoveFrom(byKey, gone[i].0, gone[i].1);
        }
        assert gone[..|gone|] == gone;
      } else {
        assert contributions - {path} == contributions;
      }
      if path in stemsByPath {
        byStem := RemoveFrom(byStem, stemsByPath[path], path);
        stemsByPath := stemsByPath - {path};
      } else {
        assert stemsByPath - {path} == stemsByPath;
      }
    }

    method InsertFile(f: SymbolFile)
      modifies this
      ensures State() == RelationshipIndex.InsertFile(naming, old(State()), f)
    {
      RemoveFile(f.path);
      ghost var base := State();
      var testFile := naming.testPath(f.path) || exists i :: 0 <= i < |f.symbols| && f.symbols[i].isTest;
      var stem := naming.stem(f.path);
      if stem.Some? {
        byStem := AddTo(PathLess, byStem, (testFile, stem.value), f.path);
        stemsByPath := stemsByPath[f.path := (testFile, stem.value)];
      }
      var entries := AddSymbols(f);
      entries := AddRelations(f, testFile, entries, base.keys.byKey);
      contributions := contributions[f.path := entries];
    }

    method AddSymbols(f: SymbolFile) returns (entries: seq<Entry>)
      modifies this`byKey
      ensures Added(old(byKey), SymbolsEvidence(naming, f, |f.symbols|), byKey, entries)
    {
      entries := [];
      for i := 0 to |f.symbols|
        modifies this`byKey
        invariant Added(old(byKey), SymbolsEvidence(naming, f, i), byKey, entries)
      {
        hide Added;
        hide SymbolEvidence;
        entries := AddSymbol(f, i, entries, old(byKey), SymbolsEvidence(naming, f, i));
      }
    }

    method AddSymbol(
      f: SymbolFile, i: nat, before: seq<Entry>,
      ghost start: map<string, seq<Evidence>>, ghost added: seq<Entry>) returns (entries: seq<Entry>)
      requires i < |f.symbols|
      requires Added(start, added, byKey, before)
      modifies this`byKey
      ensures Added(start, added + SymbolEvidence(naming, f, i), byKey, entries)
    {
      hide Added;
      entries := before;
      var symbol := f.symbols[i];
      if symbol.kind == Import {
        assert added + [] == added;
        return;
      }
      var kind := if symbol.kind == Module then ModuleEvidence else if symbol.isTest then TestEvidence else Definition;
      var own := Evidence(f.path, Some(i), kind);
      byKey, entries := AddContribution(byKey, entries, naming.key(symbol.name), own, start, added);
      ghost var first := NonEmptyKey(naming.key(symbol.name), own);
      ghost var second: seq<Entry> := [];
      assert added + first + second == added + first;
      if symbol.kind == Method && symbol.container.Some? {
        var implementation := Evidence(f.path, Some(i), Implementation);
        byKey, entries := AddContribution(
          byKey, entries, naming.key(symbol.container.value), implementation, start, added + first);
        second := NonEmptyKey(naming.key(symbol.container.value), implementation);
      }
      assert added + first + second == added + (first + second);
      assert SymbolEvidence(naming, f, i) == first + second;
    }

    method AddRelations(f: SymbolFile, testFile: bool, before: seq<Entry>, ghost start: map<string, seq<Evidence>>)
      returns (entries: seq<Entry>)
      requires testFile == IsTestFile(naming, f)
      requires Added(start, SymbolsEvidence(naming, f, |f.symbols|), byKey, before)
      modifies this`byKey
      ensures Added(start, FileEvidence(naming, f), byKey, entries)
    {
      hide Added;
      hide RelationEvidence;
      ghost var symbols := SymbolsEvidence(naming, f, |f.symbols|);
      entries := before;
      assert symbols + [] == symbols;
      for i := 0 to |f.relations|
        modifies this`byKey
        invariant Added(start, symbols + RelationsEvidence(naming, f, i), byKey, entries)
      {
        entries := AddRelation(f, testFile, f.relations[i], entries, start, symbols + RelationsEvidence(naming, f, i));
        assert symbols + RelationsEvidence(naming, f, i) + RelationEvidence(naming, f, f.relations[i])
          == symbols + RelationsEvidence(naming, f, i + 1);
      }
    }

    method AddRelation(
      f: SymbolFile, testFile: bool, r: Relation, before: seq<Entry>,
      ghost start: map<string, seq<Evidence>>, ghost added: seq<Entry>) returns (entries: seq<Entry>)
      requires testFile == IsTestFile(naming, f)
      requires Added(start, added, byKey, before)
      modifies this`byKey
      ensures Added(start, added + RelationEvidence(naming, f, r), byKey, entries)
    {
      hide Added;
      entries := before;
      var owner := Position(f.symbols, r.from);
      match r.kind {
        case Contains =>
          assert added + [] == added;
        case References =>
          var test := testFile || (owner.Some? && f.symbols[owner.value].isTest);
          byKey, entries := AddContribution(
            byKey, entries, naming.key(r.to), Evidence(f.path, owner, if test then TestEvidence else Caller), start,
            added);
        case Implements =>
          byKey, entries := AddContribution(
            byKey, entries, naming.key(r.to), Evidence(f.path, owner, Implementation), start, added);
        case Imports =>
          entries := AddImport(f, r, owner, entries, start, added);
      }
    }

    method AddImport(
      f: SymbolFile, r: Relation, owner: Option<nat>, before: seq<Entry>,
      ghost start: map<string, seq<Evidence>>, ghost added: seq<Entry>) returns (entries: seq<Entry>)
      requires r.kind == Imports && owner == Position(f.symbols, r.from)
      requires Added(start, added, byKey, before)
      modifies this`byKey
      ensures Added(start, added + RelationEvidence(naming, f, r), byKey, entries)
    {
      hide Added;
      entries := before;
      var dependency := Evidence(f.path, owner, Dependency);
      var target := naming.key(r.to);
      byKey, entries := AddContribution(byKey, entries, target, dependency, start, added);
      ghost var first := NonEmptyKey(target, dependency);
      ghost var second: seq<Entry> := [];
      assert added + first + second == added + first;
      var last := naming.lastSegment(r.to);
      if last.Some? {
        var lastKey := naming.key(last.value);
        if lastKey != target {
          byKey, entries := AddContribution(byKey, entries, lastKey, dependency, start, added + first);
          second := NonEmptyKey(lastKey, dependency);
        }
      }
      ghost var third: seq<Entry> := [];
      assert added + first + second + third == added + first + second;
      if owner.Some? {
        var name := naming.key(f.symbols[owner.value].name);
        byKey, entries := AddContribution(
          byKey, entries, name, Evidence(f.path, owner, ImportEvidence), start, added + first + second);
        third := NonEmptyKey(name, Evidence(f.path, owner, ImportEvidence));
      }
      assert added + first + second + third == added + (first + second + third);
      assert RelationEvidence(naming, f, r) == first + second + third;
    }
  }

  class SymbolIndexObject {
    const naming: Naming
    var files: Files
    var relationships: RelationshipIndexObject

    constructor (naming: Naming)
      ensures State() == EMPTY_STORE && Valid() && fresh(relationships) && this.naming == naming
    {
      this.naming := naming;
      files := map[];
      relationships := new RelationshipIndexObject(naming);
    }

    ghost predicate Valid() reads this, relationships {
      relationships.naming == naming
    }

    function State(): Store reads this, relationships {
      Store(files, relationships.State())
    }

    method Clear()
      modifies this
      ensures Valid() && fresh(relationships) && State() == Apply(naming, old(State()), Op.Clear)
    {
      files := map[];
      relationships := new RelationshipIndexObject(naming);
    }

    method RemoveFile(path: Path) returns (removed: Option<SymbolFile>)
      requires Valid()
      modifies this, relationships
      ensures Valid() && relationships == old(relationships)
      ensures State() == Apply(naming, old(State()), Drop(path))
      ensures removed == if path in old(files) then Some(old(files)[path]) else None
    {
      relationships.RemoveFile(path);
      removed := if path in files then Some(files[path]) else None;
      files := files - {path};
    }

    /** Inserts or replaces a file; a full collection first gives up its first path. */
    method Insert(f: SymbolFile)
      requires Valid()
      modifies this, relationships
      ensures Valid() && relationships == old(relationships)
      ensures State() == Apply(naming, old(State()), Put(f))
    {
      relationships.RemoveFile(f.path);
      if f.path !in files && |files| >= MAX_FILES {
        LeastExists(files.Keys);
        var oldest: Path :| oldest in files.Keys && forall p :: p in files.Keys ==> oldest <= p;
        assert oldest == LeastPath(files.Keys);
        relationships.RemoveFile(oldest);
        files := files - {oldest};
      }
      relationships.InsertFile(f);
      files := files[f.path := f];
    }
  }
}
