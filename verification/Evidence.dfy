/** The evidence a session keeps about the workspace. */
module Evidence {
  // Inspected files with their hashes, excerpts, and the flags that tell whether they are
  // still current.

  import opened Excerpts
  import opened Text
  import opened Wrappers

  const MAX_INSPECTED_FILES: nat := 64
  const MAX_FILE_EXCERPTS: nat := 16
  const MAX_CONTEXT_ITEMS: nat := 48
  const MAX_USER_MODIFIED: nat := 32
  const MAX_AUTOMATIC_READS: nat := 8
  const MAX_HASHED_BYTES: nat := 4 * 1024 * 1024

  datatype FileState = Present | Missing

  datatype InspectedFile = InspectedFile(path: Path, contentHash: Option<Hash>, lastState: FileState, stale: bool)

  datatype Context = Context(
    root: string, workspaceChanged: bool, inspected: seq<InspectedFile>, excerpts: seq<Excerpt>,
    modified: seq<Path>, userModified: seq<Path>)

  /** The readable regular files of a workspace. */
  datatype Workspace = Workspace(root: string, files: map<Path, Bytes>)

  /** What the engine takes as given: the hash, portable forms of workspace paths, and overlap. */
  datatype Rules = Rules(
    hash: Bytes -> Hash, portable: Path -> Option<Path>, overlap: (Path, Path) -> bool)
  {
    predicate Relative(p: Path) {
      portable(p).Some?
    }
  }

  /** Portable paths are their own portable form. */
  ghost predicate Canonical(r: Rules) {
    forall p: Path, q: Path :: r.portable(p) == Some(q) ==> r.portable(q) == Some(q)
  }

  function LiveHash(r: Rules, w: Workspace, p: Path): Option<Hash> {
    if !r.Relative(p) then None
    else
      var q := r.portable(p).value;
      if q in w.files && |w.files[q]| <= MAX_HASHED_BYTES then Some(r.hash(w.files[q])) else None
  }

  // ----- Refreshing -----

  function RefreshOne(f: InspectedFile, live: Option<Hash>): InspectedFile {
    if live.Some? then
      if f.contentHash.Some? && f.contentHash != live then f.(stale := true, contentHash := live)
      else if f.stale then f.(lastState := Present)
      else if f.contentHash.None? then f.(contentHash := live, stale := false)
      else f.(stale := false, lastState := Present)
    else if f.lastState == Present then f.(stale := true, lastState := Missing)
    else f
  }

  predicate Drifted(f: InspectedFile, live: Option<Hash>) {
    if live.Some? then f.contentHash.Some? && f.contentHash != live else f.lastState == Present
  }

  function RefreshAll(r: Rules, w: Workspace, fs: seq<InspectedFile>): seq<InspectedFile> {
    if fs == [] then []
    else
      var front, f := RefreshAll(r, w, fs[..|fs| - 1]), fs[|fs| - 1];
      if r.Relative(f.path) then front + [RefreshOne(f, LiveHash(r, w, f.path))] else front
  }

  function DriftedPaths(r: Rules, w: Workspace, fs: seq<InspectedFile>): seq<Path> {
    if fs == [] then []
    else
      var front, f := DriftedPaths(r, w, fs[..|fs| - 1]), fs[|fs| - 1];
      if r.Relative(f.path) && Drifted(f, LiveHash(r, w, f.path)) then front + [f.path] else front
  }

  predicate AnyForeign(r: Rules, fs: seq<InspectedFile>) {
    exists i :: 0 <= i < |fs| && !r.Relative(fs[i].path)
  }

  function ExceptPaths(es: seq<Excerpt>, paths: seq<Path>): (kept: seq<Excerpt>)
    ensures |kept| <= |es|
    ensures forall e :: e in kept <==> e in es && e.path !in paths
  {
    if es == [] then []
    else
      assert es == es[..|es| - 1] + [es[|es| - 1]];
      ExceptPaths(es[..|es| - 1], paths) + if es[|es| - 1].path in paths then [] else [es[|es| - 1]]
  }

  function OnlyRelative(r: Rules, ps: seq<Path>): seq<Path> {
    if ps == [] then []
    else OnlyRelative(r, ps[..|ps| - 1]) + if r.Relative(ps[|ps| - 1]) then [ps[|ps| - 1]] else []
  }

  function Refresh(r: Rules, s: Context, w: Workspace): Context {
    var drifted := DriftedPaths(r, w, s.inspected);
    Context(
      w.root,
      s.workspaceChanged || (s.root != "" && s.root != w.root) || AnyForeign(r, s.inspected) || drifted != [],
      RefreshAll(r, w, s.inspected), ExceptPaths(s.excerpts, drifted), OnlyRelative(r, s.modified), s.userModified)
  }

  // ----- Observing tool results -----

  function FindPath(fs: seq<InspectedFile>, p: Path): (i: nat)
    ensures i <= |fs| && (i < |fs| ==> fs[i].path == p) && forall j :: 0 <= j < i ==> fs[j].path != p
  {
    if fs == [] || fs[0].path == p then 0 else FindPath(fs[1..], p) + 1
  }

  /** Adds at the end; the oldest goes when there are too many. */
  function Pushed<T>(s: seq<T>, x: T, cap: nat): seq<T> {
    if |s| + 1 > cap then (s + [x])[1..] else s + [x]
  }

  /** Records that a file was seen, by the portable form of its path. */
  function Upsert(s: Context, p: Path, hash: Option<Hash>): Context {
    var i := FindPath(s.inspected, p);
    if i < |s.inspected| then
      var f := s.inspected[i];
      var changed := hash.Some? && f.contentHash.Some? && f.contentHash != hash;
      s.(inspected := s.inspected[i := InspectedFile(p, if hash.Some? then hash else f.contentHash, Present, false)],
         excerpts := if changed then ExceptPaths(s.excerpts, [p]) else s.excerpts)
    else s.(inspected := Pushed(s.inspected, InspectedFile(p, hash, Present, false), MAX_INSPECTED_FILES))
  }

  function UpsertPath(r: Rules, s: Context, p: Path, hash: Option<Hash>): Context {
    if r.Relative(p) then Upsert(s, r.portable(p).value, hash) else s
  }

  function ExceptSpan(es: seq<Excerpt>, x: Excerpt): (kept: seq<Excerpt>)
    ensures |kept| <= |es| && forall e :: e in kept ==> e in es
  {
    if es == [] then []
    else
      var e := es[|es| - 1];
      ExceptSpan(es[..|es| - 1], x)
      + if e.path == x.path && e.startLine == x.startLine && e.endLine == x.endLine then [] else [e]
  }

  function PushExcerpt(s: Context, e: Excerpt): Context {
    s.(excerpts := Pushed(ExceptSpan(s.excerpts, e), e, MAX_FILE_EXCERPTS))
  }

  function Texts(rows: seq<Row>): (t: seq<Bytes>)
    ensures |t| == |rows| && forall i :: 0 <= i < |t| ==> t[i] == rows[i].text
  {
    seq(|rows|, i requires 0 <= i < |rows| => rows[i].text)
  }

  function ExcerptOf(p: Path, f: ReadFile): Option<Excerpt> {
    if f.rows == [] || Built([], Texts(f.rows)) == [] then None
    else Some(Excerpt(p, MinNumber(f.rows), MaxNumber(f.rows), ExcerptText(Texts(f.rows)), f.contentHash, f.truncated))
  }

  function ReadOne(r: Rules, s: Context, f: ReadFile): Context {
    if !r.Relative(f.path) then s
    else
      var p := r.portable(f.path).value;
      var seen, e := Upsert(s, p, f.contentHash), ExcerptOf(p, f);
      if e.Some? then PushExcerpt(seen, e.value) else seen
  }

  function ReadAll(r: Rules, s: Context, fs: seq<ReadFile>): Context {
    if fs == [] then s else ReadOne(r, ReadAll(r, s, fs[..|fs| - 1]), fs[|fs| - 1])
  }

  function RecordModified(s: Context, p: Path): Context {
    if p in s.modified then s else s.(modified := Pushed(s.modified, p, MAX_CONTEXT_ITEMS))
  }

  function WriteOne(r: Rules, s: Context, p: Path, hash: Option<Hash>): Context {
    if !r.Relative(p) then s
    else
      var seen := RecordModified(UpsertPath(r, s, p, hash), p);
      seen.(excerpts := ExceptPaths(seen.excerpts, [p]))
  }

  function WriteAll(r: Rules, s: Context, fs: seq<(Path, Option<Hash>)>): Context {
    if fs == [] then s else WriteOne(r, WriteAll(r, s, fs[..|fs| - 1]), fs[|fs| - 1].0, fs[|fs| - 1].1)
  }

  /** A command with unknown effects makes everything stale; one with known paths, what overlaps
      them. */
  function MarkStale(r: Rules, fs: seq<InspectedFile>, everything: bool, paths: seq<Path>): (g: seq<InspectedFile>)
    ensures |g| == |fs| && forall i :: 0 <= i < |g| ==> g[i].path == fs[i].path && g[i] == fs[i].(stale := g[i].stale)
    ensures forall i :: 0 <= i < |g| && fs[i].stale ==> g[i].stale
  {
    seq(|fs|, i requires 0 <= i < |fs| =>
      if everything || exists k :: 0 <= k < |paths| && r.overlap(fs[i].path, paths[k])
      then fs[i].(stale := true) else fs[i])
  }

  /** A path of the user's own changes, unless the session changed it itself. */
  function RecordUser(r: Rules, s: Context, p: Path): Context {
    if !r.Relative(p) || p in s.modified || p in s.userModified then s
    else s.(userModified := Pushed(s.userModified, p, MAX_USER_MODIFIED))
  }

  function RecordUserAll(r: Rules, s: Context, ps: seq<Path>): Context {
    if ps == [] then s else RecordUser(r, RecordUserAll(r, s, ps[..|ps| - 1]), ps[|ps| - 1])
  }

  function RecordTouched(r: Rules, s: Context, ps: seq<Path>): Context {
    if ps == [] then s
    else
      var front, p := RecordTouched(r, s, ps[..|ps| - 1]), ps[|ps| - 1];
      if r.Relative(p) then RecordModified(front, p) else front
  }

  /** What a command may have done: the paths it records as modified, and all paths and manifests
      it may affect. */
  datatype Effects = Effects(uncertain: bool, touched: seq<Path>, paths: seq<Path>)
  {
    predicate Everything() {
      uncertain || paths == []
    }
  }

  function Invalidate(r: Rules, s: Context, e: Effects): Context {
    s.(inspected := MarkStale(r, s.inspected, e.Everything(), e.paths),
       excerpts := if e.Everything() then [] else ExceptPaths(s.excerpts, e.paths), workspaceChanged := true)
  }

  /** A file that the runtime reads itself, around a line or from the start, and what it finds. */
  datatype AutoRead = AutoRead(path: Path, line: Option<nat>, content: Option<Bytes>)

  predicate Repeats(again: seq<AutoRead>, p: Path) {
    exists i :: 0 <= i < |again| && again[i].path == p
  }

  function FoundExcerpt(r: Rules, a: AutoRead): (e: Option<Excerpt>)
    ensures e.Some? ==> r.portable(a.path) == Some(e.value.path)
  {
    if !r.Relative(a.path) || a.content.None? then None
    else AutoExcerpt(r.hash, r.portable(a.path).value, a.content.value, a.line)
  }

  function StoreAutomatic(s: Context, e: Excerpt): Context {
    PushExcerpt(Upsert(s, e.path, e.contentHash), e)
  }

  function PromoteAll(r: Rules, s: Context, again: seq<AutoRead>): Context {
    if again == [] then s
    else
      var front, last := again[..|again| - 1], again[|again| - 1];
      var before, e := PromoteAll(r, s, front), FoundExcerpt(r, last);
      if Repeats(front, last.path) || e.None? then before else StoreAutomatic(before, e.value)
  }

  function FirstEight(again: seq<AutoRead>): (first: seq<AutoRead>)
    ensures first <= again
  {
    if |again| > MAX_AUTOMATIC_READS then again[..MAX_AUTOMATIC_READS] else again
  }

  /** The first eight files are read again, each once. */
  function Promote(r: Rules, s: Context, again: seq<AutoRead>): Context {
    if s.root == "" then s
    else PromoteAll(r, s, FirstEight(again))
  }

  /** Every one of the paths was read again. */
  predicate AllRefreshed(r: Rules, root: string, again: seq<AutoRead>) {
    && root != "" && 0 < |again| <= MAX_AUTOMATIC_READS
    && (forall i :: 0 <= i < |again| ==> FoundExcerpt(r, again[i]).Some?)
    && (forall i, j :: 0 <= i < j < |again| ==> again[i].path != again[j].path)
  }

  /** A change of the workspace: the effects of a command, and the changed files read again. */
  datatype Mutation = Mutation(effects: Option<Effects>, again: seq<AutoRead>)

  /** A tool result: the files it wrote and showed, the dirty paths of a git status, what was read
      around the diagnostics of a failure, the change it made, and what was read around the
      diagnostics of a failed verification. */
  datatype Observation = Observation(
    ok: bool, looks: bool, shell: bool, written: seq<(Path, Option<Hash>)>, dirty: seq<Path>, seen: seq<ReadFile>,
    failed: seq<AutoRead>, mutation: Option<Mutation>, unverified: seq<AutoRead>)

  function ReadTool(ok: bool, files: seq<ReadFile>): Observation {
    Observation(ok, true, false, [], [], files, [], None, [])
  }

  predicate AnyStale(s: Context) {
    exists i :: 0 <= i < |s.inspected| && s.inspected[i].stale
  }

  /** What the tool itself showed or wrote. */
  function Direct(r: Rules, s: Context, o: Observation): Context {
    ReadAll(r, RecordUserAll(r, if o.ok then WriteAll(r, s, o.written) else s, o.dirty), o.seen)
  }

  /** A change: its paths are recorded, what it affects becomes stale, its files are read again. */
  function Mutate(r: Rules, s: Context, m: Mutation): Context {
    Promote(
      r,
      if m.effects.Some? then Invalidate(r, RecordTouched(r, s, m.effects.value.touched), m.effects.value) else s,
      m.again)
  }

  function Changed(r: Rules, s: Context, o: Observation): Context {
    var direct := Direct(r, s, o);
    var diagnosed := if o.ok then direct else Promote(r, direct, o.failed);
    if o.mutation.Some? then Mutate(r, diagnosed, o.mutation.value) else diagnosed
  }

  /** A shell command of known effects whose files were all read again leaves nothing stale. */
  predicate Refreshes(r: Rules, s: Context, o: Observation) {
    && o.shell && o.mutation.Some? && o.mutation.value.effects.Some? && !o.mutation.value.effects.value.uncertain
    && AllRefreshed(r, s.root, o.mutation.value.again) && !AnyStale(Changed(r, s, o))
  }

  /** A successful look at the repository clears the drift flag when nothing is stale. */
  function Settled(s: Context, ok: bool): Context {
    if ok && !AnyStale(s) then s.(workspaceChanged := false) else s
  }

  function Observe(r: Rules, s: Context, o: Observation): Context {
    Settled(Promote(r, Changed(r, s, o), o.unverified), o.ok && (o.looks || Refreshes(r, s, o)))
  }

  // ----- Finishing -----

  predicate UserChangesPreserved(r: Rules, s: Context) {
    !(exists i, j :: 0 <= i < |s.userModified| && 0 <= j < |s.modified| && r.overlap(s.userModified[i], s.modified[j]))
  }

  /** The workflow's own completion gate is a parameter. */
  type Gate = (seq<Path>, bool) -> bool

  predicate Finishes(r: Rules, s: Context, gate: Gate) {
    !s.workspaceChanged && !AnyStale(s) && gate(s.modified, UserChangesPreserved(r, s))
  }

  // ----- Runs -----

  datatype Op =
    | Observed(observation: Observation)
    | Refreshed(workspace: Workspace)
    | UserChanged(paths: seq<Path>)
    | SetChanged(changed: bool)

  function Apply(r: Rules, s: Context, op: Op): Context {
    match op
    case Observed(o) => Observe(r, s, o)
    case Refreshed(w) => Refresh(r, s, w)
    case UserChanged(ps) => RecordUserAll(r, s, ps)
    case SetChanged(b) => s.(workspaceChanged := b)
  }

  function EmptyContext(root: string): Context {
    Context(root, false, [], [], [], [])
  }

  function Run(r: Rules, root: string, ops: seq<Op>): Context {
    if ops == [] then EmptyContext(root) else Apply(r, Run(r, root, ops[..|ops| - 1]), ops[|ops| - 1])
  }

  ghost predicate MissingIsStale(fs: seq<InspectedFile>) {
    forall i :: 0 <= i < |fs| && fs[i].lastState == Missing ==> fs[i].stale
  }

  ghost predicate DistinctPaths(fs: seq<InspectedFile>) {
    forall i, j :: 0 <= i < j < |fs| ==> fs[i].path != fs[j].path
  }

  ghost predicate Good(s: Context) {
    && |s.inspected| <= MAX_INSPECTED_FILES && |s.excerpts| <= MAX_FILE_EXCERPTS
    && MissingIsStale(s.inspected) && DistinctPaths(s.inspected)
  }

  // ----- What a refresh leaves -----

  /** The record of a present file whose hash is the live one. */
  predicate Fresh(r: Rules, w: Workspace, f: InspectedFile) {
    f.lastState == Present && f.contentHash.Some? && LiveHash(r, w, f.path) == f.contentHash
  }

  lemma {:induction false} RefreshedRecords(r: Rules, w: Workspace, fs: seq<InspectedFile>)
    requires MissingIsStale(fs)
    ensures MissingIsStale(RefreshAll(r, w, fs)) && |RefreshAll(r, w, fs)| <= |fs|
    ensures forall f :: f in RefreshAll(r, w, fs) && !f.stale ==> Fresh(r, w, f)
    ensures forall f :: f in RefreshAll(r, w, fs) ==>
      exists i :: 0 <= i < |fs| && fs[i].path == f.path && (fs[i].stale ==> f.stale)
  {
    if fs != [] {
      var n := |fs| - 1;
      RefreshedRecords(r, w, fs[..n]);
      assert fs[..n] + [fs[n]] == fs;
    }
  }

  /** What completion looks at: the evidence after a refresh, and the user's dirty paths. */
  function AtCompletion(r: Rules, s: Context, w: Workspace, dirty: seq<Path>): Context {
    RecordUserAll(r, Refresh(r, s, w), dirty)
  }

  /** A turn that finishes right after a refresh has only evidence of present files, each with
      the hash the file had at the refresh. */
  lemma CompletionMeansFresh(r: Rules, s: Context, w: Workspace, dirty: seq<Path>, gate: Gate)
    requires Good(s) && Finishes(r, AtCompletion(r, s, w, dirty), gate)
    ensures forall f :: f in AtCompletion(r, s, w, dirty).inspected ==> !f.stale && Fresh(r, w, f)
  {
    RefreshedRecords(r, w, s.inspected);
    RecordUserKeeps(r, Refresh(r, s, w), dirty);
  }

  // ----- Every run keeps the records in order -----

  lemma {:induction false} RefreshKeepsDistinct(r: Rules, w: Workspace, fs: seq<InspectedFile>)
    requires MissingIsStale(fs) && DistinctPaths(fs)
    ensures DistinctPaths(RefreshAll(r, w, fs))
  {
    if fs != [] {
      var n := |fs| - 1;
      RefreshKeepsDistinct(r, w, fs[..n]);
      RefreshedRecords(r, w, fs[..n]);
      var front := RefreshAll(r, w, fs[..n]);
      forall i | 0 <= i < |front| ensures front[i].path != fs[n].path {
        assert front[i] in front;
      }
    }
  }

  lemma UpsertIsGood(s: Context, p: Path, hash: Option<Hash>)
    requires Good(s)
    ensures Good(Upsert(s, p, hash))
  {
  }

  lemma {:induction false} ReadAllIsGood(r: Rules, s: Context, fs: seq<ReadFile>)
    requires Good(s)
    ensures Good(ReadAll(r, s, fs))
  {
    hide Upsert;
    hide ExcerptOf;
    if fs != [] {
      var before, f := ReadAll(r, s, fs[..|fs| - 1]), fs[|fs| - 1];
      ReadAllIsGood(r, s, fs[..|fs| - 1]);
      if r.Relative(f.path) {
        UpsertIsGood(before, r.portable(f.path).value, f.contentHash);
      }
    }
  }

  lemma {:induction false} WriteAllIsGood(r: Rules, s: Context, fs: seq<(Path, Option<Hash>)>)
    requires Good(s)
    ensures Good(WriteAll(r, s, fs))
  {
    hide Upsert;
    if fs != [] {
      var before, p := WriteAll(r, s, fs[..|fs| - 1]), fs[|fs| - 1].0;
      WriteAllIsGood(r, s, fs[..|fs| - 1]);
      if r.Relative(p) {
        UpsertIsGood(before, r.portable(p).value, fs[|fs| - 1].1);
      }
    }
  }

  lemma StoreIsGood(s: Context, e: Excerpt)
    requires Good(s)
    ensures Good(StoreAutomatic(s, e))
  {
    hide Upsert;
    UpsertIsGood(s, e.path, e.contentHash);
  }

  lemma {:induction false} PromoteAllIsGood(r: Rules, s: Context, again: seq<AutoRead>)
    requires Good(s)
    ensures Good(PromoteAll(r, s, again))
  {
    hide Good;
    hide StoreAutomatic;
    if again != [] {
      var front, last := again[..|again| - 1], again[|again| - 1];
      PromoteAllIsGood(r, s, front);
      if FoundExcerpt(r, last).Some? {
        StoreIsGood(PromoteAll(r, s, front), FoundExcerpt(r, last).value);
      }
    }
  }

  lemma PromoteIsGood(r: Rules, s: Context, again: seq<AutoRead>)
    requires Good(s)
    ensures Good(Promote(r, s, again))
  {
    hide Good;
    PromoteAllIsGood(r, s, FirstEight(again));
  }

  /** Recording whose changes some paths are touches neither files nor excerpts. */
  lemma {:induction false} RecordUserKeeps(r: Rules, s: Context, ps: seq<Path>)
    ensures var t := RecordUserAll(r, s, ps); t == s.(userModified := t.userModified)
  {
    if ps != [] {
      RecordUserKeeps(r, s, ps[..|ps| - 1]);
    }
  }

  lemma {:induction false} RecordTouchedKeeps(r: Rules, s: Context, ps: seq<Path>)
    ensures var t := RecordTouched(r, s, ps); t == s.(modified := t.modified)
  {
    if ps != [] {
      RecordTouchedKeeps(r, s, ps[..|ps| - 1]);
    }
  }

  lemma SameIsGood(s: Context, t: Context)
    requires Good(s) && s.inspected == t.inspected && s.excerpts == t.excerpts
    ensures Good(t)
  {
  }

  lemma InvalidateIsGood(r: Rules, s: Context, e: Effects)
    requires Good(s)
    ensures Good(Invalidate(r, s, e))
  {
  }

  lemma DirectIsGood(r: Rules, s: Context, o: Observation)
    requires Good(s)
    ensures Good(Direct(r, s, o))
  {
    hide WriteAll;
    hide ReadAll;
    var written := if o.ok then WriteAll(r, s, o.written) else s;
    WriteAllIsGood(r, s, o.written);
    RecordUserKeeps(r, written, o.dirty);
    ReadAllIsGood(r, RecordUserAll(r, written, o.dirty), o.seen);
  }

  lemma MutateIsGood(r: Rules, s: Context, m: Mutation)
    requires Good(s)
    ensures Good(Mutate(r, s, m))
  {
    hide Promote;
    hide Invalidate;
    if m.effects.Some? {
      RecordTouchedKeeps(r, s, m.effects.value.touched);
      InvalidateIsGood(r, RecordTouched(r, s, m.effects.value.touched), m.effects.value);
      PromoteIsGood(r, Invalidate(r, RecordTouched(r, s, m.effects.value.touched), m.effects.value), m.again);
    } else {
      PromoteIsGood(r, s, m.again);
    }
  }

  lemma ObserveIsGood(r: Rules, s: Context, o: Observation)
    requires Good(s)
    ensures Good(Observe(r, s, o))
  {
    hide Promote;
    hide Mutate;
    hide Direct;
    hide Refreshes;
    DirectIsGood(r, s, o);
    PromoteIsGood(r, Direct(r, s, o), o.failed);
    if o.mutation.Some? {
      MutateIsGood(r, if o.ok then Direct(r, s, o) else Promote(r, Direct(r, s, o), o.failed), o.mutation.value);
    }
    PromoteIsGood(r, Changed(r, s, o), o.unverified);
  }

  lemma ApplyIsGood(r: Rules, s: Context, op: Op)
    requires Good(s)
    ensures Good(Apply(r, s, op))
  {
    hide Observe;
    match op
    case Observed(o) =>
      ObserveIsGood(r, s, o);
    case Refreshed(w) =>
      RefreshedRecords(r, w, s.inspected);
      RefreshKeepsDistinct(r, w, s.inspected);
    case UserChanged(ps) =>
      RecordUserKeeps(r, s, ps);
    case SetChanged(b) =>
  }

  /** Over every run: at most 64 files and 16 excerpts, one record a path, and a file recorded as
      missing is stale. */
  lemma {:induction false} RunIsGood(r: Rules, root: string, ops: seq<Op>)
    ensures Good(Run(r, root, ops))
  {
    hide Apply;
    if ops != [] {
      RunIsGood(r, root, ops[..|ops| - 1]);
      ApplyIsGood(r, Run(r, root, ops[..|ops| - 1]), ops[|ops| - 1]);
    }
  }

  lemma {:induction false} ReadAllKeepsRoot(r: Rules, s: Context, fs: seq<ReadFile>)
    ensures ReadAll(r, s, fs).root == s.root && ReadAll(r, s, fs).workspaceChanged == s.workspaceChanged
  {
    if fs != [] {
      ReadAllKeepsRoot(r, s, fs[..|fs| - 1]);
    }
  }

  lemma {:induction false} WriteAllKeepsRoot(r: Rules, s: Context, fs: seq<(Path, Option<Hash>)>)
    ensures WriteAll(r, s, fs).root == s.root && WriteAll(r, s, fs).workspaceChanged == s.workspaceChanged
  {
    if fs != [] {
      WriteAllKeepsRoot(r, s, fs[..|fs| - 1]);
    }
  }

  lemma {:induction false} PromoteAllKeepsRoot(r: Rules, s: Context, again: seq<AutoRead>)
    ensures PromoteAll(r, s, again).root == s.root && PromoteAll(r, s, again).workspaceChanged == s.workspaceChanged
  {
    if again != [] {
      PromoteAllKeepsRoot(r, s, again[..|again| - 1]);
    }
  }

  lemma PromoteKeepsRoot(r: Rules, s: Context, again: seq<AutoRead>)
    ensures Promote(r, s, again).root == s.root && Promote(r, s, again).workspaceChanged == s.workspaceChanged
  {
    PromoteAllKeepsRoot(r, s, FirstEight(again));
  }

  lemma ObserveKeepsRoot(r: Rules, s: Context, o: Observation)
    ensures Observe(r, s, o).root == Changed(r, s, o).root == s.root
  {
    hide ReadAll;
    hide WriteAll;
    hide Promote;
    hide Refreshes;
    var written := if o.ok then WriteAll(r, s, o.written) else s;
    WriteAllKeepsRoot(r, s, o.written);
    RecordUserKeeps(r, written, o.dirty);
    ReadAllKeepsRoot(r, RecordUserAll(r, written, o.dirty), o.seen);
    PromoteKeepsRoot(r, Direct(r, s, o), o.failed);
    if o.mutation.Some? {
      var m := o.mutation.value;
      var t := if o.ok then Direct(r, s, o) else Promote(r, Direct(r, s, o), o.failed);
      if m.effects.Some? {
        RecordTouchedKeeps(r, t, m.effects.value.touched);
        PromoteKeepsRoot(r, Invalidate(r, RecordTouched(r, t, m.effects.value.touched), m.effects.value), m.again);
      } else {
        PromoteKeepsRoot(r, t, m.again);
      }
    }
    PromoteKeepsRoot(r, Changed(r, s, o), o.unverified);
  }
}
