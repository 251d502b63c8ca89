/** Git's index file. */
module GitIndex {
  // The parser, the packed storage of its paths, and the writer's format.
  // The writer follows the "Index entry" and "Extensions" sections of gitformat-index for
  // versions 2 and 3 with SHA-1 object names.

  import opened Text
  import opened Wrappers

  const MAX_INDEX_BYTES: nat := 64 * 1024 * 1024
  const MAX_INDEX_ENTRIES: nat := MAX_INDEX_BYTES / 62
  const HEADER_LEN: nat := 12
  const ENTRY_LEN: nat := 62
  const NAME_LEN_MASK: nat := 0xFFF

  const SIGNATURE: Bytes := [68, 73, 82, 67]   // DIRC
  const LINK: Bytes := [108, 105, 110, 107]
  const SDIR: Bytes := [115, 100, 105, 114]

  datatype Failure =
    | InvalidHeader | UnsupportedVersion | TooManyEntries | TruncatedEntry | SparseIndex | TruncatedPath
    | UnterminatedPath | InvalidPath | TruncatedExtension | IndirectIndex | InvalidExtension

  /** A panic of the program is an outcome of its own. */
  datatype Outcome<T> = Ok(value: T) | Fail(failure: Failure) | Panicked

  function U16(s: Bytes): (n: nat)
    requires |s| == 2
    ensures n < 0x1_0000
  {
    s[0] as int * 0x100 + s[1] as int
  }

  function U32(s: Bytes): (n: nat)
    requires |s| == 4
    ensures n < 0x1_0000_0000
  {
    s[0] as int * 0x100_0000 + s[1] as int * 0x1_0000 + s[2] as int * 0x100 + s[3] as int
  }

  function Be16(n: nat): (s: Bytes)
    requires n < 0x1_0000
    ensures |s| == 2
  {
    [n / 0x100, n % 0x100]
  }

  function Be32(n: nat): (s: Bytes)
    requires n < 0x1_0000_0000
    ensures |s| == 4
  {
    [n / 0x100 / 0x100 / 0x100, n / 0x100 / 0x100 % 0x100, n / 0x100 % 0x100, n % 0x100]
  }

  lemma Be16RoundTrip(n: nat)
    requires n < 0x1_0000
    ensures U16(Be16(n)) == n
  {
  }

  lemma Be32RoundTrip(n: nat)
    requires n < 0x1_0000_0000
    ensures U32(Be32(n)) == n
  {
    var a := n / 0x100;
    var b := a / 0x100;
    assert n == a * 0x100 + n % 0x100 && a == b * 0x100 + a % 0x100 && b == b / 0x100 * 0x100 + b % 0x100;
  }

  // ----- Reading: what the parser computes -----

  predicate IsDirectory(mode: nat) {
    mode / 0x1000 % 16 == 4
  }

  predicate IsExtended(flags: nat) {
    flags / 0x4000 % 2 == 1
  }

  function FirstZero(s: Bytes, from: nat): (k: Option<nat>)
    requires from <= |s|
    ensures k.Some? ==> from <= k.value < |s| && s[k.value] == 0 && forall j :: from <= j < k.value ==> s[j] != 0
    ensures k.None? ==> forall j :: from <= j < |s| ==> s[j] != 0
    decreases |s| - from
  {
    if from == |s| then None else if s[from] == 0 then Some(from) else FirstZero(s, from + 1)
  }

  function Padding(entryLength: nat): nat {
    (8 - entryLength % 8) % 8
  }

  /** The position of a path and of what follows its entry. */
  datatype Span = Span(start: nat, end: nat, next: nat)

  function PathEnd(s: Bytes, start: nat, declared: nat): (r: Outcome<nat>)
    ensures r.Ok? ==> start <= r.value < |s|
  {
    if declared < NAME_LEN_MASK then
      if start + declared < |s| then Ok(start + declared) else Fail(TruncatedPath)
    else if start > |s| then Panicked
    else
      var zero := FirstZero(s, start);
      if zero.Some? then Ok(zero.value) else Fail(UnterminatedPath)
  }

  function PathStart(s: Bytes, offset: nat): nat
    requires offset + ENTRY_LEN <= |s|
  {
    offset + ENTRY_LEN + if IsExtended(Flags(s, offset)) then 2 else 0
  }

  function Mode(s: Bytes, offset: nat): nat
    requires offset + ENTRY_LEN <= |s|
  {
    U32(s[offset + 24..offset + 28])
  }

  function Flags(s: Bytes, offset: nat): nat
    requires offset + ENTRY_LEN <= |s|
  {
    U16(s[offset + 60..offset + 62])
  }

  function ParseEntry(s: Bytes, offset: nat): (r: Outcome<Span>)
    ensures r.Ok? ==> offset + ENTRY_LEN <= r.value.start <= r.value.end < |s| && r.value.end < r.value.next
  {
    if offset + ENTRY_LEN > |s| then Fail(TruncatedEntry)
    else if IsDirectory(Mode(s, offset)) then Fail(SparseIndex)
    else
      var start := PathStart(s, offset);
      var end := PathEnd(s, start, Flags(s, offset) % 0x1000);
      if end.Fail? then Fail(end.failure)
      else if end.Panicked? then Panicked
      else if s[end.value] != 0 then Fail(InvalidPath)
      else Ok(Span(start, end.value, end.value + 1 + Padding(end.value + 1 - offset)))
  }

  /** The paths of a number of entries and the offset after them. */
  datatype Entries = Entries(names: seq<Bytes>, next: nat)

  function ParseEntries(s: Bytes, offset: nat, count: nat): Outcome<Entries>
    decreases count
  {
    if count == 0 then Ok(Entries([], offset))
    else
      var e := ParseEntry(s, offset);
      if e.Fail? then Fail(e.failure)
      else if e.Panicked? then Panicked
      else Prepend([s[e.value.start..e.value.end]], ParseEntries(s, e.value.next, count - 1))
  }

  function Prepend(names: seq<Bytes>, r: Outcome<Entries>): Outcome<Entries> {
    if r.Ok? then Ok(r.value.(names := names + r.value.names)) else r
  }

  function ParseExtensions(s: Bytes, offset: nat): (r: Outcome<()>)
    decreases |s| - offset
  {
    if offset + 32 >= |s| then Ok(())
    else if s[offset..offset + 4] == LINK || s[offset..offset + 4] == SDIR then Fail(IndirectIndex)
    else
      var next := offset + 8 + U32(s[offset + 4..offset + 8]);
      if next <= |s| then ParseExtensions(s, next) else Fail(InvalidExtension)
  }

  function Parse(s: Bytes): Outcome<seq<Bytes>> {
    if |s| < HEADER_LEN || s[..4] != SIGNATURE then Fail(InvalidHeader)
    else if U32(s[4..8]) != 2 && U32(s[4..8]) != 3 then Fail(UnsupportedVersion)
    else if U32(s[8..12]) > MAX_INDEX_ENTRIES then Fail(TooManyEntries)
    else
      var entries := ParseEntries(s, HEADER_LEN, U32(s[8..12]));
      if entries.Fail? then Fail(entries.failure)
      else if entries.Panicked? then Panicked
      else
        var extensions := ParseExtensions(s, entries.value.next);
        if extensions.Ok? then Ok(entries.value.names)
        else if extensions.Fail? then Fail(extensions.failure) else Panicked
  }

  // ----- Writing: the format -----

  datatype IndexEntry = IndexEntry(
    stat: Bytes,               // times, device, inode, mode, owner, size and object name
    assumeValid: bool,
    stage: nat,
    extended: Option<Bytes>,   // the second flag word of version 3
    name: Bytes)

  predicate ValidEntry(e: IndexEntry) {
    && |e.stat| == 60 && !IsDirectory(U32(e.stat[24..28]))
    && e.stage < 4
    && (e.extended.Some? ==> |e.extended.value| == 2)
    && 0 !in e.name
  }

  function EntryFlags(e: IndexEntry): (n: nat)
    requires e.stage < 4
    ensures n < 0x1_0000
  {
    (if e.assumeValid then 0x8000 else 0) + (if e.extended.Some? then 0x4000 else 0)
    + e.stage * 0x1000 + (if |e.name| < NAME_LEN_MASK then |e.name| else NAME_LEN_MASK)
  }

  function Zeros(n: nat): Bytes {
    seq(n, _ => 0)
  }

  function ExtendedBytes(e: IndexEntry): Bytes {
    if e.extended.Some? then e.extended.value else []
  }

  function EntryHead(e: IndexEntry): (s: Bytes)
    requires ValidEntry(e)
    ensures |s| == if e.extended.Some? then 64 else 62
  {
    e.stat + Be16(EntryFlags(e)) + ExtendedBytes(e)
  }

  /** An entry ends with one to eight NUL bytes, which make its length a multiple of eight. */
  function EncodeEntry(e: IndexEntry): (s: Bytes)
    requires ValidEntry(e)
    ensures |s| % 8 == 0 && |s| >= ENTRY_LEN + 2
  {
    var body := EntryHead(e) + e.name;
    body + Zeros(8 - |body| % 8)
  }

  predicate ValidEntries(es: seq<IndexEntry>) {
    forall i :: 0 <= i < |es| ==> ValidEntry(es[i])
  }

  function EncodeEntries(es: seq<IndexEntry>): (s: Bytes)
    requires ValidEntries(es)
    ensures |s| >= |es| * ENTRY_LEN
  {
    if es == [] then [] else EncodeEntry(es[0]) + EncodeEntries(es[1..])
  }

  function Names(es: seq<IndexEntry>): (names: seq<Bytes>)
    ensures |names| == |es| && forall i :: 0 <= i < |es| ==> names[i] == es[i].name
  {
    seq(|es|, i requires 0 <= i < |es| => es[i].name)
  }

  datatype Extension = Extension(signature: Bytes, data: Bytes)

  predicate ValidExtension(x: Extension) {
    |x.signature| == 4 && |x.data| < 0x1_0000_0000
  }

  predicate Forbidden(x: Extension) {
    x.signature == LINK || x.signature == SDIR
  }

  predicate ValidExtensions(xs: seq<Extension>) {
    forall i :: 0 <= i < |xs| ==> ValidExtension(xs[i])
  }

  function EncodeExtension(x: Extension): Bytes
    requires ValidExtension(x)
  {
    x.signature + Be32(|x.data|) + x.data
  }

  function EncodeExtensions(xs: seq<Extension>): Bytes
    requires ValidExtensions(xs)
  {
    if xs == [] then [] else EncodeExtension(xs[0]) + EncodeExtensions(xs[1..])
  }

  datatype IndexFile = IndexFile(version: nat, entries: seq<IndexEntry>, extensions: seq<Extension>, checksum: Bytes)

  predicate ValidFile(f: IndexFile) {
    && (f.version == 2 || f.version == 3)
    && ValidEntries(f.entries) && |f.entries| < 0x1_0000_0000
    && ValidExtensions(f.extensions) && |f.checksum| == 20
  }

  function EncodeFile(f: IndexFile): Bytes
    requires ValidFile(f)
  {
    SIGNATURE + Be32(f.version) + Be32(|f.entries|)
    + EncodeEntries(f.entries) + EncodeExtensions(f.extensions) + f.checksum
  }

  // ----- Round trip -----

  lemma EntryFlagsDecode(e: IndexEntry)
    requires ValidEntry(e)
    ensures IsExtended(EntryFlags(e)) == e.extended.Some?
    ensures EntryFlags(e) % 0x1000 == if |e.name| < NAME_LEN_MASK then |e.name| else NAME_LEN_MASK
  {
  }

  lemma PaddingFills(length: nat)
    ensures length + 1 + Padding(length + 1) == length + (8 - length % 8)
  {
  }

  lemma EntryHeadFields(s: Bytes, o: nat, e: IndexEntry)
    requires ValidEntry(e) && o + |EntryHead(e)| <= |s| && s[o..o + |EntryHead(e)|] == EntryHead(e)
    ensures Mode(s, o) == U32(e.stat[24..28]) && Flags(s, o) == EntryFlags(e)
  {
    hide EntryFlags;
    hide IsDirectory;
    var head := EntryHead(e);
    SubSlice(s, o, |head|, 24, 28);
    SubSlice(s, o, |head|, 60, 62);
    assert head[24..28] == e.stat[24..28];
    assert head[60..62] == Be16(EntryFlags(e));
    Be16RoundTrip(EntryFlags(e));
  }

  /** A head, a name and a NUL byte in a row are read as one entry. */
  lemma HeadAndNameParse(s: Bytes, o: nat, e: IndexEntry)
    requires ValidEntry(e)
    requires var start := o + |EntryHead(e)|; var end := start + |e.name|;
      end < |s| && s[o..start] == EntryHead(e) && s[start..end] == e.name && s[end] == 0
    ensures var end := o + |EntryHead(e)| + |e.name|;
      ParseEntry(s, o) == Ok(Span(o + |EntryHead(e)|, end, end + 1 + Padding(end + 1 - o)))
  {
    var start := o + |EntryHead(e)|;
    var end := start + |e.name|;
    EntryHeadFields(s, o, e);
    EntryFlagsDecode(e);
    if |e.name| >= NAME_LEN_MASK {
      FirstZeroIs(s, start, end);
    }
    assert o + ENTRY_LEN <= |s| && !IsDirectory(Mode(s, o));
    assert PathStart(s, o) == start;
    assert PathEnd(s, start, Flags(s, o) % 0x1000) == Ok(end);
  }

  lemma FirstZeroIs(s: Bytes, from: nat, k: nat)
    requires from <= k < |s| && s[k] == 0 && 0 !in s[from..k]
    ensures FirstZero(s, from) == Some(k)
  {
    forall j | from <= j < k ensures s[j] != 0 {
      assert s[j] == s[from..k][j - from];
    }
  }

  /** In any surroundings, an encoded entry is read back as its name, and the next offset is
      right after it. */
  lemma EntryRoundTrip(before: Bytes, e: IndexEntry, after: Bytes)
    requires ValidEntry(e)
    ensures var s, o := before + EncodeEntry(e) + after, |before|; var start := o + |EntryHead(e)|;
      ParseEntry(s, o) == Ok(Span(start, start + |e.name|, o + |EncodeEntry(e)|))
      && s[start..start + |e.name|] == e.name
  {
    hide EntryHead;
    hide ParseEntry;
    hide IsDirectory;
    var s, o := before + EncodeEntry(e) + after, |before|;
    var start := o + |EntryHead(e)|;
    var end := start + |e.name|;
    assert s[o..start] == EntryHead(e);
    assert s[start..end] == e.name;
    assert s[end] == 0;
    PaddingFills(end - o);
    HeadAndNameParse(s, o, e);
  }

  lemma Regroup(a: Bytes, b: Bytes, c: Bytes, d: Bytes)
    ensures a + (b + c) + d == a + b + (c + d) == a + b + c + d
  {
  }

  lemma {:induction false} EntriesRoundTrip(before: Bytes, es: seq<IndexEntry>, after: Bytes)
    requires ValidEntries(es)
    ensures var s := before + EncodeEntries(es) + after;
      ParseEntries(s, |before|, |es|) == Ok(Entries(Names(es), |before| + |EncodeEntries(es)|))
    decreases |es|
  {
    hide ParseEntry;
    hide EncodeEntry;
    hide EntryHead;
    hide ValidEntry;
    if es == [] {
    } else {
      var e, rest := es[0], es[1..];
      EntryRoundTrip(before, e, EncodeEntries(rest) + after);
      EntriesRoundTrip(before + EncodeEntry(e), rest, after);
      Regroup(before, EncodeEntry(e), EncodeEntries(rest), after);
      assert [e.name] + Names(rest) == Names(es);
    }
  }

  /** A forbidden extension that the parser gets to see: more than 32 bytes are left of the file
      where it starts. */
  ghost predicate SeesForbidden(xs: seq<Extension>, trailer: Bytes)
    requires ValidExtensions(xs)
  {
    exists i :: 0 <= i < |xs| && Forbidden(xs[i]) && |EncodeExtensions(xs[i..])| + |trailer| > 32
  }

  lemma ExtensionHeader(before: Bytes, x: Extension, after: Bytes)
    requires ValidExtension(x)
    ensures var s, o := before + EncodeExtension(x) + after, |before|;
      s[o..o + 4] == x.signature && U32(s[o + 4..o + 8]) == |x.data|
  {
    var s, o := before + EncodeExtension(x) + after, |before|;
    assert s[o..o + 4] == x.signature;
    assert s[o + 4..o + 8] == Be32(|x.data|);
    Be32RoundTrip(|x.data|);
  }

  lemma NoExtension(s: Bytes, o: nat)
    requires o + 32 >= |s|
    ensures ParseExtensions(s, o) == Ok(())
  {
  }

  lemma OneExtension(before: Bytes, x: Extension, after: Bytes)
    requires ValidExtension(x)
    requires |before + EncodeExtension(x) + after| > |before| + 32
    ensures var s, o := before + EncodeExtension(x) + after, |before|;
      ParseExtensions(s, o) ==
        if Forbidden(x) then Fail(IndirectIndex) else ParseExtensions(s, |before + EncodeExtension(x)|)
  {
    hide U32;
    ExtensionHeader(before, x, after);
  }

  lemma {:induction false} ExtensionsIff(before: Bytes, xs: seq<Extension>, trailer: Bytes)
    requires ValidExtensions(xs) && |trailer| == 20
    ensures ParseExtensions(before + EncodeExtensions(xs) + trailer, |before|) ==
      if SeesForbidden(xs, trailer) then Fail(IndirectIndex) else Ok(())
    decreases |xs|
  {
    hide EncodeExtension;
    hide ParseExtensions;
    var s := before + EncodeExtensions(xs) + trailer;
    if |before| + 32 >= |s| {
      NoExtension(s, |before|);
      forall i | 0 <= i < |xs| ensures |EncodeExtensions(xs[i..])| <= |EncodeExtensions(xs)| {
        SuffixIsShorter(xs, i);
      }
    } else {
      var x, rest := xs[0], xs[1..];
      var encoded := EncodeExtension(x);
      Regroup(before, encoded, EncodeExtensions(rest), trailer);
      OneExtension(before, x, EncodeExtensions(rest) + trailer);
      assert xs[0..] == xs;
      ExtensionsIff(before + encoded, rest, trailer);
      if !Forbidden(x) {
        SeesForbiddenLater(xs, trailer);
      }
    }
  }

  lemma SeesForbiddenLater(xs: seq<Extension>, trailer: Bytes)
    requires ValidExtensions(xs) && xs != [] && !Forbidden(xs[0])
    ensures SeesForbidden(xs, trailer) == SeesForbidden(xs[1..], trailer)
  {
    var rest := xs[1..];
    if SeesForbidden(rest, trailer) {
      var i :| 0 <= i < |rest| && Forbidden(rest[i]) && |EncodeExtensions(rest[i..])| + |trailer| > 32;
      assert rest[i] == xs[i + 1] && rest[i..] == xs[i + 1..];
    }
    if SeesForbidden(xs, trailer) {
      var i :| 0 <= i < |xs| && Forbidden(xs[i]) && |EncodeExtensions(xs[i..])| + |trailer| > 32;
      assert rest[i - 1] == xs[i] && rest[i - 1..] == xs[i..];
    }
  }

  lemma {:induction false} SuffixIsShorter(xs: seq<Extension>, i: nat)
    requires ValidExtensions(xs) && i <= |xs|
    ensures |EncodeExtensions(xs[i..])| <= |EncodeExtensions(xs)|
    decreases i
  {
    if i > 0 {
      assert xs[i..] == xs[1..][i - 1..];
      SuffixIsShorter(xs[1..], i - 1);
    } else {
      assert xs[0..] == xs;
    }
  }

  /** Reading back what the format describes, for every list of entries and every list of
      extensions: the names in order, unless a forbidden extension is seen. */
  lemma FileRoundTripIff(f: IndexFile)
    requires ValidFile(f) && |EncodeFile(f)| <= MAX_INDEX_BYTES
    ensures Parse(EncodeFile(f)) ==
      if SeesForbidden(f.extensions, f.checksum) then Fail(IndirectIndex) else Ok(Names(f.entries))
  {
    hide ParseEntries;
    hide ParseExtensions;
    hide EncodeEntries;
    hide EncodeExtensions;
    hide ValidEntries;
    hide ValidExtensions;
    hide SeesForbidden;
    hide Be32;
    hide U32;
    var s := EncodeFile(f);
    var header := SIGNATURE + Be32(f.version) + Be32(|f.entries|);
    var tail := EncodeExtensions(f.extensions) + f.checksum;
    var body := header + EncodeEntries(f.entries);
    assert s[..4] == SIGNATURE;
    assert s[4..8] == Be32(f.version) && s[8..12] == Be32(|f.entries|);
    Be32RoundTrip(f.version);
    Be32RoundTrip(|f.entries|);
    assert s == body + tail == body + EncodeExtensions(f.extensions) + f.checksum;
    EntriesRoundTrip(header, f.entries, tail);
    ExtensionsIff(body, f.extensions, f.checksum);
  }

  /** In particular without `link` and `sdir` extensions every file is read back. */
  lemma FileRoundTrip(f: IndexFile)
    requires ValidFile(f) && |EncodeFile(f)| <= MAX_INDEX_BYTES
    requires forall x :: x in f.extensions ==> !Forbidden(x)
    ensures Parse(EncodeFile(f)) == Ok(Names(f.entries))
  {
    FileRoundTripIff(f);
  }

  /** The one forbidden extension that goes unseen is a last one with at most four bytes of
      data, such as the empty `sdir`. */
  lemma ForbiddenIsSeenIff(xs: seq<Extension>, checksum: Bytes)
    requires ValidExtensions(xs) && |checksum| == 20
    ensures SeesForbidden(xs, checksum) <==>
      exists i :: 0 <= i < |xs| && Forbidden(xs[i]) && (i < |xs| - 1 || |xs[i].data| > 4)
  {
    forall i | 0 <= i < |xs|
      ensures |EncodeExtensions(xs[i..])| + |checksum| > 32 <==> i < |xs| - 1 || |xs[i].data| > 4
    {
      var rest := xs[i..];
      assert rest[0] == xs[i];
      if i < |xs| - 1 {
        assert rest[1..] != [] && rest[1..][0] == xs[i + 1];
        assert |EncodeExtensions(rest[1..])| >= 8;
      } else {
        assert rest[1..] == [];
      }
    }
  }

  /** The format forbids reading an index with this extension, but as an empty last one it goes
      unseen; with five bytes of data it would be refused. */
  lemma EmptySdirGoesUnseen(checksum: Bytes)
    requires |checksum| == 20
    ensures Parse(EncodeFile(IndexFile(2, [], [Extension(SDIR, [])], checksum))) == Ok([])
    ensures Parse(EncodeFile(IndexFile(2, [], [Extension(SDIR, Zeros(5))], checksum))) == Fail(IndirectIndex)
  {
    hide Parse;
    var empty, five := [Extension(SDIR, [])], [Extension(SDIR, Zeros(5))];
    var f, g := IndexFile(2, [], empty, checksum), IndexFile(2, [], five, checksum);
    EncodedSize(f);
    EncodedSize(g);
    FileRoundTripIff(f);
    FileRoundTripIff(g);
    ForbiddenIsSeenIff(empty, checksum);
    ForbiddenIsSeenIff(five, checksum);
    assert Forbidden(five[0]) && |five[0].data| > 4;
  }

  lemma EncodedSize(f: IndexFile)
    requires ValidFile(f) && f.entries == [] && |f.extensions| == 1
    ensures |EncodeFile(f)| == 40 + |f.extensions[0].data|
  {
    var x := f.extensions[0];
    assert f.extensions[1..] == [] && EncodeExtensions(f.extensions[1..]) == [];
    assert EncodeExtensions(f.extensions) == EncodeExtension(x) + EncodeExtensions(f.extensions[1..]);
    assert |EncodeExtension(x)| == 8 + |x.data|;
    assert EncodeEntries(f.entries) == [];
  }

  // ----- Where the parser fails -----

  /** The entry at this offset is extended, has the long-name mark, and ends the file before its
      second flag word does. */
  predicate CutExtendedEntry(s: Bytes, offset: nat) {
    && offset + ENTRY_LEN <= |s| < offset + ENTRY_LEN + 2
    && !IsDirectory(Mode(s, offset))
    && IsExtended(Flags(s, offset)) && Flags(s, offset) % 0x1000 == NAME_LEN_MASK
  }

  /** The first k entries are read, and the next one is cut. */
  predicate Reaches(s: Bytes, offset: nat, k: nat) {
    var entries := ParseEntries(s, offset, k);
    entries.Ok? && CutExtendedEntry(s, entries.value.next)
  }

  /** Reading a number of entries panics exactly when the entries before some entry are read
      and that entry is cut in its second flag word. */
  lemma {:induction false} EntriesPanicIff(s: Bytes, offset: nat, count: nat)
    ensures ParseEntries(s, offset, count).Panicked? <==>
      exists k: nat :: k < count && Reaches(s, offset, k)
    decreases count
  {
    hide ParseEntry;
    hide CutExtendedEntry;
    if count > 0 {
      EntryPanicsIff(s, offset);
      assert ParseEntries(s, offset, 0) == Ok(Entries([], offset));
      assert Reaches(s, offset, 0) == CutExtendedEntry(s, offset);
      var e := ParseEntry(s, offset);
      if e.Ok? {
        EntriesPanicIff(s, e.value.next, count - 1);
        forall k: nat ensures Reaches(s, offset, k + 1) == Reaches(s, e.value.next, k) {
          ReachesLater(s, offset, k);
        }
        if k: nat :| k < count && Reaches(s, offset, k) {
          if k > 0 {
            ReachesLater(s, offset, k - 1);
          }
        }
      } else {
        forall k: nat | k > 0 ensures !Reaches(s, offset, k) {
          assert !ParseEntries(s, offset, k).Ok?;
        }
      }
    }
  }

  lemma ReachesLater(s: Bytes, offset: nat, k: nat)
    requires ParseEntry(s, offset).Ok?
    ensures Reaches(s, offset, k + 1) == Reaches(s, ParseEntry(s, offset).value.next, k)
  {
    hide ParseEntry;
    hide CutExtendedEntry;
    var e := ParseEntry(s, offset).value;
    assert ParseEntries(s, offset, k + 1) == Prepend([s[e.start..e.end]], ParseEntries(s, e.next, k));
  }

  lemma EntryPanicsIff(s: Bytes, offset: nat)
    ensures ParseEntry(s, offset).Panicked? <==> CutExtendedEntry(s, offset)
  {
  }

  lemma {:induction false} ExtensionsNeverPanic(s: Bytes, offset: nat)
    ensures !ParseExtensions(s, offset).Panicked?
    decreases |s| - offset
  {
    if offset + 32 < |s| && offset + 8 + U32(s[offset + 4..offset + 8]) <= |s| {
      ExtensionsNeverPanic(s, offset + 8 + U32(s[offset + 4..offset + 8]));
    }
  }

  /** The parser panics on a file exactly when it gets to a cut extended entry. */
  lemma ParsePanicsIff(s: Bytes)
    ensures Parse(s).Panicked? <==>
      |s| >= HEADER_LEN && s[..4] == SIGNATURE && U32(s[4..8]) in {2, 3} && U32(s[8..12]) <= MAX_INDEX_ENTRIES
      && (exists k: nat :: k < U32(s[8..12]) && Reaches(s, HEADER_LEN, k))
  {
    if |s| >= HEADER_LEN {
      EntriesPanicIff(s, HEADER_LEN, U32(s[8..12]));
      var entries := ParseEntries(s, HEADER_LEN, U32(s[8..12]));
      if entries.Ok? {
        ExtensionsNeverPanic(s, entries.value.next);
      }
    }
  }

  /** A 74-byte file that makes the parser panic: one entry with the flags 0x4FFF. */
  lemma CutFilePanics()
    ensures Parse(SIGNATURE + Be32(3) + Be32(1) + Zeros(60) + [0x4F, 0xFF]).Panicked?
  {
    var s := SIGNATURE + Be32(3) + Be32(1) + Zeros(60) + [0x4F, 0xFF];
    assert s[..4] == SIGNATURE;
    assert s[4..8] == Be32(3) && s[8..12] == Be32(1);
    assert s[36..40] == [0, 0, 0, 0] && s[72..74] == [0x4F, 0xFF];
    assert CutExtendedEntry(s, HEADER_LEN);
  }

  // ----- Packed paths -----

  const U32_MAX: nat := 0xFFFF_FFFF

  /** Saturating conversion of a length. */
  function ToU32(n: nat): (r: nat)
    ensures r <= U32_MAX && (n <= U32_MAX ==> r == n)
  {
    if n <= U32_MAX then n else U32_MAX
  }

  /** All paths in one slab, with the range of each. */
  class PackedPaths {
    var bytes: Bytes
    var ranges: seq<(nat, nat)>
    ghost var contents: seq<Bytes>

    /** Every range picks its path out of the slab. */
    ghost predicate Valid() reads this {
      && |ranges| == |contents| && |bytes| <= U32_MAX
      && (forall i :: 0 <= i < |ranges| ==> ranges[i].0 <= ranges[i].1 <= |bytes|)
      && (forall i :: 0 <= i < |ranges| ==> bytes[ranges[i].0..ranges[i].1] == contents[i])
    }

    constructor ()
      ensures Valid() && contents == [] && bytes == []
    {
      bytes, ranges, contents := [], [], [];
    }

    /** Offsets never saturate while the slab stays below four gigabytes. */
    method PushStr(path: Bytes)
      requires Valid() && |bytes| + |path| <= U32_MAX
      modifies this
      ensures Valid() && contents == old(contents) + [path] && |bytes| == old(|bytes|) + |path|
    {
      var start := ToU32(|bytes|);
      bytes := bytes + path;
      var end := ToU32(|bytes|);
      ranges := ranges + [(start, end)];
      contents := contents + [path];
      assert bytes[start..end] == path;
      forall i | 0 <= i < |ranges| - 1 ensures bytes[ranges[i].0..ranges[i].1] == contents[i] {
        assert bytes[ranges[i].0..ranges[i].1] == old(bytes)[ranges[i].0..ranges[i].1];
      }
    }

    method Iter() returns (paths: seq<Bytes>)
      requires Valid()
      ensures paths == contents
    {
      paths := [];
      for i := 0 to |ranges|
        invariant paths == contents[..i]
      {
        paths := paths + [bytes[ranges[i].0..ranges[i].1]];
      }
    }
  }

  /** The lossy conversion of a path to UTF-8: at most three bytes for every byte it reads, and
      what is UTF-8 already stays as it is. */
  ghost predicate IsLossy(lossy: Bytes -> Bytes) {
    forall p :: |lossy(p)| <= 3 * |p| && Utf8(lossy(p)) && (Utf8(p) ==> lossy(p) == p)
  }

  function Mapped(lossy: Bytes -> Bytes, names: seq<Bytes>): (r: seq<Bytes>)
    ensures |r| == |names| && forall i :: 0 <= i < |names| ==> r[i] == lossy(names[i])
  {
    seq(|names|, i requires 0 <= i < |names| => lossy(names[i]))
  }

  lemma LossyIsShort(lossy: Bytes -> Bytes, p: Bytes)
    requires IsLossy(lossy)
    ensures |lossy(p)| <= 3 * |p|
  {
  }

  /** Of a file that is read back, the packed paths are the names byte for byte exactly when all
      names are UTF-8. */
  lemma NamesComeBackIff(f: IndexFile, lossy: Bytes -> Bytes)
    requires IsLossy(lossy) && ValidFile(f) && |EncodeFile(f)| <= MAX_INDEX_BYTES
    requires !SeesForbidden(f.extensions, f.checksum)
    ensures Parse(EncodeFile(f)).Ok?
    ensures Mapped(lossy, Parse(EncodeFile(f)).value) == Names(f.entries)
      <==> forall i :: 0 <= i < |f.entries| ==> Utf8(f.entries[i].name)
  {
    hide Utf8;
    hide EncodeFile;
    hide Parse;
    FileRoundTripIff(f);
    var names := Names(f.entries);
    forall i | 0 <= i < |names| ensures Mapped(lossy, names)[i] == names[i] <==> Utf8(f.entries[i].name) {
      assert Utf8(lossy(names[i]));
    }
  }

  // ----- The parser's loops -----

  /** Where the path of an entry ends, from its declared length or the next NUL byte. */
  method FindPathEnd(s: Bytes, start: nat, declared: nat) returns (r: Outcome<nat>)
    ensures r == PathEnd(s, start, declared)
  {
    if declared < NAME_LEN_MASK {
      var end := start + declared;
      if end >= |s| {
        return Fail(TruncatedPath);
      }
      return Ok(end);
    }
    if start > |s| {
      return Panicked;
    }
    var zero := FirstZero(s, start);
    if zero.None? {
      return Fail(UnterminatedPath);
    }
    return Ok(zero.value);
  }

  /** Reads one entry and pushes its path. */
  method ReadEntry(s: Bytes, lossy: Bytes -> Bytes, paths: PackedPaths, offset: nat) returns (r: Outcome<nat>)
    requires |s| <= MAX_INDEX_BYTES && IsLossy(lossy)
    requires paths.Valid() && |paths.bytes| <= 3 * offset
    modifies paths
    ensures paths.Valid()
    ensures var e := ParseEntry(s, offset);
      && (e.Ok? ==> r == Ok(e.value.next) && |paths.bytes| <= 3 * e.value.next)
      && (e.Ok? ==> paths.contents == old(paths.contents) + [lossy(s[e.value.start..e.value.end])])
      && (e.Fail? ==> r == Fail(e.failure))
      && (e.Panicked? ==> r == Panicked)
  {
    hide U16;
    hide U32;
    hide IsDirectory;
    hide IsLossy;
    hide Padding;
    hide PathEnd;
    if offset + ENTRY_LEN > |s| {
      return Fail(TruncatedEntry);
    }
    var fixed := s[offset..offset + ENTRY_LEN];
    SubSlice(s, offset, ENTRY_LEN, 24, 28);
    SubSlice(s, offset, ENTRY_LEN, 60, 62);
    if IsDirectory(U32(fixed[24..28])) {
      return Fail(SparseIndex);
    }
    var flags := U16(fixed[60..62]);
    var start := offset + ENTRY_LEN;
    if IsExtended(flags) {
      start := start + 2;
    }
    var end := FindPathEnd(s, start, flags % 0x1000);
    if end.Fail? {
      return Fail(end.failure);
    }
    if end.Panicked? {
      return Panicked;
    }
    if s[end.value] != 0 {
      return Fail(InvalidPath);
    }
    LossyIsShort(lossy, s[start..end.value]);
    paths.PushStr(lossy(s[start..end.value]));
    var next := end.value + 1;
    next := next + Padding(next - offset);
    r := Ok(next);
  }

  method ReadExtensions(s: Bytes, start: nat) returns (r: Outcome<()>)
    ensures r == ParseExtensions(s, start)
    ensures r != Fail(TruncatedExtension)
  {
    var offset := start;
    while |s| > offset + 32
      invariant ParseExtensions(s, start) == ParseExtensions(s, offset)
      decreases |s| - offset
    {
      if offset + 8 > |s| {
        return Fail(TruncatedExtension);
      }
      var header := s[offset..offset + 8];
      assert header[..4] == s[offset..offset + 4] && header[4..8] == s[offset + 4..offset + 8];
      var size := U32(header[4..8]);
      if header[..4] == LINK || header[..4] == SDIR {
        return Fail(IndirectIndex);
      }
      offset := offset + 8 + size;
      if offset > |s| {
        return Fail(InvalidExtension);
      }
    }
    return Ok(());
  }

  /** Parses an index of at most 64 MiB; offsets into the slab never saturate. */
  method ParseGitIndex(s: Bytes, lossy: Bytes -> Bytes) returns (r: Outcome<PackedPaths>)
    requires |s| <= MAX_INDEX_BYTES && IsLossy(lossy)
    ensures r.Ok? <==> Parse(s).Ok?
    ensures r.Ok? ==> fresh(r.value) && r.value.Valid() && r.value.contents == Mapped(lossy, Parse(s).value)
    ensures r.Fail? ==> Parse(s) == Fail(r.failure)
    ensures r.Panicked? ==> Parse(s) == Panicked
  {
    if |s| < HEADER_LEN || s[..4] != SIGNATURE {
      return Fail(InvalidHeader);
    }
    var version := U32(s[4..8]);
    if version != 2 && version != 3 {
      return Fail(UnsupportedVersion);
    }
    var count := U32(s[8..12]);
    if count > MAX_INDEX_ENTRIES {
      return Fail(TooManyEntries);
    }
    var paths := new PackedPaths();
    var offset := HEADER_LEN;
    ghost var names: seq<Bytes> := [];
    PrependNothing(ParseEntries(s, HEADER_LEN, count));
    for i := 0 to count
      invariant fresh(paths) && paths.Valid() && |paths.bytes| <= 3 * offset
      invariant paths.contents == Mapped(lossy, names)
      invariant ParseEntries(s, HEADER_LEN, count) == Prepend(names, ParseEntries(s, offset, count - i))
    {
      ghost var e := ParseEntry(s, offset);
      var next := ReadEntry(s, lossy, paths, offset);
      if next.Fail? {
        return Fail(next.failure);
      }
      if next.Panicked? {
        return Panicked;
      }
      ghost var name := s[e.value.start..e.value.end];
      PrependTwice(names, name, ParseEntries(s, next.value, count - i - 1));
      names := names + [name];
      offset := next.value;
    }
    assert ParseEntries(s, HEADER_LEN, count) == Ok(Entries(names + [], offset));
    assert names + [] == names;
    var extensions := ReadExtensions(s, offset);
    if extensions.Fail? {
      return Fail(extensions.failure);
    }
    if extensions.Panicked? {
      return Panicked;
    }
    return Ok(paths);
  }

  lemma PrependNothing(r: Outcome<Entries>)
    ensures Prepend([], r) == r
  {
    if r.Ok? {
      assert [] + r.value.names == r.value.names;
    }
  }

  lemma PrependTwice(names: seq<Bytes>, name: Bytes, r: Outcome<Entries>)
    ensures Prepend(names, Prepend([name], r)) == Prepend(names + [name], r)
  {
    if r.Ok? {
      assert names + ([name] + r.value.names) == names + [name] + r.value.names;
    }
  }
}
