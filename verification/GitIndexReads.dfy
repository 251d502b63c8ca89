/** Which index files are read, and as what. */
module GitIndexReads {
  // The entries and extensions of an index described by its bytes alone.

  import opened GitIndex
  import opened Wrappers

  // ----- The two words of an entry, by their bits -----

  lemma ModeBits(a: Byte, b: Byte, c: Byte, d: Byte)
    ensures IsDirectory(U32([a, b, c, d])) <==> c / 16 == 4
  {
    var n := U32([a, b, c, d]);
    var low := c % 16 * 0x100 + d;
    assert n == (a * 0x1000 + b * 16 + c / 16) * 0x1000 + low;
    assert 0 <= low < 0x1000;
    assert n / 0x1000 == a * 0x1000 + b * 16 + c / 16;
  }

  lemma FlagBits(a: Byte, b: Byte)
    ensures IsExtended(U16([a, b])) <==> a / 64 % 2 == 1
    ensures U16([a, b]) % 0x1000 == a % 16 * 0x100 + b
  {
    var n := U16([a, b]);
    assert n == a / 64 * 0x4000 + (a % 64 * 0x100 + b);
    assert n / 0x4000 == a / 64;
    assert n == a / 16 * 0x1000 + (a % 16 * 0x100 + b);
  }

  // ----- One entry -----

  predicate HasEntry(s: Bytes, o: nat) {
    o + 62 <= |s|
  }

  /** The mode of the entry is that of a directory: only sparse indexes have those. */
  predicate IsTree(s: Bytes, o: nat)
    requires HasEntry(s, o)
  {
    s[o + 26] / 16 == 4
  }

  /** Where the path of the entry begins: an extended entry has two more bytes of flags. */
  function NameStart(s: Bytes, o: nat): (start: nat)
    requires HasEntry(s, o)
    ensures start > o
  {
    o + if s[o + 60] / 64 % 2 == 1 then 64 else 62
  }

  /** The length that the entry gives, if its path is short enough for that. */
  function GivenLength(s: Bytes, o: nat): Option<nat>
    requires HasEntry(s, o)
  {
    var n := s[o + 60] as int % 16 * 0x100 + s[o + 61] as int;
    if n < 0xFFF then Some(n) else None
  }

  /** At o there is an entry for this path, a NUL byte after it, and the next entry a multiple of
      eight bytes later. */
  predicate EntryAt(s: Bytes, o: nat, name: Bytes, next: nat) {
    && HasEntry(s, o) && !IsTree(s, o)
    && var end := NameStart(s, o) + |name|;
    && end < |s| && s[NameStart(s, o)..end] == name && s[end] == 0
    && (match GivenLength(s, o) case Some(n) => |name| == n case None => 0 !in name)
    && end < next <= end + 8 && (next - o) % 8 == 0
  }

  /** Why an entry cannot be read. */
  predicate Refuses(s: Bytes, o: nat, f: Failure) {
    if !HasEntry(s, o) then f == TruncatedEntry
    else if IsTree(s, o) then f == SparseIndex
    else
      var start, given := NameStart(s, o), GivenLength(s, o);
      if given.Some? then
        if start + given.value >= |s| then f == TruncatedPath
        else s[start + given.value] != 0 && f == InvalidPath
      else start <= |s| && 0 !in s[start..] && f == UnterminatedPath
  }

  lemma EntryWords(s: Bytes, o: nat)
    requires HasEntry(s, o)
    ensures IsDirectory(Mode(s, o)) <==> IsTree(s, o)
    ensures PathStart(s, o) == NameStart(s, o)
    ensures GivenLength(s, o) == if Flags(s, o) % 0x1000 < NAME_LEN_MASK then Some(Flags(s, o) % 0x1000) else None
  {
    assert s[o + 24..o + 28] == [s[o + 24], s[o + 25], s[o + 26], s[o + 27]];
    assert s[o + 60..o + 62] == [s[o + 60], s[o + 61]];
    ModeBits(s[o + 24], s[o + 25], s[o + 26], s[o + 27]);
    FlagBits(s[o + 60], s[o + 61]);
  }

  lemma PaddingIs(o: nat, end: nat, next: nat)
    requires o <= end
    ensures end < next <= end + 8 && (next - o) % 8 == 0 <==> next == end + 1 + Padding(end + 1 - o)
  {
  }

  /** Where the path of an entry ends, once its words are known. */
  lemma ParseEntryIs(s: Bytes, o: nat)
    ensures ParseEntry(s, o) ==
      if !HasEntry(s, o) then Fail(TruncatedEntry)
      else if IsTree(s, o) then Fail(SparseIndex)
      else
        var start := NameStart(s, o);
        var end := PathEnd(s, start, if GivenLength(s, o).Some? then GivenLength(s, o).value else NAME_LEN_MASK);
        if end.Fail? then Fail(end.failure)
        else if end.Panicked? then Panicked
        else if s[end.value] != 0 then Fail(InvalidPath)
        else Ok(Span(start, end.value, end.value + 1 + Padding(end.value + 1 - o)))
  {
    hide IsDirectory;
    hide Mode;
    hide IsTree;
    hide PathStart;
    hide NameStart;
    hide GivenLength;
    hide Padding;
    hide FirstZero;
    if HasEntry(s, o) {
      EntryWords(s, o);
      assert Flags(s, o) % 0x1000 <= NAME_LEN_MASK;
    }
  }

  /** With its length given, or else up to the first NUL byte. */
  lemma EndOfName(s: Bytes, start: nat, given: Option<nat>, name: Bytes)
    requires given.Some? ==> given.value < NAME_LEN_MASK
    ensures var end := PathEnd(s, start, if given.Some? then given.value else NAME_LEN_MASK);
      (start + |name| < |s| && s[start..start + |name|] == name && s[start + |name|] == 0
       && (if given.Some? then |name| == given.value else 0 !in name)) <==>
        end.Ok? && s[end.value] == 0 && s[start..end.value] == name
  {
    if given.None? && start <= |s| {
      var zero := FirstZero(s, start);
      if start + |name| < |s| && s[start..start + |name|] == name && s[start + |name|] == 0 && 0 !in name {
        assert forall k :: start <= k < start + |name| ==> s[k] == name[k - start] && name[k - start] in name;
      }
      if zero.Some? && s[start..zero.value] == name {
        assert forall k :: 0 <= k < |name| ==> name[k] == s[start + k] != 0;
      }
    }
  }

  lemma EntryIff(s: Bytes, o: nat, name: Bytes, next: nat)
    ensures EntryAt(s, o, name, next) <==>
      ParseEntry(s, o).Ok? && var e := ParseEntry(s, o).value; s[e.start..e.end] == name && e.next == next
  {
    hide ParseEntry;
    hide PathEnd;
    hide Padding;
    hide IsTree;
    hide NameStart;
    ParseEntryIs(s, o);
    if HasEntry(s, o) && !IsTree(s, o) {
      var start, given := NameStart(s, o), GivenLength(s, o);
      EndOfName(s, start, given, name);
      PaddingIs(o, start + |name|, next);
    }
  }

  lemma RefusesIff(s: Bytes, o: nat, f: Failure)
    ensures Refuses(s, o, f) <==> ParseEntry(s, o) == Fail(f)
  {
    hide ParseEntry;
    hide Padding;
    hide IsTree;
    hide NameStart;
    ParseEntryIs(s, o);
  }

  // ----- The whole file -----

  /** These paths have entries from o on, one after the other, and the last of them ends at next. */
  ghost predicate EntriesAt(s: Bytes, o: nat, names: seq<Bytes>, next: nat)
    decreases |names|
  {
    if names == [] then next == o
    else exists mid: nat :: EntryAt(s, o, names[0], mid) && EntriesAt(s, mid, names[1..], next)
  }

  function SizeAt(s: Bytes, o: nat): int
    requires o + 4 <= |s|
  {
    s[o] as int * 0x100_0000 + s[o + 1] as int * 0x1_0000 + s[o + 2] as int * 0x100 + s[o + 3] as int
  }

  predicate IsIndirect(s: Bytes, o: nat)
    requires o + 4 <= |s|
  {
    s[o..o + 4] == [108, 105, 110, 107] || s[o..o + 4] == [115, 100, 105, 114]
  }

  /** As long as more than 32 bytes are left there is an extension, none of them `link` or `sdir`, and
      each of them ends within the file. */
  predicate ExtensionsPass(s: Bytes, o: nat)
    decreases |s| - o
  {
    |s| > o + 32 ==>
      && !IsIndirect(s, o) && o + 8 + SizeAt(s, o + 4) <= |s|
      && ExtensionsPass(s, o + 8 + SizeAt(s, o + 4))
  }

  /** The first extension that does not pass. */
  predicate ExtensionsRefuse(s: Bytes, o: nat, f: Failure)
    decreases |s| - o
  {
    && |s| > o + 32
    && if IsIndirect(s, o) then f == IndirectIndex
       else if o + 8 + SizeAt(s, o + 4) > |s| then f == InvalidExtension
       else ExtensionsRefuse(s, o + 8 + SizeAt(s, o + 4), f)
  }

  predicate HasHeader(s: Bytes) {
    |s| >= 12 && s[..4] == [68, 73, 82, 67]
  }

  predicate IsReadable(s: Bytes) {
    && HasHeader(s) && (SizeAt(s, 4) == 2 || SizeAt(s, 4) == 3)
    && SizeAt(s, 8) <= 64 * 1024 * 1024 / 62
  }

  lemma SizeIs(s: Bytes, o: nat)
    requires o + 4 <= |s|
    ensures SizeAt(s, o) == U32(s[o..o + 4])
  {
  }

  lemma {:induction false} EntriesIff(s: Bytes, o: nat, names: seq<Bytes>, next: nat)
    ensures EntriesAt(s, o, names, next) <==> ParseEntries(s, o, |names|) == Ok(Entries(names, next))
    decreases |names|
  {
    hide ParseEntry;
    hide EntryAt;
    if names != [] {
      var e := ParseEntry(s, o);
      forall mid: nat ensures EntryAt(s, o, names[0], mid) <==>
        e.Ok? && s[e.value.start..e.value.end] == names[0] && e.value.next == mid
      {
        EntryIff(s, o, names[0], mid);
      }
      if e.Ok? {
        EntriesIff(s, e.value.next, names[1..], next);
        var rest := ParseEntries(s, e.value.next, |names| - 1);
        if rest.Ok? {
          assert ([s[e.value.start..e.value.end]] + rest.value.names)[1..] == rest.value.names;
          assert names == [names[0]] + names[1..];
        }
      }
    }
  }

  lemma {:induction false} EntriesCount(s: Bytes, o: nat, count: nat)
    ensures var entries := ParseEntries(s, o, count); entries.Ok? ==> |entries.value.names| == count
    decreases count
  {
    hide ParseEntry;
    if count > 0 && ParseEntry(s, o).Ok? {
      EntriesCount(s, ParseEntry(s, o).value.next, count - 1);
    }
  }

  /** Some entry, after others that can be read, cannot be. */
  ghost predicate SomeRefuses(s: Bytes, o: nat, count: nat, f: Failure) {
    exists names, at: nat :: |names| < count && EntriesAt(s, o, names, at) && Refuses(s, at, f)
  }

  lemma {:induction false} EntriesRefuseIff(s: Bytes, o: nat, count: nat, f: Failure)
    ensures SomeRefuses(s, o, count, f) <==> ParseEntries(s, o, count) == Fail(f)
    decreases count
  {
    hide ParseEntry;
    hide EntryAt;
    hide Refuses;
    if count > 0 {
      RefusesIff(s, o, f);
      var e := ParseEntry(s, o);
      if e.Ok? {
        var name, mid := s[e.value.start..e.value.end], e.value.next;
        EntryIff(s, o, name, mid);
        EntriesRefuseIff(s, mid, count - 1, f);
        if SomeRefuses(s, mid, count - 1, f) {
          var names, at: nat :| |names| < count - 1 && EntriesAt(s, mid, names, at) && Refuses(s, at, f);
          assert ([name] + names)[1..] == names;
          assert EntriesAt(s, o, [name] + names, at);
        }
        if SomeRefuses(s, o, count, f) {
          var names, at: nat :| |names| < count && EntriesAt(s, o, names, at) && Refuses(s, at, f);
          if names != [] {
            var m: nat :| EntryAt(s, o, names[0], m) && EntriesAt(s, m, names[1..], at);
            EntryIff(s, o, names[0], m);
          }
        }
      } else {
        assert e == Fail(f) ==> EntriesAt(s, o, [], o);
        if SomeRefuses(s, o, count, f) {
          var names, at: nat :| |names| < count && EntriesAt(s, o, names, at) && Refuses(s, at, f);
          if names != [] {
            var m: nat :| EntryAt(s, o, names[0], m) && EntriesAt(s, m, names[1..], at);
            EntryIff(s, o, names[0], m);
          }
        }
      }
    }
  }

  lemma {:induction false} ExtensionsAre(s: Bytes, o: nat)
    ensures ExtensionsPass(s, o) <==> ParseExtensions(s, o).Ok?
    ensures forall f :: ExtensionsRefuse(s, o, f) <==> ParseExtensions(s, o) == Fail(f)
    decreases |s| - o
  {
    hide U32;
    if |s| > o + 32 {
      SizeIs(s, o + 4);
      var next := o + 8 + SizeAt(s, o + 4);
      if next <= |s| {
        ExtensionsAre(s, next);
      }
    }
  }

  /** A file is read as these paths exactly when it is an index of version 2 or 3 with as many entries
      as it says, which are for these paths, and no extension stands in the way. */
  lemma ReadIff(s: Bytes, names: seq<Bytes>)
    ensures Parse(s) == Ok(names) <==>
      (IsReadable(s) && |names| == SizeAt(s, 8)
       && exists next: nat :: EntriesAt(s, 12, names, next) && ExtensionsPass(s, next))
  {
    hide ParseEntries;
    hide ParseExtensions;
    hide EntriesAt;
    hide ExtensionsPass;
    hide U32;
    if |s| >= 12 {
      SizeIs(s, 4);
      SizeIs(s, 8);
      var entries := ParseEntries(s, 12, U32(s[8..12]));
      EntriesCount(s, 12, U32(s[8..12]));
      if entries.Ok? {
        ExtensionsAre(s, entries.value.next);
      }
      if Parse(s) == Ok(names) {
        EntriesIff(s, 12, names, entries.value.next);
        assert EntriesAt(s, 12, names, entries.value.next) && ExtensionsPass(s, entries.value.next);
      }
      if IsReadable(s) && |names| == SizeAt(s, 8) {
        if next: nat :| EntriesAt(s, 12, names, next) && ExtensionsPass(s, next) {
          EntriesIff(s, 12, names, next);
        }
      }
    }
  }

  /** Why a file is not read. */
  ghost predicate IsRefused(s: Bytes, f: Failure) {
    if !HasHeader(s) then f == InvalidHeader
    else if SizeAt(s, 4) != 2 && SizeAt(s, 4) != 3 then f == UnsupportedVersion
    else if !IsReadable(s) then f == TooManyEntries
    else SomeRefuses(s, 12, SizeAt(s, 8), f) || ExtensionRefused(s, f)
  }

  /** All entries can be read, and then some extension does not pass. */
  ghost predicate ExtensionRefused(s: Bytes, f: Failure)
    requires HasHeader(s)
  {
    exists names, at: nat :: |names| == SizeAt(s, 8) && EntriesAt(s, 12, names, at) && ExtensionsRefuse(s, at, f)
  }

  /** A file is refused exactly for the first thing in it that stands in the way. */
  lemma RefusedIff(s: Bytes, f: Failure)
    ensures Parse(s) == Fail(f) <==> IsRefused(s, f)
  {
    hide ParseEntries;
    hide ParseExtensions;
    hide EntriesAt;
    hide ExtensionsRefuse;
    hide SomeRefuses;
    hide U32;
    if |s| >= 12 {
      SizeIs(s, 4);
      SizeIs(s, 8);
      if IsReadable(s) {
        EntriesRefuseIff(s, 12, SizeAt(s, 8), f);
        RefusedExtensionIff(s, f);
        var entries := ParseEntries(s, 12, SizeAt(s, 8));
        if entries.Ok? {
          ExtensionsNeverPanic(s, entries.value.next);
        }
      }
    }
  }

  lemma RefusedExtensionIff(s: Bytes, f: Failure)
    requires HasHeader(s) && SizeAt(s, 8) >= 0
    ensures var entries := ParseEntries(s, 12, SizeAt(s, 8));
      ExtensionRefused(s, f) <==> entries.Ok? && ParseExtensions(s, entries.value.next) == Fail(f)
  {
    hide ParseEntries;
    hide ParseExtensions;
    hide EntriesAt;
    hide ExtensionsRefuse;
    var entries := ParseEntries(s, 12, SizeAt(s, 8));
    EntriesCount(s, 12, SizeAt(s, 8));
    if entries.Ok? {
      ExtensionsAre(s, entries.value.next);
      EntriesIff(s, 12, entries.value.names, entries.value.next);
    }
    if names, at: nat :| |names| == SizeAt(s, 8) && EntriesAt(s, 12, names, at) && ExtensionsRefuse(s, at, f) {
      EntriesIff(s, 12, names, at);
    }
  }
}
