/** Printing of commands as shell words, the keys that identify planned checks, and the
    matching of pending checks by those keys. */
module CommandKey {
  import opened Text
  import opened Wrappers

  const QUOTE: Byte := 39
  const DOT: Byte := 46
  const OPEN: Byte := 91
  const CLOSE: Byte := 93
  const CWD: Bytes := [OPEN, 99, 119, 100, 61]   // [cwd=

  const MAX_FIELD_BYTES: nat := 256

  datatype Command = Command(program: Bytes, args: seq<Bytes>, cwd: Bytes, scope: Bytes)

  // ----- Printing -----

  predicate Alphanumeric(b: Byte) {
    48 <= b <= 57 || 65 <= b <= 90 || 97 <= b <= 122
  }

  /** Letters, digits and `-_=./:` need no quotes. */
  predicate Safe(b: Byte) {
    Alphanumeric(b) || b == 45 || b == 95 || b == 61 || b == DOT || b == 47 || b == 58
  }

  /** Closes the quotes, escapes a quote and opens the quotes again, for every quote. */
  function Escaped(w: Bytes): Bytes {
    if w == [] then []
    else (if w[0] == QUOTE then [QUOTE, BACKSLASH, QUOTE, QUOTE] else [w[0]]) + Escaped(w[1..])
  }

  function ShellWord(w: Bytes): Bytes {
    if w != [] && forall i :: 0 <= i < |w| ==> Safe(w[i]) then w else [QUOTE] + Escaped(w) + [QUOTE]
  }

  /** A word is printed as it is exactly when it has some bytes and all of them are letters, digits or
      one of `-_=./:`; any other stands in single quotes. */
  lemma PrintedAsItIsIff(w: Bytes)
    ensures ShellWord(w) == w <==> w != [] && forall i :: 0 <= i < |w| ==>
      48 <= w[i] <= 57 || 65 <= w[i] <= 90 || 97 <= w[i] <= 122 || w[i] in {45, 95, 61, 46, 47, 58}
    ensures ShellWord(w) != w ==> ShellWord(w) == [39] + Escaped(w) + [39]
  {
    if w != [] && exists i :: 0 <= i < |w| && !Safe(w[i]) {
      EscapedIsLonger(w);
    }
  }

  lemma {:induction false} EscapedIsLonger(w: Bytes)
    ensures |Escaped(w)| >= |w|
  {
    if w != [] {
      EscapedIsLonger(w[1..]);
    }
  }

  function JoinWords(words: seq<Bytes>): Bytes {
    if words == [] then []
    else if |words| == 1 then ShellWord(words[0])
    else ShellWord(words[0]) + [SPACE] + JoinWords(words[1..])
  }

  function Argv(c: Command): seq<Bytes> {
    [c.program] + c.args
  }

  function Display(c: Command): Bytes {
    JoinWords(Argv(c))
  }

  predicate AtRoot(cwd: Bytes) {
    cwd == [] || cwd == [DOT]
  }

  function WorkflowKey(c: Command): Bytes {
    if AtRoot(c.cwd) then Display(c) else CWD + ShellWord(c.cwd) + [CLOSE, SPACE] + Display(c)
  }

  // ----- Reading, by sections 2.2.1 and 2.2.2 of the POSIX Shell Command Language -----

  predicate Blank(b: Byte) {
    b == SPACE || b == TAB
  }

  /** A byte that stands for itself outside quotes: not one of the characters that section 2.2
      says must or may have to be quoted, of which `=` and `%` are left in; `!` and `]` are
      kept out as well. */
  predicate Plain(b: Byte) {
    && b != TAB && b != NEWLINE && !(32 <= b <= 36) && !(38 <= b <= 42) && !(59 <= b <= 60) && !(62 <= b <= 63)
    && !(91 <= b <= 93) && b != 96 && b != 124 && b != 126
  }

  function Find(s: Bytes, b: Byte): (k: nat)
    ensures k <= |s| && (k < |s| ==> s[k] == b) && forall j :: 0 <= j < k ==> s[j] != b
  {
    if s == [] || s[0] == b then 0 else Find(s[1..], b) + 1
  }

  datatype Word = Word(text: Bytes, rest: Bytes)

  /** The word at the start of some input, and the input after it.  A backslash keeps the next
      byte, or joins two lines; single quotes keep everything up to the next one. */
  function ReadWord(s: Bytes, sofar: Bytes): (r: Option<Word>)
    ensures r.Some? ==> |r.value.rest| <= |s|
    decreases |s|
  {
    if s == [] then Some(Word(sofar, s))
    else if s[0] == BACKSLASH then
      if |s| == 1 then None
      else ReadWord(s[2..], if s[1] == NEWLINE then sofar else sofar + [s[1]])
    else if s[0] == QUOTE then
      var k := Find(s[1..], QUOTE);
      if k == |s| - 1 then None else ReadWord(s[k + 2..], sofar + s[1..k + 1])
    else if Plain(s[0]) then ReadWord(s[1..], sofar + [s[0]])
    else Some(Word(sofar, s))
  }

  /** All words of some input, separated by blanks. */
  function Split(s: Bytes): Option<seq<Bytes>>
    decreases |s|
  {
    if s == [] then Some([])
    else if Blank(s[0]) then Split(s[1..])
    else
      var w := ReadWord(s, []);
      if w.None? || w.value.rest == s then None
      else if w.value.rest == [] then Some([w.value.text])
      else if !Blank(w.value.rest[0]) then None
      else if |w.value.rest| >= |s| then None
      else
        var more := Split(w.value.rest);
        if more.None? then None else Some([w.value.text] + more.value)
  }

  // ----- Reading undoes printing -----

  /** What follows does not continue a word. */
  predicate EndsWord(rest: Bytes) {
    rest == [] || Blank(rest[0]) || rest[0] == CLOSE
  }

  lemma {:induction false} EscapedAtQuote(w: Bytes, k: nat)
    requires k == Find(w, QUOTE)
    ensures Escaped(w) == w[..k] + if k == |w| then [] else [QUOTE, BACKSLASH, QUOTE, QUOTE] + Escaped(w[k + 1..])
  {
    if w != [] && w[0] != QUOTE {
      EscapedAtQuote(w[1..], k - 1);
      assert w[..k] == [w[0]] + w[1..][..k - 1];
      assert k < |w| ==> w[1..][k..] == w[k + 1..];
    }
  }

  lemma FindAfter(w: Bytes, rest: Bytes)
    requires forall i :: 0 <= i < |w| ==> w[i] != QUOTE
    ensures Find(w + [QUOTE] + rest, QUOTE) == |w|
  {
    var s := w + [QUOTE] + rest;
    assert s[|w|] == QUOTE;
    forall j | 0 <= j < |w| ensures s[j] != QUOTE {
    }
  }

  /** One pair of quotes around bytes other than quotes. */
  lemma ReadQuoted(w: Bytes, sofar: Bytes, rest: Bytes)
    requires forall i :: 0 <= i < |w| ==> w[i] != QUOTE
    ensures ReadWord([QUOTE] + w + [QUOTE] + rest, sofar) == ReadWord(rest, sofar + w)
  {
    var s := [QUOTE] + w + [QUOTE] + rest;
    assert s[1..] == w + [QUOTE] + rest;
    FindAfter(w, rest);
    assert s[1..|w| + 1] == w && s[|w| + 2..] == rest;
  }

  lemma ReadEscape(b: Byte, sofar: Bytes, rest: Bytes)
    requires b != NEWLINE
    ensures ReadWord([BACKSLASH, b] + rest, sofar) == ReadWord(rest, sofar + [b])
  {
    assert ([BACKSLASH, b] + rest)[2..] == rest;
  }

  lemma {:induction false} ReadEscaped(w: Bytes, sofar: Bytes, rest: Bytes)
    ensures ReadWord([QUOTE] + Escaped(w) + [QUOTE] + rest, sofar) == ReadWord(rest, sofar + w)
    decreases |w|
  {
    hide ReadWord;
    hide Escaped;
    var k := Find(w, QUOTE);
    EscapedAtQuote(w, k);
    var head := w[..k];
    if k == |w| {
      assert head == w && Escaped(w) == w;
      ReadQuoted(w, sofar, rest);
    } else {
      var tail := w[k + 1..];
      var again := [QUOTE] + Escaped(tail) + [QUOTE] + rest;
      assert [QUOTE] + Escaped(w) + [QUOTE] + rest == [QUOTE] + head + [QUOTE] + ([BACKSLASH, QUOTE] + again);
      ReadQuoted(head, sofar, [BACKSLASH, QUOTE] + again);
      ReadEscape(QUOTE, sofar + head, again);
      ReadEscaped(tail, sofar + head + [QUOTE], rest);
      assert sofar + head + [QUOTE] + tail == sofar + w;
    }
  }

  lemma ReadPlain(b: Byte, sofar: Bytes, rest: Bytes)
    requires Safe(b)
    ensures ReadWord([b] + rest, sofar) == ReadWord(rest, sofar + [b])
  {
    assert ([b] + rest)[1..] == rest;
  }

  lemma {:induction false} ReadSafe(w: Bytes, sofar: Bytes, rest: Bytes)
    requires forall i :: 0 <= i < |w| ==> Safe(w[i])
    ensures ReadWord(w + rest, sofar) == ReadWord(rest, sofar + w)
    decreases |w|
  {
    hide ReadWord;
    if w == [] {
      assert w + rest == rest && sofar + w == sofar;
    } else {
      assert w + rest == [w[0]] + (w[1..] + rest);
      ReadPlain(w[0], sofar, w[1..] + rest);
      ReadSafe(w[1..], sofar + [w[0]], rest);
      assert sofar + [w[0]] + w[1..] == sofar + w;
    }
  }

  /** Whatever the bytes of a word, reading its printed form gives the word back. */
  lemma WordRoundTrip(w: Bytes, rest: Bytes)
    requires EndsWord(rest)
    ensures ReadWord(ShellWord(w) + rest, []) == Some(Word(w, rest))
  {
    assert [] + w == w;
    if w != [] && forall i :: 0 <= i < |w| ==> Safe(w[i]) {
      ReadSafe(w, [], rest);
    } else {
      assert ShellWord(w) + rest == [QUOTE] + Escaped(w) + [QUOTE] + rest;
      ReadEscaped(w, [], rest);
    }
  }

  lemma ShellWordStarts(w: Bytes)
    ensures ShellWord(w) != [] && (ShellWord(w)[0] == QUOTE || Safe(ShellWord(w)[0]))
  {
  }

  /** Splitting a printed list of words gives the list back. */
  lemma {:induction false} SplitUndoesJoin(words: seq<Bytes>)
    ensures Split(JoinWords(words)) == Some(words)
  {
    hide ReadWord;
    hide ShellWord;
    if words != [] {
      var w, more := words[0], words[1..];
      var rest := if more == [] then [] else [SPACE] + JoinWords(more);
      var s := ShellWord(w) + rest;
      assert JoinWords(words) == s;
      WordRoundTrip(w, rest);
      ShellWordStarts(w);
      assert s[0] == ShellWord(w)[0];
      assert |rest| < |s|;
      assert words == [w] + more;
      assert more == [] ==> words == [w];
      SplitFirst(s, w, rest);
      if more != [] {
        assert rest[1..] == JoinWords(more);
        SplitUndoesJoin(more);
      }
    }
  }

  lemma SplitFirst(s: Bytes, w: Bytes, rest: Bytes)
    requires s != [] && !Blank(s[0]) && ReadWord(s, []) == Some(Word(w, rest)) && |rest| < |s|
    requires rest == [] || rest[0] == SPACE
    ensures rest == [] ==> Split(s) == Some([w])
    ensures rest != [] ==> Split(s) == var more := Split(rest[1..]); if more.None? then None else Some([w] + more.value)
  {
    hide ReadWord;
  }

  // ----- Keys -----

  predicate SameArgv(c: Command, d: Command) {
    c.program == d.program && c.args == d.args
  }

  /** The same command in the same directory, where the root may be written in two ways. */
  predicate SameCommand(c: Command, d: Command) {
    SameArgv(c, d) && (c.cwd == d.cwd || (AtRoot(c.cwd) && AtRoot(d.cwd)))
  }

  lemma DisplayIff(c: Command, d: Command)
    ensures Display(c) == Display(d) <==> SameArgv(c, d)
  {
    SplitUndoesJoin(Argv(c));
    SplitUndoesJoin(Argv(d));
    if Argv(c) == Argv(d) {
      assert c.program == Argv(c)[0] == d.program;
      assert c.args == Argv(c)[1..] == d.args;
    }
  }

  lemma DisplayStarts(c: Command)
    ensures Display(c) != [] && Display(c)[0] != OPEN
  {
    ShellWordStarts(c.program);
    assert Argv(c)[0] == c.program;
  }

  /** Two commands have the same key exactly when they are the same command. */
  lemma KeyIff(c: Command, d: Command)
    ensures WorkflowKey(c) == WorkflowKey(d) <==> SameCommand(c, d)
  {
    hide ReadWord;
    hide ShellWord;
    hide Display;
    DisplayIff(c, d);
    DisplayStarts(c);
    DisplayStarts(d);
    if !AtRoot(c.cwd) && !AtRoot(d.cwd) && WorkflowKey(c) == WorkflowKey(d) {
      var restC, restD := [CLOSE, SPACE] + Display(c), [CLOSE, SPACE] + Display(d);
      assert WorkflowKey(c)[5..] == ShellWord(c.cwd) + restC;
      assert WorkflowKey(d)[5..] == ShellWord(d.cwd) + restD;
      WordRoundTrip(c.cwd, restC);
      WordRoundTrip(d.cwd, restD);
      assert Display(c) == restC[2..] && Display(d) == restD[2..];
    } else if AtRoot(c.cwd) != AtRoot(d.cwd) {
      assert AtRoot(c.cwd) ==> WorkflowKey(d)[0] == OPEN;
      assert AtRoot(d.cwd) ==> WorkflowKey(c)[0] == OPEN;
    }
  }

  /** Adds a command to a plan unless it is there; the scope does not matter. */
  method PushUnique(commands: seq<Command>, c: Command) returns (r: seq<Command>)
    ensures r == if exists d :: d in commands && SameArgv(d, c) && d.cwd == c.cwd then commands else commands + [c]
  {
    for i := 0 to |commands|
      invariant forall j :: 0 <= j < i ==> !(SameArgv(commands[j], c) && commands[j].cwd == c.cwd)
    {
      DisplayIff(commands[i], c);
      if Display(commands[i]) == Display(c) && commands[i].cwd == c.cwd {
        return commands;
      }
    }
    return commands + [c];
  }

  // ----- Pending checks -----

  datatype Status = Pending | Passed | Failed

  /** A check of the workflow as it is stored, its text cut to 256 bytes. */
  datatype Check = Check(command: Bytes, required: bool, revision: nat, status: Status)

  function NewCheck(c: Command, revision: nat): Check {
    Check(Bounded(WorkflowKey(c), MAX_FIELD_BYTES), true, revision, Pending)
  }

  predicate Matches(check: Check, revision: nat, c: Command) {
    check.required && check.revision == revision && check.status == Pending && check.command == WorkflowKey(c)
  }

  predicate FirstAwaited(planned: seq<Command>, checks: seq<Check>, revision: nat, i: nat) {
    && i < |planned|
    && (exists k :: k in checks && Matches(k, revision, planned[i]))
    && (forall j, k :: 0 <= j < i && k in checks ==> !Matches(k, revision, planned[j]))
  }

  /** The first planned command that some stored check waits for. */
  method NextPendingVerification(planned: seq<Command>, checks: seq<Check>, revision: nat) returns (r: Option<Command>)
    ensures r.None? ==> forall c, k :: c in planned && k in checks ==> !Matches(k, revision, c)
    ensures r.Some? ==>
      exists i :: 0 <= i < |planned| && planned[i] == r.value && FirstAwaited(planned, checks, revision, i)
  {
    for i := 0 to |planned|
      invariant forall j, k :: 0 <= j < i && k in checks ==> !Matches(k, revision, planned[j])
    {
      for n := 0 to |checks|
        invariant forall m :: 0 <= m < n ==> !Matches(checks[m], revision, planned[i])
      {
        if Matches(checks[n], revision, planned[i]) {
          return Some(planned[i]);
        }
      }
    }
    return None;
  }

  /** A check that was stored for c is awaited as long as it is required, pending and of this
      revision.  It is matched by exactly the same command, as long as the key of c fits the field; a
      longer key is matched by the command printed as its cut form. */
  lemma StoredCheckMatchesIff(c: Command, d: Command, check: Check, revision: nat)
    requires check.command == NewCheck(c, revision).command
    ensures Matches(check, revision, d) <==>
      check.required && check.status == Pending && check.revision == revision
      && if |WorkflowKey(c)| <= MAX_FIELD_BYTES then SameCommand(c, d)
         else WorkflowKey(d) == Bounded(WorkflowKey(c), MAX_FIELD_BYTES)
  {
    KeyIff(c, d);
  }

  /** So a command whose key is too long is never found again by its own check. */
  lemma OwnCheckMatchesIff(c: Command, revision: nat)
    ensures Matches(NewCheck(c, revision), revision, c) <==> |WorkflowKey(c)| <= MAX_FIELD_BYTES
  {
    StoredCheckMatchesIff(c, c, NewCheck(c, revision), revision);
  }

  function Letters(n: nat): Bytes {
    seq(n, _ => 97)
  }

  lemma LettersKey(n: nat)
    requires n > 0
    ensures WorkflowKey(Command(Letters(n), [], [], [])) == Letters(n)
  {
    var c := Command(Letters(n), [], [], []);
    assert Argv(c) == [Letters(n)];
  }

  /** And another command may be taken for it: 300 letters are stored as 256. */
  lemma CutKeyMatchesAnotherCommand()
    ensures var c, d := Command(Letters(300), [], [], []), Command(Letters(256), [], [], []);
      Matches(NewCheck(c, 0), 0, d) && !SameCommand(c, d)
  {
    LettersKey(300);
    LettersKey(256);
    var s := Letters(300);
    assert s[256] == 97;
    assert CharBoundary(s, 256);
    assert s[..256] == Letters(256);
    assert |Letters(300)| != |Letters(256)|;
  }
}
