/** Symbols, read off the words of a file's tokens. */
module SymbolWords {
  // What attributes, use declarations and declarations are, in terms of words; which tokens the
  // parser looks at; and from them the lines of every symbol.

  import opened Lexer
  import opened SymbolSpans
  import opened Text
  import opened Wrappers

  function Ascii(s: string): (b: Bytes)
    requires forall j :: 0 <= j < |s| ==> s[j] as int < 128
    ensures |b| == |s| && forall j :: 0 <= j < |b| ==> b[j] == s[j] as int
  {
    seq(|s|, j requires 0 <= j < |s| => s[j] as int)
  }

  function Words(m: Bytes, tokens: seq<Token>): (w: seq<Bytes>)
    requires InText(m, tokens)
    ensures |w| == |tokens| && forall j :: 0 <= j < |w| ==> w[j] == Word(m, tokens[j])
  {
    seq(|tokens|, j requires 0 <= j < |tokens| => Word(m, tokens[j]))
  }

  // ----- What words stand for -----

  predicate IsKeyword(x: Bytes) {
    || x == Ascii("fn") || x == Ascii("struct") || x == Ascii("enum") || x == Ascii("trait") || x == Ascii("type")
    || x == Ascii("mod")
  }

  predicate NameByte(b: Byte, first: bool) {
    || 'a' as int <= b <= 'z' as int || 'A' as int <= b <= 'Z' as int || b == '_' as int
    || (!first && '0' as int <= b <= '9' as int)
  }

  predicate IsName(x: Bytes) {
    x != [] && forall j :: 0 <= j < |x| ==> NameByte(x[j], j == 0)
  }

  /** How many blocks are open after the words from a to b, counted from a. */
  function Level(w: seq<Bytes>, open: Bytes, close: Bytes, a: nat, b: nat): int
    requires a <= b <= |w|
  {
    if a == b then 0
    else Level(w, open, close, a, b - 1) + if w[b - 1] == open then 1 else if w[b - 1] == close then -1 else 0
  }

  /** The block that opens at a is closed at c. */
  predicate BlockEnds(w: seq<Bytes>, open: Bytes, close: Bytes, a: nat, c: nat) {
    && a < c < |w| && w[a] == open && Level(w, open, close, a, c + 1) == 0
    && forall d :: a < d <= c ==> Level(w, open, close, a, d) > 0
  }

  /** An attribute: a hash and a block of brackets. */
  predicate AttributeAt(w: seq<Bytes>, i: nat, c: nat) {
    i < |w| && w[i] == Ascii("#") && BlockEnds(w, Ascii("["), Ascii("]"), i + 1, c)
  }

  /** A use declaration, up to its semicolon. */
  predicate UseAt(w: seq<Bytes>, i: nat, c: nat) {
    i < c < |w| && w[i] == Ascii("use") && w[c] == Ascii(";") && forall j :: i < j < c ==> w[j] != Ascii(";")
  }

  /** A keyword and the name after it. */
  predicate NamedAt(w: seq<Bytes>, i: nat, c: nat) {
    && i < c < |w| && IsKeyword(w[i]) && IsName(w[c])
    && forall j :: i < j < c ==>
         !IsName(w[j]) && w[j] != Ascii("{") && w[j] != Ascii(";") && w[j] != Ascii("=")
  }

  predicate StartsAttribute(w: seq<Bytes>, i: nat) {
    exists c :: i < c < |w| && AttributeAt(w, i, c)
  }

  predicate StartsUse(w: seq<Bytes>, i: nat) {
    exists c :: i < c < |w| && UseAt(w, i, c)
  }

  predicate StartsDeclaration(w: seq<Bytes>, i: nat) {
    exists c :: i < c < |w| && NamedAt(w, i, c)
  }

  /** The token looked at after token i: what follows the attribute, the use declaration or the name
      that starts at i, or the next one. */
  ghost function Next(w: seq<Bytes>, i: nat): (next: nat)
    requires i < |w|
    ensures i < next <= |w|
  {
    if StartsAttribute(w, i) then var c: nat :| i < c < |w| && AttributeAt(w, i, c); c + 1
    else if StartsUse(w, i) then var c: nat :| i < c < |w| && UseAt(w, i, c); c + 1
    else if StartsDeclaration(w, i) then var c: nat :| i < c < |w| && NamedAt(w, i, c); c + 1
    else i + 1
  }

  /** The tokens looked at from i on. */
  ghost function Visits(w: seq<Bytes>, i: nat): seq<nat>
    decreases |w| - i
  {
    if i >= |w| then [] else [i] + Visits(w, Next(w, i))
  }

  // ----- The parser's functions find them -----

  lemma WordsInAscii()
    ensures Ascii("#") == [HASH] && Ascii("[") == OPEN_BRACKET && Ascii("]") == CLOSE_BRACKET
    ensures Ascii("{") == OPEN_BRACE && Ascii("}") == CLOSE_BRACE && Ascii(";") == SEMICOLON && Ascii("=") == EQUALS
    ensures Ascii("use") == USE && Ascii("impl") == IMPL && Ascii("mod") == MOD
  {
  }

  lemma KeywordIsDeclaration(x: Bytes)
    ensures IsKeyword(x) <==> x in DECLARATIONS
  {
    assert Ascii("fn") == [102, 110];
    assert Ascii("struct") == [115, 116, 114, 117, 99, 116];
    assert Ascii("enum") == [101, 110, 117, 109];
    assert Ascii("trait") == [116, 114, 97, 105, 116];
    assert Ascii("type") == [116, 121, 112, 101];
    assert Ascii("mod") == MOD;
  }

  lemma NameIsIdentifier(x: Bytes)
    ensures IsName(x) <==> Identifier(x)
  {
    if Identifier(x) {
      assert forall j :: 0 <= j < |x| ==> WordByte(x[j]);
    }
    if IsName(x) {
      assert NameByte(x[0], true);
      forall j | 0 <= j < |x| ensures WordByte(x[j]) {
        assert NameByte(x[j], j == 0);
      }
    }
  }

  lemma {:induction false} AttributeEndIs(m: Bytes, tokens: seq<Token>, start: nat, from: nat, depth: nat, c: nat)
    requires InText(m, tokens) && start < from <= |tokens| && from <= c && depth > 0
    requires var w := Words(m, tokens);
      && w[start] == OPEN_BRACKET && Level(w, OPEN_BRACKET, CLOSE_BRACKET, start, from) == depth
      && forall d :: start < d <= from ==> Level(w, OPEN_BRACKET, CLOSE_BRACKET, start, d) > 0
    ensures AttributeEnd(m, tokens, from, depth) == Some(c) <==>
      BlockEnds(Words(m, tokens), OPEN_BRACKET, CLOSE_BRACKET, start, c)
    decreases |tokens| - from
  {
    var w := Words(m, tokens);
    if from < |tokens| {
      var next := Level(w, OPEN_BRACKET, CLOSE_BRACKET, start, from + 1);
      if next > 0 && from < c {
        AttributeEndIs(m, tokens, start, from + 1, next, c);
      }
    }
  }

  lemma AttributeIs(m: Bytes, tokens: seq<Token>, i: nat, c: nat)
    requires InText(m, tokens) && i < |tokens|
    ensures AttributeAt(Words(m, tokens), i, c) <==>
      i + 1 < |tokens| && Word(m, tokens[i]) == [HASH] && Word(m, tokens[i + 1]) == OPEN_BRACKET
      && AttributeEnd(m, tokens, i + 1, 0) == Some(c)
  {
    WordsInAscii();
    var w := Words(m, tokens);
    if i + 1 < |tokens| && w[i + 1] == OPEN_BRACKET {
      assert Level(w, OPEN_BRACKET, CLOSE_BRACKET, i + 1, i + 1) == 0;
      assert Level(w, OPEN_BRACKET, CLOSE_BRACKET, i + 1, i + 2) == 1;
      if i + 2 <= c {
        AttributeEndIs(m, tokens, i + 1, i + 2, 1, c);
      }
      assert AttributeEnd(m, tokens, i + 1, 0) == AttributeEnd(m, tokens, i + 2, 1);
    }
  }

  lemma {:induction false} SemicolonIs(m: Bytes, tokens: seq<Token>, from: nat, c: nat)
    requires InText(m, tokens)
    ensures SemicolonAt(m, tokens, from) == Some(c) <==>
      from <= c < |tokens| && Word(m, tokens[c]) == SEMICOLON
      && forall j :: from <= j < c ==> Word(m, tokens[j]) != SEMICOLON
    decreases |tokens| - from
  {
    if from < |tokens| && Word(m, tokens[from]) != SEMICOLON {
      SemicolonIs(m, tokens, from + 1, c);
    }
  }

  lemma {:induction false} NameIs(m: Bytes, tokens: seq<Token>, from: nat, c: nat)
    requires InText(m, tokens)
    ensures NameAt(m, tokens, from) == Some(c) <==>
      from <= c < |tokens| && Identifier(Word(m, tokens[c]))
      && forall j :: from <= j < c ==>
           !Identifier(Word(m, tokens[j])) && Word(m, tokens[j]) !in {OPEN_BRACE, SEMICOLON, EQUALS}
    decreases |tokens| - from
  {
    hide Identifier;
    if from < |tokens| && !Identifier(Word(m, tokens[from]))
      && Word(m, tokens[from]) !in {OPEN_BRACE, SEMICOLON, EQUALS} {
      NameIs(m, tokens, from + 1, c);
    }
  }

  /** What the parser makes of a token is what its word and those after it stand for. */
  lemma MeantIs(m: Bytes, tokens: seq<Token>, i: nat)
    requires InText(m, tokens) && i < |tokens|
    ensures var w, meant := Words(m, tokens), Meant(m, tokens, i);
      && (StartsAttribute(w, i) <==> meant.Attribute?)
      && (forall c: nat :: AttributeAt(w, i, c) <==> meant == Attribute(c))
      && (StartsUse(w, i) <==> meant.Import?) && (forall c: nat :: UseAt(w, i, c) <==> meant == Import(c))
      && (StartsDeclaration(w, i) <==> meant.Declaration?)
      && (forall c: nat :: NamedAt(w, i, c) <==> meant.Declaration? && meant.name == c)
      && (meant.Declaration? ==> (meant.kind == ModuleKind <==> w[i] == Ascii("mod")))
      && (meant.Impl? <==> w[i] == Ascii("impl"))
      && (meant.OpenBrace? <==> w[i] == Ascii("{")) && (meant.CloseBrace? <==> w[i] == Ascii("}"))
      && (meant.Semicolon? <==> w[i] == Ascii(";"))
  {
    hide AttributeEnd;
    hide SemicolonAt;
    hide NameAt;
    hide IsName;
    hide Identifier;
    hide IsKeyword;
    hide BlockEnds;
    hide Ascii;
    var w, meant := Words(m, tokens), Meant(m, tokens, i);
    WordsInAscii();
    WordsDiffer(w[i]);
    KeywordIsDeclaration(w[i]);
    forall c: nat ensures AttributeAt(w, i, c) <==> meant == Attribute(c) {
      AttributeIs(m, tokens, i, c);
      AttributeComesLater(w, i, c);
    }
    forall c: nat ensures UseAt(w, i, c) <==> meant == Import(c) {
      SemicolonIs(m, tokens, i + 1, c);
      assert forall j :: 0 <= j < |w| ==> w[j] == Word(m, tokens[j]);
    }
    forall c: nat ensures NamedAt(w, i, c) <==> meant.Declaration? && meant.name == c {
      NamedIs(m, tokens, i, c);
    }
    if meant.Declaration? {
      assert NamedAt(w, i, meant.name);
    }
  }

  lemma AttributeComesLater(w: seq<Bytes>, i: nat, c: nat)
    ensures AttributeAt(w, i, c) ==> i < c < |w|
  {
  }

  lemma NamedIs(m: Bytes, tokens: seq<Token>, i: nat, c: nat)
    requires InText(m, tokens) && i < |tokens|
    ensures NamedAt(Words(m, tokens), i, c) <==>
      IsKeyword(Word(m, tokens[i])) && NameAt(m, tokens, i + 1) == Some(c)
  {
    hide NameAt;
    hide IsKeyword;
    hide Identifier;
    hide IsName;
    hide Ascii;
    WordsInAscii();
    NameIs(m, tokens, i + 1, c);
    var w := Words(m, tokens);
    forall j | 0 <= j < |w| ensures IsName(w[j]) <==> Identifier(Word(m, tokens[j])) {
      NameIsIdentifier(w[j]);
    }
  }

  /** No word has two roles. */
  lemma WordsDiffer(x: Bytes)
    ensures x in DECLARATIONS ==>
      x != USE && x != IMPL && x != OPEN_BRACE && x != CLOSE_BRACE && x != SEMICOLON && x != [HASH]
    ensures x == USE ==> x != IMPL && x != OPEN_BRACE && x != CLOSE_BRACE && x != SEMICOLON && x != [HASH]
    ensures x == IMPL ==> x != OPEN_BRACE && x != CLOSE_BRACE && x != SEMICOLON && x != [HASH]
  {
  }

  lemma NextIs(m: Bytes, tokens: seq<Token>, i: nat)
    requires InText(m, tokens) && i < |tokens|
    ensures Next(Words(m, tokens), i) == NextIndex(i, Meant(m, tokens, i))
  {
    hide Meant;
    hide AttributeAt;
    hide UseAt;
    hide NamedAt;
    MeantIs(m, tokens, i);
  }

  /** One mark for each token looked at. */
  lemma {:induction false} MarksAreVisits(m: Bytes, tokens: seq<Token>, imports: nat -> nat, i: nat)
    requires InText(m, tokens)
    ensures var v, marks := Visits(Words(m, tokens), i), Marks(m, tokens, imports, i);
      |v| == |marks| && forall a :: 0 <= a < |v| ==>
        v[a] < |tokens| && marks[a] == MarkOf(tokens, imports, v[a], Meant(m, tokens, v[a]))
    decreases |tokens| - i
  {
    hide Meant;
    hide Next;
    hide MarkOf;
    if i < |tokens| {
      NextIs(m, tokens, i);
      MarksAreVisits(m, tokens, imports, Next(Words(m, tokens), i));
    }
  }

  // ----- Bodies -----

  /** The words of the tokens looked at. */
  function Seen(w: seq<Bytes>, v: seq<nat>): (u: seq<Bytes>)
    requires forall a :: 0 <= a < |v| ==> v[a] < |w|
    ensures |u| == |v| && forall a :: 0 <= a < |u| ==> u[a] == w[v[a]]
  {
    seq(|v|, a requires 0 <= a < |v| => w[v[a]])
  }

  /** The token neither ends a declaration nor starts something else. */
  predicate PlainWord(w: seq<Bytes>, i: nat)
    requires i < |w|
  {
    && !StartsUse(w, i) && !StartsDeclaration(w, i)
    && w[i] != Ascii("impl") && w[i] != Ascii("{") && w[i] != Ascii("}") && w[i] != Ascii(";")
  }

  predicate InWords(w: seq<Bytes>, v: seq<nat>) {
    forall a :: 0 <= a < |v| ==> v[a] < |w|
  }

  /** The body of the declaration at a opens at b. */
  predicate BodyAt(w: seq<Bytes>, v: seq<nat>, a: nat, b: nat)
    requires InWords(w, v)
  {
    a < b < |v| && w[v[b]] == Ascii("{") && forall j :: a < j < b ==> PlainWord(w, v[j])
  }

  /** The body of the declaration at a opens at b and is closed at c. */
  predicate BodyEnds(w: seq<Bytes>, v: seq<nat>, a: nat, b: nat, c: nat)
    requires InWords(w, v)
  {
    BodyAt(w, v, a, b) && BlockEnds(Seen(w, v), Ascii("{"), Ascii("}"), b, c)
  }

  /** The marks of some tokens looked at. */
  ghost predicate Marked(w: seq<Bytes>, v: seq<nat>, tokens: seq<Token>, marks: seq<Mark>) {
    && |w| == |tokens| && |v| == |marks| && InWords(w, v)
    && (forall a :: 0 <= a < |v| ==> (marks[a].Opens? <==> w[v[a]] == Ascii("{")))
    && (forall a :: 0 <= a < |v| ==> (marks[a].Closes? <==> w[v[a]] == Ascii("}")))
    && (forall a :: 0 <= a < |v| && marks[a].Closes? ==> marks[a].line == tokens[v[a]].line)
    && (forall a :: 0 <= a < |v| ==> (marks[a].Plain? <==> PlainWord(w, v[a])))
  }

  lemma MarksAreMarked(m: Bytes, tokens: seq<Token>, imports: nat -> nat)
    requires InText(m, tokens)
    ensures var w := Words(m, tokens); Marked(w, Visits(w, 0), tokens, Marks(m, tokens, imports, 0))
  {
    hide Meant;
    hide Visits;
    hide Marks;
    hide StartsAttribute;
    hide StartsUse;
    hide StartsDeclaration;
    hide AttributeAt;
    hide UseAt;
    hide NamedAt;
    hide Ascii;
    var w := Words(m, tokens);
    MarksAreVisits(m, tokens, imports, 0);
    var v, marks := Visits(w, 0), Marks(m, tokens, imports, 0);
    forall a | 0 <= a < |v|
      ensures marks[a].Opens? <==> w[v[a]] == Ascii("{")
      ensures marks[a].Closes? <==> w[v[a]] == Ascii("}")
      ensures marks[a].Closes? ==> marks[a].line == tokens[v[a]].line
      ensures marks[a].Plain? <==> PlainWord(w, v[a])
    {
      MeantIs(m, tokens, v[a]);
    }
  }

  lemma {:induction false} ClosingLineIs(
    w: seq<Bytes>, v: seq<nat>, tokens: seq<Token>, marks: seq<Mark>, b: nat, x: nat, depth: nat)
    requires Marked(w, v, tokens, marks) && b < x <= |v| && w[v[b]] == Ascii("{")
    requires Level(Seen(w, v), Ascii("{"), Ascii("}"), b, x) == depth + 1
    requires forall d :: b < d <= x ==> Level(Seen(w, v), Ascii("{"), Ascii("}"), b, d) > 0
    ensures forall c: nat :: BlockEnds(Seen(w, v), Ascii("{"), Ascii("}"), b, c) ==>
      c < |v| && ClosingLine(marks[x..], depth) == Some(tokens[v[c]].line)
    ensures ClosingLine(marks[x..], depth).Some? ==>
      exists c: nat :: BlockEnds(Seen(w, v), Ascii("{"), Ascii("}"), b, c)
    decreases |v| - x
  {
    hide Ascii;
    hide PlainWord;
    WordsInAscii();
    var u, open, close := Seen(w, v), Ascii("{"), Ascii("}");
    if x < |v| {
      assert marks[x..][0] == marks[x] && marks[x..][1..] == marks[x + 1..];
      if marks[x].Closes? && depth == 0 {
        assert Level(u, open, close, b, x + 1) == 0;
        assert BlockEnds(u, open, close, b, x);
        forall c: nat | BlockEnds(u, open, close, b, c) ensures c == x {}
      } else {
        var next := if marks[x].Opens? then depth + 1 else if marks[x].Closes? then depth - 1 else depth;
        assert Level(u, open, close, b, x + 1) == next + 1;
        ClosingLineIs(w, v, tokens, marks, b, x + 1, next);
      }
    } else {
      assert marks[x..] == [];
    }
  }

  /** The line is that of the brace that closes the body of the declaration at a, or its own if it
      has no body that is closed. */
  ghost predicate EndsWithBody(w: seq<Bytes>, v: seq<nat>, tokens: seq<Token>, a: nat, line: nat)
    requires |w| == |tokens| && InWords(w, v) && a < |v|
  {
    && (forall b: nat, c: nat :: BodyEnds(w, v, a, b, c) ==> c < |v| && line == tokens[v[c]].line)
    && ((forall b: nat, c: nat :: !BodyEnds(w, v, a, b, c)) ==> line == tokens[v[a]].line)
  }

  lemma {:induction false} EndLineIs(
    w: seq<Bytes>, v: seq<nat>, tokens: seq<Token>, marks: seq<Mark>, a: nat, x: nat)
    requires Marked(w, v, tokens, marks) && a < x <= |v| && forall j :: a < j < x ==> PlainWord(w, v[j])
    ensures EndsWithBody(w, v, tokens, a, EndLine(marks[x..], tokens[v[a]].line))
    decreases |v| - x
  {
    hide Ascii;
    hide BlockEnds;
    hide PlainWord;
    hide ClosingLine;
    WordsInAscii();
    var u, line := Seen(w, v), tokens[v[a]].line;
    if x == |v| {
      assert marks[x..] == [];
    } else {
      assert marks[x..][0] == marks[x] && marks[x..][1..] == marks[x + 1..];
      if marks[x].Plain? {
        EndLineIs(w, v, tokens, marks, a, x + 1);
      } else {
        forall b: nat | BodyAt(w, v, a, b) ensures b == x {}
        if marks[x].Opens? {
          OpensLevel(u, Ascii("{"), Ascii("}"), x);
          ClosingLineIs(w, v, tokens, marks, x, x + 1, 0);
          if ClosingLine(marks[x + 1..], 0).Some? {
            var c: nat :| BlockEnds(u, Ascii("{"), Ascii("}"), x, c);
            assert BodyAt(w, v, a, x) && BodyEnds(w, v, a, x, c);
          }
        }
      }
    }
  }

  lemma OpensLevel(u: seq<Bytes>, open: Bytes, close: Bytes, x: nat)
    requires x < |u| && u[x] == open
    ensures Level(u, open, close, x, x + 1) == 1
  {
    assert Level(u, open, close, x, x) == 0;
  }

  // ----- The symbols of a file -----

  /** The symbols that the parser makes of some tokens, as far as their lines go. */
  function SymbolsOf(m: Bytes, tokens: seq<Token>, imports: nat -> nat): seq<Span>
    requires InText(m, tokens)
  {
    Spans(Marks(m, tokens, imports, 0))
  }

  /** How many symbols start at token i. */
  function SymbolsAt(w: seq<Bytes>, imports: nat -> nat, i: nat): nat {
    if StartsUse(w, i) then imports(i) else if StartsDeclaration(w, i) then 1 else 0
  }

  /** How many symbols the first tokens looked at declare. */
  function SymbolsBefore(w: seq<Bytes>, v: seq<nat>, imports: nat -> nat, a: nat): nat
    requires a <= |v|
  {
    if a == 0 then 0 else SymbolsBefore(w, v, imports, a - 1) + SymbolsAt(w, imports, v[a - 1])
  }

  ghost predicate Counted(w: seq<Bytes>, v: seq<nat>, imports: nat -> nat, marks: seq<Mark>) {
    |v| == |marks| && forall a :: 0 <= a < |v| ==> |HeadsOf(marks[a])| == SymbolsAt(w, imports, v[a])
  }

  lemma {:induction false} SymbolsAreCounted(
    w: seq<Bytes>, v: seq<nat>, imports: nat -> nat, marks: seq<Mark>, a: nat)
    requires Counted(w, v, imports, marks) && a <= |v|
    ensures SymbolsBefore(w, v, imports, a) == |Declared(marks[..a])|
  {
    hide SymbolsAt;
    hide HeadsOf;
    if a > 0 {
      SymbolsAreCounted(w, v, imports, marks, a - 1);
      var last := marks[a - 1];
      assert marks[..a] == marks[..a - 1] + [last];
      PlayConcat(WALK_START, marks[..a - 1], [last]);
      assert [last][1..] == [] && Declared([last]) == HeadsOf(last) + Declared([]);
    }
  }

  lemma MarksAreCounted(m: Bytes, tokens: seq<Token>, imports: nat -> nat)
    requires InText(m, tokens)
    ensures Counted(Words(m, tokens), Visits(Words(m, tokens), 0), imports, Marks(m, tokens, imports, 0))
  {
    hide Meant;
    hide Marks;
    hide Visits;
    hide StartsAttribute;
    hide StartsUse;
    hide StartsDeclaration;
    hide AttributeAt;
    hide UseAt;
    hide NamedAt;
    hide Ascii;
    MarksAreVisits(m, tokens, imports, 0);
    var w, marks := Words(m, tokens), Marks(m, tokens, imports, 0);
    var v := Visits(w, 0);
    forall a | 0 <= a < |v| ensures |HeadsOf(marks[a])| == SymbolsAt(w, imports, v[a]) {
      MeantIs(m, tokens, v[a]);
    }
  }

  /** There are as many symbols as the tokens looked at declare, up to 512. */
  lemma SymbolCount(m: Bytes, tokens: seq<Token>, imports: nat -> nat)
    requires InText(m, tokens)
    ensures InWords(Words(m, tokens), Visits(Words(m, tokens), 0))
    ensures var w, v := Words(m, tokens), Visits(Words(m, tokens), 0);
      var all := SymbolsBefore(w, v, imports, |v|);
      |SymbolsOf(m, tokens, imports)| == if all <= 512 then all else 512
  {
    hide Visits;
    hide Marks;
    hide Play;
    hide Declared;
    hide HeadsOf;
    hide SymbolsAt;
    MarksAreMarked(m, tokens, imports);
    MarksAreCounted(m, tokens, imports);
    var v, marks := Visits(Words(m, tokens), 0), Marks(m, tokens, imports, 0);
    SymbolsAreCounted(Words(m, tokens), v, imports, marks, |v|);
    assert marks[..|v|] == marks;
    SymbolsAreDeclared(marks);
    assert |Heads(Spans(marks))| == |FirstOf(Declared(marks), MAX_SYMBOLS_PER_FILE)|;
  }

  /** Symbol k is that of the declaration at a. */
  ghost predicate IsDeclared(
    w: seq<Bytes>, v: seq<nat>, tokens: seq<Token>, spans: seq<Span>, a: nat, k: nat)
    requires |w| == |tokens| && InWords(w, v) && a < |v|
  {
    && k < |spans| && spans[k].startLine == tokens[v[a]].line && (spans[k].isModule <==> w[v[a]] == Ascii("mod"))
    && EndsWithBody(w, v, tokens, a, spans[k].endLine)
  }

  lemma MarkGivesSymbol(
    w: seq<Bytes>, v: seq<nat>, tokens: seq<Token>, imports: nat -> nat, marks: seq<Mark>, a: nat)
    requires Marked(w, v, tokens, marks) && Counted(w, v, imports, marks)
    requires a < |v| && marks[a] == Starts(w[v[a]] == Ascii("mod"), tokens[v[a]].line)
    ensures var k, all := SymbolsBefore(w, v, imports, a), SymbolsBefore(w, v, imports, |v|);
      k < 512 && (all <= 512 || k < 511 || w[v[a]] != Ascii("mod")) ==> IsDeclared(w, v, tokens, Spans(marks), a, k)
  {
    hide Play;
    hide Declared;
    hide EndLine;
    hide Ascii;
    hide EndsWithBody;
    hide Marked;
    hide Counted;
    hide SymbolsBefore;
    MarksFit(w, v, tokens, marks);
    var before, after, line := marks[..a], marks[a + 1..], tokens[v[a]].line;
    var isModule := w[v[a]] == Ascii("mod");
    SymbolsAreCounted(w, v, imports, marks, a);
    SymbolsAreCounted(w, v, imports, marks, |v|);
    assert marks[..|v|] == marks && before + [Starts(isModule, line)] + after == marks;
    EndLineIs(w, v, tokens, marks, a, a + 1);
    var k, all := |Declared(before)|, |Declared(marks)|;
    if k < 512 && (all <= 512 || k < 511 || !isModule) {
      SymbolEndsWithItsBody(before, isModule, line, after);
    }
  }

  /** A keyword that the parser looks at, followed by a name, gives the next symbol: it starts on
      the line of the keyword and ends with the brace that balances the one that opens its body, or
      on its own line if it has none.  A module in the last place keeps its end only if nothing is
      declared after it. */
  lemma DeclarationGivesSymbol(m: Bytes, tokens: seq<Token>, imports: nat -> nat, a: nat)
    requires InText(m, tokens) && a < |Visits(Words(m, tokens), 0)|
    ensures InWords(Words(m, tokens), Visits(Words(m, tokens), 0))
    ensures var w, v := Words(m, tokens), Visits(Words(m, tokens), 0);
      var k, all := SymbolsBefore(w, v, imports, a), SymbolsBefore(w, v, imports, |v|);
      StartsDeclaration(w, v[a]) && k < 512 && (all <= 512 || k < 511 || w[v[a]] != Ascii("mod")) ==>
        IsDeclared(w, v, tokens, SymbolsOf(m, tokens, imports), a, k)
  {
    hide Visits;
    hide Marks;
    hide Meant;
    hide Spans;
    hide Ascii;
    hide IsDeclared;
    hide Marked;
    hide Counted;
    hide SymbolsBefore;
    hide StartsUse;
    hide StartsDeclaration;
    hide StartsAttribute;
    hide NamedAt;
    hide AttributeAt;
    hide UseAt;
    MarksAreVisits(m, tokens, imports, 0);
    MarksAreMarked(m, tokens, imports);
    MarksAreCounted(m, tokens, imports);
    var w, marks := Words(m, tokens), Marks(m, tokens, imports, 0);
    var v := Visits(w, 0);
    MarksFit(w, v, tokens, marks);
    MeantIs(m, tokens, v[a]);
    if StartsDeclaration(w, v[a]) {
      assert marks[a] == Starts(w[v[a]] == Ascii("mod"), tokens[v[a]].line);
      MarkGivesSymbol(w, v, tokens, imports, marks, a);
    }
  }

  lemma MarksFit(w: seq<Bytes>, v: seq<nat>, tokens: seq<Token>, marks: seq<Mark>)
    requires Marked(w, v, tokens, marks)
    ensures |w| == |tokens| && |v| == |marks| && InWords(w, v)
  {
  }

  /** A use declaration gives one symbol an entry, from the line of the keyword to that of the
      semicolon. */
  lemma UseGivesSymbols(m: Bytes, tokens: seq<Token>, imports: nat -> nat, a: nat, c: nat, e: nat)
    requires InText(m, tokens) && a < |Visits(Words(m, tokens), 0)|
    ensures InWords(Words(m, tokens), Visits(Words(m, tokens), 0))
    ensures var w, v, spans := Words(m, tokens), Visits(Words(m, tokens), 0), SymbolsOf(m, tokens, imports);
      var k := SymbolsBefore(w, v, imports, a) + e;
      UseAt(w, v[a], c) && e < imports(v[a]) && k < 512 ==>
        c < |tokens| && k < |spans| && spans[k] == Span(tokens[v[a]].line, tokens[c].line, false)
  {
    hide Visits;
    hide Marks;
    hide Meant;
    hide Play;
    hide Declared;
    hide Ascii;
    hide Marked;
    hide Counted;
    hide SymbolsBefore;
    hide StartsUse;
    hide StartsDeclaration;
    hide StartsAttribute;
    hide NamedAt;
    hide AttributeAt;
    hide UseAt;
    MarksAreVisits(m, tokens, imports, 0);
    MarksAreMarked(m, tokens, imports);
    MarksAreCounted(m, tokens, imports);
    var w, marks := Words(m, tokens), Marks(m, tokens, imports, 0);
    var v := Visits(w, 0);
    MarksFit(w, v, tokens, marks);
    SymbolsAreCounted(w, v, imports, marks, a);
    MeantIs(m, tokens, v[a]);
    if UseAt(w, v[a], c) && e < imports(v[a]) && SymbolsBefore(w, v, imports, a) + e < 512 {
      var before, after := marks[..a], marks[a + 1..];
      var mark := Uses(imports(v[a]), tokens[v[a]].line, tokens[c].line);
      assert marks[a] == mark;
      assert before + [mark] + after == marks;
      ImportKeepsItsLines(before, mark, after, e);
    }
  }
}
