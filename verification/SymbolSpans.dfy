/** The lines of a Rust file's symbols. */
module SymbolSpans {
  // The parser walks over the tokens once, with a stack of open braces.  A symbol starts where its
  // declaration does and ends with the brace that closes its body.

  import opened Lexer
  import opened Text
  import opened Wrappers

  // ----- What the parser makes of a token -----

  /** What the parser makes of the token at some index: attributes and imports are skipped up to
      their end, a declaration continues at its name. */
  datatype Meaning =
    | Attribute(close: nat) | Import(close: nat) | Declaration(name: nat, kind: DeclarationKind)
    | Impl | OpenBrace | CloseBrace | Semicolon | OtherToken

  datatype DeclarationKind = FunctionOrType | ModuleKind

  const USE: Bytes := [117, 115, 101]
  const IMPL: Bytes := [105, 109, 112, 108]
  const MOD: Bytes := [109, 111, 100]
  const DECLARATIONS: set<Bytes> := {
    [102, 110], [115, 116, 114, 117, 99, 116], [101, 110, 117, 109], [116, 114, 97, 105, 116], [116, 121, 112, 101], MOD
  }   // fn, struct, enum, trait, type, mod
  const OPEN_BRACKET: Bytes := [91]
  const CLOSE_BRACKET: Bytes := [93]
  const OPEN_BRACE: Bytes := [123]
  const CLOSE_BRACE: Bytes := [125]
  const SEMICOLON: Bytes := [59]
  const EQUALS: Bytes := [61]

  predicate InText(m: Bytes, tokens: seq<Token>) {
    forall j :: 0 <= j < |tokens| ==> tokens[j].start <= tokens[j].end <= |m|
  }

  function Word(m: Bytes, t: Token): Bytes
    requires t.start <= t.end <= |m|
  {
    m[t.start..t.end]
  }

  predicate Identifier(w: Bytes) {
    w != [] && Letter(w[0]) && forall i :: 0 <= i < |w| ==> WordByte(w[i])
  }

  /** The bracket that closes an attribute. */
  function AttributeEnd(m: Bytes, tokens: seq<Token>, from: nat, depth: nat): (close: Option<nat>)
    requires InText(m, tokens)
    ensures close.Some? ==> from <= close.value < |tokens|
    decreases |tokens| - from
  {
    if from >= |tokens| then None
    else if Word(m, tokens[from]) == OPEN_BRACKET then AttributeEnd(m, tokens, from + 1, depth + 1)
    else if Word(m, tokens[from]) == CLOSE_BRACKET then
      if depth <= 1 then Some(from) else AttributeEnd(m, tokens, from + 1, depth - 1)
    else AttributeEnd(m, tokens, from + 1, depth)
  }

  function SemicolonAt(m: Bytes, tokens: seq<Token>, from: nat): (close: Option<nat>)
    requires InText(m, tokens)
    ensures close.Some? ==> from <= close.value < |tokens|
    decreases |tokens| - from
  {
    if from >= |tokens| then None
    else if Word(m, tokens[from]) == SEMICOLON then Some(from) else SemicolonAt(m, tokens, from + 1)
  }

  /** The name of a declaration: the next identifier before a brace, a semicolon or an equals sign. */
  function NameAt(m: Bytes, tokens: seq<Token>, from: nat): (name: Option<nat>)
    requires InText(m, tokens)
    ensures name.Some? ==> from <= name.value < |tokens|
    decreases |tokens| - from
  {
    if from >= |tokens| then None
    else if Identifier(Word(m, tokens[from])) then Some(from)
    else if Word(m, tokens[from]) in {OPEN_BRACE, SEMICOLON, EQUALS} then None
    else NameAt(m, tokens, from + 1)
  }

  method FindAttributeEnd(m: Bytes, tokens: seq<Token>, open: nat) returns (close: Option<nat>)
    requires InText(m, tokens) && open <= |tokens|
    ensures close == AttributeEnd(m, tokens, open, 0)
  {
    var depth: nat := 0;
    for index := open to |tokens|
      invariant AttributeEnd(m, tokens, open, 0) == AttributeEnd(m, tokens, index, depth)
    {
      var word := Word(m, tokens[index]);
      if word == OPEN_BRACKET {
        depth := depth + 1;
      } else if word == CLOSE_BRACKET {
        depth := if depth > 0 then depth - 1 else 0;
        if depth == 0 {
          return Some(index);
        }
      }
    }
    close := None;
  }

  method FindSemicolon(m: Bytes, tokens: seq<Token>, from: nat) returns (close: Option<nat>)
    requires InText(m, tokens) && from <= |tokens|
    ensures close == SemicolonAt(m, tokens, from)
  {
    for index := from to |tokens|
      invariant SemicolonAt(m, tokens, from) == SemicolonAt(m, tokens, index)
    {
      if Word(m, tokens[index]) == SEMICOLON {
        return Some(index);
      }
    }
    close := None;
  }

  method NextIdentifier(m: Bytes, tokens: seq<Token>, from: nat) returns (name: Option<nat>)
    requires InText(m, tokens) && from <= |tokens|
    ensures name == NameAt(m, tokens, from)
  {
    var index := from;
    while index < |tokens|
      invariant from <= index <= |tokens| && NameAt(m, tokens, from) == NameAt(m, tokens, index)
    {
      var text := Word(m, tokens[index]);
      if Identifier(text) {
        return Some(index);
      }
      if text in {OPEN_BRACE, SEMICOLON, EQUALS} {
        return None;
      }
      index := index + 1;
    }
    name := None;
  }

  /** Meanings point forward, at tokens that exist. */
  predicate PointsForward(tokens: seq<Token>, i: nat, meaning: Meaning) {
    match meaning
    case Attribute(close) => i < close < |tokens|
    case Import(close) => i < close < |tokens|
    case Declaration(name, kind) => i < name < |tokens|
    case _ => true
  }

  function Meant(m: Bytes, tokens: seq<Token>, index: nat): (meaning: Meaning)
    requires InText(m, tokens) && index < |tokens|
    ensures PointsForward(tokens, index, meaning)
  {
    var word := Word(m, tokens[index]);
    if word == [HASH] && index + 1 < |tokens| && Word(m, tokens[index + 1]) == OPEN_BRACKET
      && AttributeEnd(m, tokens, index + 1, 0).Some?
    then Attribute(AttributeEnd(m, tokens, index + 1, 0).value)
    else if word == USE && SemicolonAt(m, tokens, index + 1).Some?
    then Import(SemicolonAt(m, tokens, index + 1).value)
    else if word in DECLARATIONS then
      var name := NameAt(m, tokens, index + 1);
      if name.Some? then Declaration(name.value, if word == MOD then ModuleKind else FunctionOrType) else OtherToken
    else if word == IMPL then Impl
    else if word == OPEN_BRACE then OpenBrace
    else if word == CLOSE_BRACE then CloseBrace
    else if word == SEMICOLON then Semicolon
    else OtherToken
  }

  method ReadMeaning(m: Bytes, tokens: seq<Token>, index: nat) returns (meaning: Meaning)
    requires InText(m, tokens) && index < |tokens|
    ensures meaning == Meant(m, tokens, index)
  {
    hide AttributeEnd;
    hide SemicolonAt;
    hide NameAt;
    var word := Word(m, tokens[index]);
    if word == [HASH] && index + 1 < |tokens| && Word(m, tokens[index + 1]) == OPEN_BRACKET {
      var close := FindAttributeEnd(m, tokens, index + 1);
      if close.Some? {
        return Attribute(close.value);
      }
    }
    if word == USE {
      var close := FindSemicolon(m, tokens, index + 1);
      if close.Some? {
        return Import(close.value);
      }
    }
    if word in DECLARATIONS {
      var name := NextIdentifier(m, tokens, index + 1);
      return
        if name.Some? then Declaration(name.value, if word == MOD then ModuleKind else FunctionOrType)
        else OtherToken;
    }
    return
      if word == IMPL then Impl else if word == OPEN_BRACE then OpenBrace else if word == CLOSE_BRACE then CloseBrace
      else if word == SEMICOLON then Semicolon else OtherToken;
  }

  // ----- The walk -----

  datatype Span = Span(startLine: nat, endLine: nat, isModule: bool)

  /** The scope that the next brace opens, with the symbol it belongs to. */
  datatype Pending = PendingModule | PendingSymbol(symbol: Option<nat>) | PendingImpl

  const MAX_SYMBOLS_PER_FILE: nat := 512

  /** What a token, with those that are skipped after it, does to the walk. */
  datatype Mark =
    | Starts(isModule: bool, line: nat) | Uses(entries: nat, first: nat, last: nat) | Opens | Closes(line: nat)
    | ImplStarts | Breaks | Plain

  datatype Walk = Walk(spans: seq<Span>, scopes: seq<Option<nat>>, pending: Option<Pending>)

  const WALK_START := Walk([], [], None)

  function ScopeSymbol(spans: seq<Span>, pending: Option<Pending>): Option<nat> {
    match pending
    case None => None
    case Some(PendingImpl) => None
    case Some(PendingSymbol(symbol)) => symbol
    case Some(PendingModule) => if spans != [] && spans[|spans| - 1].isModule then Some(|spans| - 1) else None
  }

  /** A use declaration adds one symbol an entry, as long as there is room. */
  function WithImports(spans: seq<Span>, span: Span, entries: nat): (more: seq<Span>)
    ensures spans <= more && (|more| <= MAX_SYMBOLS_PER_FILE || more == spans)
    decreases entries
  {
    if entries == 0 || |spans| >= MAX_SYMBOLS_PER_FILE then spans else WithImports(spans + [span], span, entries - 1)
  }

  function StepWalk(w: Walk, mark: Mark): Walk {
    match mark
    case Starts(isModule, line) =>
      var room := |w.spans| < MAX_SYMBOLS_PER_FILE;
      Walk(
        if room then w.spans + [Span(line, line, isModule)] else w.spans, w.scopes,
        Some(if isModule then PendingModule else PendingSymbol(if room then Some(|w.spans|) else None)))
    case Uses(entries, first, last) => Walk(WithImports(w.spans, Span(first, last, false), entries), w.scopes, None)
    case Opens => Walk(w.spans, w.scopes + [ScopeSymbol(w.spans, w.pending)], None)
    case Closes(line) =>
      if w.scopes == [] then w.(pending := None)
      else
        var n := |w.scopes| - 1;
        var symbol := w.scopes[n];
        Walk(
          if symbol.Some? && symbol.value < |w.spans|
          then w.spans[symbol.value := w.spans[symbol.value].(endLine := line)] else w.spans,
          w.scopes[..n], None)
    case ImplStarts => w.(pending := Some(PendingImpl))
    case Breaks => w.(pending := None)
    case Plain => w
  }

  function Play(w: Walk, marks: seq<Mark>): Walk
    decreases |marks|
  {
    if marks == [] then w else Play(StepWalk(w, marks[0]), marks[1..])
  }

  function MarkOf(tokens: seq<Token>, imports: nat -> nat, index: nat, meaning: Meaning): Mark
    requires index < |tokens| && PointsForward(tokens, index, meaning)
  {
    match meaning
    case Attribute(_) => Plain
    case Import(close) => Uses(imports(index), tokens[index].line, tokens[close].line)
    case Declaration(_, kind) => Starts(kind == ModuleKind, tokens[index].line)
    case Impl => ImplStarts
    case OpenBrace => Opens
    case CloseBrace => Closes(tokens[index].line)
    case Semicolon => Breaks
    case OtherToken => Plain
  }

  function NextIndex(index: nat, meaning: Meaning): (next: nat)
  {
    match meaning
    case Attribute(close) => close + 1
    case Import(close) => close + 1
    case Declaration(name, _) => name + 1
    case _ => index + 1
  }

  /** The marks of the tokens from some index on; `imports` says how many entries the use
      declaration at a token has. */
  function Marks(m: Bytes, tokens: seq<Token>, imports: nat -> nat, index: nat): seq<Mark>
    requires InText(m, tokens)
    decreases |tokens| - index
  {
    if index >= |tokens| then []
    else
      var meaning := Meant(m, tokens, index);
      [MarkOf(tokens, imports, index, meaning)] + Marks(m, tokens, imports, NextIndex(index, meaning))
  }

  /** The symbols of a file, as far as their lines go. */
  function Spans(marks: seq<Mark>): seq<Span> {
    Play(WALK_START, marks).spans
  }

  predicate LinesGrow(tokens: seq<Token>) {
    forall i, j :: 0 <= i <= j < |tokens| ==> tokens[i].line <= tokens[j].line
  }

  /** Both lines are lines of tokens before some index, the first not after the second. */
  predicate SpansTokens(tokens: seq<Token>, upTo: nat, span: Span) {
    exists i, j :: 0 <= i <= j < upTo && j < |tokens|
      && span.startLine == tokens[i].line && span.endLine == tokens[j].line
  }

  predicate AllSpanTokens(tokens: seq<Token>, upTo: nat, spans: seq<Span>) {
    forall k :: 0 <= k < |spans| ==> SpansTokens(tokens, upTo, spans[k])
  }

  lemma WiderSpans(tokens: seq<Token>, a: nat, b: nat, spans: seq<Span>)
    requires a <= b && AllSpanTokens(tokens, a, spans)
    ensures AllSpanTokens(tokens, b, spans)
  {
    forall k | 0 <= k < |spans| ensures SpansTokens(tokens, b, spans[k]) {
      assert SpansTokens(tokens, a, spans[k]);
    }
  }

  lemma EndsLater(tokens: seq<Token>, index: nat, span: Span)
    requires index < |tokens| && SpansTokens(tokens, index + 1, span)
    ensures SpansTokens(tokens, index + 1, span.(endLine := tokens[index].line))
  {
    var i, j :| 0 <= i <= j < index + 1 && j < |tokens|
      && span.startLine == tokens[i].line && span.endLine == tokens[j].line;
    assert tokens[i].line == span.startLine && i <= index;
  }

  method AddImports(span: Span, entries: nat, before: seq<Span>) returns (spans: seq<Span>)
    ensures spans == WithImports(before, span, entries)
  {
    spans := before;
    for n := 0 to entries
      invariant WithImports(before, span, entries) == WithImports(spans, span, entries - n)
    {
      if |spans| >= MAX_SYMBOLS_PER_FILE {
        break;
      }
      spans := spans + [span];
    }
  }

  lemma MarksUnfold(m: Bytes, tokens: seq<Token>, imports: nat -> nat, index: nat, w: Walk)
    requires InText(m, tokens) && index < |tokens|
    ensures var meaning := Meant(m, tokens, index);
      Play(w, Marks(m, tokens, imports, index)) ==
        Play(StepWalk(w, MarkOf(tokens, imports, index, meaning)),
             Marks(m, tokens, imports, NextIndex(index, meaning)))
  {
    hide Meant;
    hide StepWalk;
    var meaning := Meant(m, tokens, index);
    var mark, later := MarkOf(tokens, imports, index, meaning), Marks(m, tokens, imports, NextIndex(index, meaning));
    assert ([mark] + later)[1..] == later;
  }

  /** The parser's walk over the tokens, as far as it sets the lines of symbols. */
  method SymbolLines(m: Bytes, tokens: seq<Token>, imports: nat -> nat) returns (spans: seq<Span>)
    requires InText(m, tokens)
    ensures spans == Spans(Marks(m, tokens, imports, 0))
  {
    hide Meant;
    hide Word;
    hide Play;
    hide WithImports;
    spans := [];
    var scopes: seq<Option<nat>> := [];
    var pending: Option<Pending> := None;
    var index: nat := 0;
    while index < |tokens|
      invariant Play(WALK_START, Marks(m, tokens, imports, 0))
        == Play(Walk(spans, scopes, pending), Marks(m, tokens, imports, index))
      decreases |tokens| - index
    {
      MarksUnfold(m, tokens, imports, index, Walk(spans, scopes, pending));
      var line := tokens[index].line;
      var meaning := ReadMeaning(m, tokens, index);
      match meaning {
        case Attribute(close) =>
          index := close;
        case Import(close) =>
          spans := AddImports(Span(line, tokens[close].line, false), imports(index), spans);
          pending := None;
          index := close;
        case Declaration(name, kind) =>
          var symbol := None;
          if |spans| < MAX_SYMBOLS_PER_FILE {
            symbol := Some(|spans|);
            spans := spans + [Span(line, line, kind == ModuleKind)];
          }
          pending := Some(if kind == ModuleKind then PendingModule else PendingSymbol(symbol));
          index := name;
        case Impl =>
          pending := Some(PendingImpl);
        case OpenBrace =>
          scopes := scopes + [ScopeSymbol(spans, pending)];
          pending := None;
        case CloseBrace =>
          if scopes != [] {
            var symbol := scopes[|scopes| - 1];
            scopes := scopes[..|scopes| - 1];
            if symbol.Some? && symbol.value < |spans| {
              spans := spans[symbol.value := spans[symbol.value].(endLine := line)];
            }
          }
          pending := None;
        case Semicolon =>
          pending := None;
        case OtherToken =>
      }
      index := index + 1;
    }
    PlayNothing(Walk(spans, scopes, pending));
  }

  lemma PlayNothing(w: Walk)
    ensures Play(w, []) == w
  {
  }

  lemma {:induction false} TokenLinesGrow(s: Bytes, i: nat, line: nat, room: nat)
    requires i <= |s|
    ensures LinesGrow(Tokens(s, i, line, room))
    ensures forall j :: 0 <= j < |Tokens(s, i, line, room)| ==> Tokens(s, i, line, room)[j].line >= line
    decreases |s| - i
  {
    if i < |s| && room > 0 {
      if Whitespace(s[i]) {
        TokenLinesGrow(s, i + 1, if s[i] == NEWLINE then line + 1 else line, room);
      } else {
        TokenLinesGrow(s, TokenEnd(s, i), line, room - 1);
      }
    }
  }

  /** So a symbol never ends before it starts, and both lines exist in the source. */
  lemma SymbolLinesAreSourceLines(s: Bytes, span: Span)
    requires var ts := Tokens(Mask(s), 0, 1, MAX_TOKENS); SpansTokens(ts, |ts|, span)
    ensures 1 <= span.startLine <= span.endLine <= 1 + Newlines(s, 0, |s|)
  {
    var ts := Tokens(Mask(s), 0, 1, MAX_TOKENS);
    var i, j :| 0 <= i <= j < |ts| && span.startLine == ts[i].line && span.endLine == ts[j].line;
    TokenLinesGrow(Mask(s), 0, 1, MAX_TOKENS);
    TokenLinesAreSourceLines(s, j);
    NewlinesSplit(s, 0, ts[j].start, |s|);
  }

  lemma TokensAreInText(s: Bytes)
    ensures InText(s, Tokens(s, 0, 1, MAX_TOKENS))
  {
    var ts := Tokens(s, 0, 1, MAX_TOKENS);
    forall j | 0 <= j < |ts| ensures ts[j].start <= ts[j].end <= |s| {
      TokensEndEarly(s, 0, 1, MAX_TOKENS, j);
    }
  }

  lemma {:induction false} ImportsSpan(
    tokens: seq<Token>, upTo: nat, spans: seq<Span>, span: Span, entries: nat)
    requires AllSpanTokens(tokens, upTo, spans) && SpansTokens(tokens, upTo, span)
    ensures AllSpanTokens(tokens, upTo, WithImports(spans, span, entries))
    decreases entries
  {
    hide SpansTokens;
    if entries > 0 && |spans| < MAX_SYMBOLS_PER_FILE {
      ImportsSpan(tokens, upTo, spans + [span], span, entries - 1);
    }
  }

  lemma StepSpansTokens(tokens: seq<Token>, imports: nat -> nat, index: nat, meaning: Meaning, w: Walk)
    requires index < |tokens| && PointsForward(tokens, index, meaning) && AllSpanTokens(tokens, index, w.spans)
    ensures AllSpanTokens(
      tokens, NextIndex(index, meaning), StepWalk(w, MarkOf(tokens, imports, index, meaning)).spans)
  {
    var next := NextIndex(index, meaning);
    WiderSpans(tokens, index, index + 1, w.spans);
    WiderSpans(tokens, index, next, w.spans);
    match meaning
    case Import(close) =>
      var span := Span(tokens[index].line, tokens[close].line, false);
      assert SpansTokens(tokens, next, span);
      ImportsSpan(tokens, next, w.spans, span, imports(index));
    case Declaration(_, kind) =>
      assert SpansTokens(tokens, next, Span(tokens[index].line, tokens[index].line, kind == ModuleKind));
    case CloseBrace =>
      if w.scopes != [] && w.scopes[|w.scopes| - 1].Some? && w.scopes[|w.scopes| - 1].value < |w.spans| {
        EndsLater(tokens, index, w.spans[w.scopes[|w.scopes| - 1].value]);
      }
    case _ =>
  }

  lemma {:induction false} PlaySpansTokens(m: Bytes, tokens: seq<Token>, imports: nat -> nat, index: nat, w: Walk)
    requires InText(m, tokens) && AllSpanTokens(tokens, if index < |tokens| then index else |tokens|, w.spans)
    ensures AllSpanTokens(tokens, |tokens|, Play(w, Marks(m, tokens, imports, index)).spans)
    decreases |tokens| - index
  {
    hide Meant;
    hide StepWalk;
    hide Play;
    hide MarkOf;
    hide SpansTokens;
    if index >= |tokens| {
      PlayNothing(w);
    } else {
      var meaning := Meant(m, tokens, index);
      MarksUnfold(m, tokens, imports, index, w);
      StepSpansTokens(tokens, imports, index, meaning, w);
      PlaySpansTokens(
        m, tokens, imports, NextIndex(index, meaning), StepWalk(w, MarkOf(tokens, imports, index, meaning)));
    }
  }

  /** Mask, tokens and symbols of a source: the lines of every symbol are lines of the source, the
      last not before the first. */
  method ParseSymbolLines(s: Bytes, imports: nat -> nat) returns (spans: seq<Span>)
    ensures InText(Mask(s), Tokens(Mask(s), 0, 1, MAX_TOKENS))
    ensures spans == Spans(Marks(Mask(s), Tokens(Mask(s), 0, 1, MAX_TOKENS), imports, 0))
    ensures forall k :: 0 <= k < |spans| ==> 1 <= spans[k].startLine <= spans[k].endLine <= 1 + Newlines(s, 0, |s|)
  {
    hide Tokens;
    hide Mask;
    hide SpansTokens;
    hide Play;
    hide Marks;
    var masked := MaskRust(s);
    var tokens := Tokenize(masked);
    TokensAreInText(masked);
    spans := SymbolLines(masked, tokens, imports);
    PlaySpansTokens(masked, tokens, imports, 0, WALK_START);
    forall k | 0 <= k < |spans|
      ensures 1 <= spans[k].startLine <= spans[k].endLine <= 1 + Newlines(s, 0, |s|)
    {
      SymbolLinesAreSourceLines(s, spans[k]);
    }
  }

  // ----- Which symbols there are -----

  /** Where a symbol starts, and whether it is a module. */
  datatype Head = Head(line: nat, isModule: bool)

  function HeadsOf(mark: Mark): seq<Head> {
    match mark
    case Starts(isModule, line) => [Head(line, isModule)]
    case Uses(entries, first, _) => seq(entries, _ => Head(first, false))
    case _ => []
  }

  /** All declarations and imported names, in order. */
  function Declared(marks: seq<Mark>): seq<Head> {
    if marks == [] then [] else HeadsOf(marks[0]) + Declared(marks[1..])
  }

  function Heads(spans: seq<Span>): (hs: seq<Head>)
    ensures |hs| == |spans|
  {
    seq(|spans|, k requires 0 <= k < |spans| => Head(spans[k].startLine, spans[k].isModule))
  }

  function FirstOf(hs: seq<Head>, n: nat): seq<Head> {
    if |hs| <= n then hs else hs[..n]
  }

  lemma {:induction false} HeadsOfImports(spans: seq<Span>, span: Span, entries: nat)
    requires |spans| <= MAX_SYMBOLS_PER_FILE
    ensures Heads(WithImports(spans, span, entries)) ==
      Heads(spans) + FirstOf(seq(entries, _ => Head(span.startLine, span.isModule)), MAX_SYMBOLS_PER_FILE - |spans|)
    decreases entries
  {
    if entries > 0 && |spans| < MAX_SYMBOLS_PER_FILE {
      HeadsOfImports(spans + [span], span, entries - 1);
      assert Heads(spans + [span]) == Heads(spans) + [Head(span.startLine, span.isModule)];
    }
  }

  lemma HeadsOfStep(w: Walk, mark: Mark)
    requires |w.spans| <= MAX_SYMBOLS_PER_FILE
    ensures |StepWalk(w, mark).spans| <= MAX_SYMBOLS_PER_FILE
    ensures Heads(StepWalk(w, mark).spans) == Heads(w.spans) + FirstOf(HeadsOf(mark), MAX_SYMBOLS_PER_FILE - |w.spans|)
  {
    if mark.Uses? {
      HeadsOfImports(w.spans, Span(mark.first, mark.last, false), mark.entries);
    }
  }

  lemma {:induction false} HeadsOfPlay(w: Walk, marks: seq<Mark>)
    requires |w.spans| <= MAX_SYMBOLS_PER_FILE
    ensures Heads(Play(w, marks).spans) == Heads(w.spans) + FirstOf(Declared(marks), MAX_SYMBOLS_PER_FILE - |w.spans|)
    decreases |marks|
  {
    hide StepWalk;
    hide HeadsOf;
    if marks != [] {
      HeadsOfStep(w, marks[0]);
      HeadsOfPlay(StepWalk(w, marks[0]), marks[1..]);
      var room := MAX_SYMBOLS_PER_FILE - |w.spans|;
      assert |Heads(StepWalk(w, marks[0]).spans)| == |w.spans| + |FirstOf(HeadsOf(marks[0]), room)|;
      FirstOfTwo(HeadsOf(marks[0]), Declared(marks[1..]), room);
    }
  }

  lemma FirstOfTwo(a: seq<Head>, b: seq<Head>, n: nat)
    ensures FirstOf(a + b, n) == FirstOf(a, n) + FirstOf(b, n - |FirstOf(a, n)|)
  {
  }

  /** The symbols are the declarations and imported names, in order, as far as there is room. */
  lemma SymbolsAreDeclared(marks: seq<Mark>)
    ensures Heads(Spans(marks)) == FirstOf(Declared(marks), MAX_SYMBOLS_PER_FILE)
  {
    HeadsOfPlay(WALK_START, marks);
  }

  // ----- Where symbols end -----

  /** The line of the brace that closes the block in which these marks start. */
  function ClosingLine(marks: seq<Mark>, depth: nat): Option<nat> {
    if marks == [] then None
    else if marks[0].Opens? then ClosingLine(marks[1..], depth + 1)
    else if marks[0].Closes? then
      if depth == 0 then Some(marks[0].line) else ClosingLine(marks[1..], depth - 1)
    else ClosingLine(marks[1..], depth)
  }

  /** The line on which a declaration that is followed by these marks ends: that of the brace that
      closes its body, if nothing but plain tokens stands before its body. */
  function EndLine(marks: seq<Mark>, line: nat): nat {
    if marks == [] then line
    else if marks[0].Plain? then EndLine(marks[1..], line)
    else if marks[0].Opens? && ClosingLine(marks[1..], 0).Some? then ClosingLine(marks[1..], 0).value
    else line
  }

  /** There is room for all symbols. */
  predicate Fit(w: Walk, marks: seq<Mark>) {
    |w.spans| + |Declared(marks)| <= MAX_SYMBOLS_PER_FILE
  }

  /** No module that finds no room is taken for symbol k: there is room for all symbols, or k is
      not the last symbol there is room for, or no module. */
  predicate Safe(w: Walk, marks: seq<Mark>, k: nat) {
    && k < |w.spans| <= MAX_SYMBOLS_PER_FILE
    && (Fit(w, marks) || k + 1 < MAX_SYMBOLS_PER_FILE || !w.spans[k].isModule)
  }

  /** The next brace does not open a scope of symbol k. */
  predicate NotPending(w: Walk, k: nat)
    requires k < |w.spans|
  {
    && w.pending != Some(PendingSymbol(Some(k)))
    && (w.pending == Some(PendingModule) ==> k + 1 < |w.spans| || !w.spans[k].isModule)
  }

  predicate NoScopeOf(scopes: seq<Option<nat>>, k: nat) {
    forall j :: 0 <= j < |scopes| ==> scopes[j] != Some(k)
  }

  /** Symbol k is complete: no scope is or will be its own. */
  predicate Apart(w: Walk, k: nat) {
    k < |w.spans| && NoScopeOf(w.scopes, k) && NotPending(w, k)
  }

  /** The scope of symbol k is open, with `depth` others inside. */
  predicate Inside(w: Walk, k: nat, depth: nat) {
    && k < |w.spans| && NotPending(w, k) && depth < |w.scopes|
    && var h := |w.scopes| - 1 - depth;
       w.scopes[h] == Some(k) && NoScopeOf(w.scopes[..h], k) && NoScopeOf(w.scopes[h + 1..], k)
  }

  /** Symbol k was declared last, and the next brace opens its scope. */
  predicate JustDeclared(w: Walk, k: nat) {
    && k + 1 == |w.spans| && NoScopeOf(w.scopes, k)
    && (w.pending == Some(PendingSymbol(Some(k))) || (w.pending == Some(PendingModule) && w.spans[k].isModule))
  }

  lemma FitStep(w: Walk, marks: seq<Mark>)
    requires Fit(w, marks) && marks != []
    ensures Fit(StepWalk(w, marks[0]), marks[1..])
    ensures |w.spans| <= |StepWalk(w, marks[0]).spans| == |w.spans| + |HeadsOf(marks[0])|
    ensures marks[0].Starts? ==> |w.spans| < MAX_SYMBOLS_PER_FILE
  {
    hide WithImports;
    HeadsOfStep(w, marks[0]);
  }

  lemma SafeStep(w: Walk, marks: seq<Mark>, k: nat)
    requires Safe(w, marks, k) && marks != []
    ensures Safe(StepWalk(w, marks[0]), marks[1..], k)
    ensures |w.spans| <= |StepWalk(w, marks[0]).spans|
  {
    hide WithImports;
    HeadsOfStep(w, marks[0]);
    assert Heads(StepWalk(w, marks[0]).spans)[k].isModule == Heads(w.spans)[k].isModule;
  }

  lemma ApartStep(w: Walk, marks: seq<Mark>, k: nat)
    requires Safe(w, marks, k) && marks != [] && Apart(w, k)
    ensures Apart(StepWalk(w, marks[0]), k) && StepWalk(w, marks[0]).spans[k] == w.spans[k]
  {
    hide WithImports;
    SafeStep(w, marks, k);
  }

  lemma {:induction false} ApartStays(w: Walk, marks: seq<Mark>, k: nat)
    requires Safe(w, marks, k) && Apart(w, k)
    ensures k < |Play(w, marks).spans| && Play(w, marks).spans[k] == w.spans[k]
    decreases |marks|
  {
    hide StepWalk;
    hide Safe;
    hide Apart;
    if marks != [] {
      ApartStep(w, marks, k);
      SafeStep(w, marks, k);
      ApartStays(StepWalk(w, marks[0]), marks[1..], k);
    } else {
      ApartIsThere(w, k);
    }
  }

  lemma ApartIsThere(w: Walk, k: nat)
    requires Apart(w, k)
    ensures k < |w.spans|
  {
  }

  lemma OpensInside(w: Walk, k: nat, depth: nat)
    requires Inside(w, k, depth)
    ensures Inside(StepWalk(w, Opens), k, depth + 1) && StepWalk(w, Opens).spans == w.spans
  {
    var h, t := |w.scopes| - 1 - depth, StepWalk(w, Opens);
    assert t.scopes[..h] == w.scopes[..h];
    assert t.scopes[h + 1..] == w.scopes[h + 1..] + [ScopeSymbol(w.spans, w.pending)];
  }

  lemma ClosesInside(w: Walk, k: nat, depth: nat, line: nat)
    requires Inside(w, k, depth)
    ensures var t := StepWalk(w, Closes(line));
      if depth == 0 then Apart(t, k) && t.spans[k] == w.spans[k].(endLine := line)
      else Inside(t, k, depth - 1) && t.spans[k] == w.spans[k]
  {
    var h, t := |w.scopes| - 1 - depth, StepWalk(w, Closes(line));
    if depth == 0 {
      assert t.scopes == w.scopes[..h];
    } else {
      assert t.scopes[..h] == w.scopes[..h];
      assert t.scopes[h + 1..] == w.scopes[h + 1..][..depth - 1];
      assert w.scopes[|w.scopes| - 1] == w.scopes[h + 1..][depth - 1];
    }
  }

  lemma OtherInside(w: Walk, marks: seq<Mark>, k: nat, depth: nat)
    requires Safe(w, marks, k) && marks != [] && Inside(w, k, depth) && !marks[0].Opens? && !marks[0].Closes?
    ensures Inside(StepWalk(w, marks[0]), k, depth) && StepWalk(w, marks[0]).spans[k] == w.spans[k]
  {
    hide WithImports;
    SafeStep(w, marks, k);
  }

  lemma InsideStep(w: Walk, marks: seq<Mark>, k: nat, depth: nat)
    requires Safe(w, marks, k) && marks != [] && Inside(w, k, depth)
    ensures k < |w.spans| <= |StepWalk(w, marks[0]).spans|
    ensures var mark, t := marks[0], StepWalk(w, marks[0]);
      if mark.Closes? && depth == 0 then Apart(t, k) && t.spans[k] == w.spans[k].(endLine := mark.line)
      else
        && Inside(t, k, if mark.Opens? then depth + 1 else if mark.Closes? then depth - 1 else depth)
        && t.spans[k] == w.spans[k]
  {
    hide StepWalk;
    hide Apart;
    hide Safe;
    SafeStep(w, marks, k);
    if marks[0].Opens? {
      OpensInside(w, k, depth);
    } else if marks[0].Closes? {
      ClosesInside(w, k, depth, marks[0].line);
    } else {
      OtherInside(w, marks, k, depth);
    }
  }

  lemma {:induction false} InsidePlay(w: Walk, marks: seq<Mark>, k: nat, depth: nat)
    requires Safe(w, marks, k) && Inside(w, k, depth)
    ensures k < |w.spans| && k < |Play(w, marks).spans|
    ensures var end := ClosingLine(marks, depth);
      Play(w, marks).spans[k] == if end.Some? then w.spans[k].(endLine := end.value) else w.spans[k]
    decreases |marks|
  {
    hide StepWalk;
    hide Safe;
    hide Apart;
    if marks != [] {
      InsideStep(w, marks, k, depth);
      SafeStep(w, marks, k);
      var t, mark := StepWalk(w, marks[0]), marks[0];
      if mark.Closes? && depth == 0 {
        ApartStays(t, marks[1..], k);
      } else {
        InsidePlay(t, marks[1..], k, if mark.Opens? then depth + 1 else if mark.Closes? then depth - 1 else depth);
      }
    }
  }

  lemma DeclaredStep(w: Walk, marks: seq<Mark>, k: nat)
    requires Safe(w, marks, k) && marks != [] && JustDeclared(w, k) && !marks[0].Plain?
    ensures var t := StepWalk(w, marks[0]);
      && (if marks[0].Opens? then Inside(t, k, 0) else Apart(t, k))
      && t.spans[k] == w.spans[k]
  {
    hide WithImports;
    SafeStep(w, marks, k);
    var t := StepWalk(w, marks[0]);
    if marks[0].Opens? {
      assert t.scopes[..|w.scopes|] == w.scopes && t.scopes[|w.scopes| + 1..] == [];
    }
  }

  lemma {:induction false} DeclaredPlay(w: Walk, marks: seq<Mark>, k: nat)
    requires Safe(w, marks, k) && JustDeclared(w, k)
    ensures k < |w.spans| && k < |Play(w, marks).spans|
    ensures Play(w, marks).spans[k] == w.spans[k].(endLine := EndLine(marks, w.spans[k].endLine))
    decreases |marks|
  {
    hide Safe;
    hide Apart;
    hide Inside;
    if marks != [] {
      SafeStep(w, marks, k);
      if marks[0].Plain? {
        DeclaredPlay(w, marks[1..], k);
      } else {
        DeclaredStep(w, marks, k);
        if marks[0].Opens? {
          InsidePlay(StepWalk(w, marks[0]), marks[1..], k, 0);
        } else {
          ApartStays(StepWalk(w, marks[0]), marks[1..], k);
        }
      }
    }
  }

  /** Scopes belong to symbols that exist. */
  predicate ScopesKnown(w: Walk) {
    && (forall j :: 0 <= j < |w.scopes| && w.scopes[j].Some? ==> w.scopes[j].value < |w.spans|)
    && (w.pending.Some? && w.pending.value.PendingSymbol? && w.pending.value.symbol.Some? ==>
          w.pending.value.symbol.value < |w.spans|)
  }

  lemma {:induction false} PlayKnown(w: Walk, marks: seq<Mark>)
    requires ScopesKnown(w) && Fit(w, marks)
    ensures ScopesKnown(Play(w, marks)) && |Play(w, marks).spans| == |w.spans| + |Declared(marks)|
    decreases |marks|
  {
    hide StepWalk;
    hide ScopesKnown;
    hide Fit;
    hide HeadsOf;
    if marks != [] {
      FitStep(w, marks);
      StepKnown(w, marks);
      PlayKnown(StepWalk(w, marks[0]), marks[1..]);
    }
  }

  lemma StepKnown(w: Walk, marks: seq<Mark>)
    requires ScopesKnown(w) && Fit(w, marks) && marks != []
    ensures ScopesKnown(StepWalk(w, marks[0]))
  {
    hide WithImports;
    FitStep(w, marks);
  }

  lemma {:induction false} PlayConcat(w: Walk, a: seq<Mark>, b: seq<Mark>)
    ensures Play(w, a + b) == Play(Play(w, a), b)
    ensures Declared(a + b) == Declared(a) + Declared(b)
    decreases |a|
  {
    hide StepWalk;
    hide HeadsOf;
    if a == [] {
      assert a + b == b;
    } else {
      PlayConcat(StepWalk(w, a[0]), a[1..], b);
      assert (a + b)[1..] == a[1..] + b;
    }
  }

  /** The symbol of a declaration ends with the brace that closes its body; a declaration without a
      body, or with an `impl` or a semicolon before it, ends on the line on which it starts.  So it
      is for every symbol there is room for, except that a module in the last place keeps its end
      only if nothing is declared after it. */
  lemma SymbolEndsWithItsBody(before: seq<Mark>, isModule: bool, line: nat, after: seq<Mark>)
    requires var k, all := |Declared(before)|, |Declared(before + [Starts(isModule, line)] + after)|;
      k < MAX_SYMBOLS_PER_FILE && (all <= MAX_SYMBOLS_PER_FILE || k + 1 < MAX_SYMBOLS_PER_FILE || !isModule)
    ensures var spans, k := Spans(before + [Starts(isModule, line)] + after), |Declared(before)|;
      k < |spans| && spans[k] == Span(line, EndLine(after, line), isModule)
  {
    hide EndLine;
    var mark := Starts(isModule, line);
    var rest := [mark] + after;
    assert before + [mark] + after == before + rest && rest[0] == mark && rest[1..] == after;
    PlayConcat(WALK_START, before, rest);
    assert Declared(rest) == [Head(line, isModule)] + Declared(after);
    PlayKnown(WALK_START, before);
    var w := Play(WALK_START, before);
    DeclaredPlay(StepWalk(w, mark), after, |w.spans|);
  }

  lemma {:induction false} ImportsAt(spans: seq<Span>, span: Span, entries: nat, e: nat)
    requires e < entries && |spans| + e < MAX_SYMBOLS_PER_FILE
    ensures var more := WithImports(spans, span, entries); |spans| + e < |more| && more[|spans| + e] == span
    decreases entries
  {
    if e == 0 {
      assert (spans + [span])[|spans|] == span;
    } else {
      ImportsAt(spans + [span], span, entries - 1, e - 1);
    }
  }

  lemma ImportsAreApart(w: Walk, mark: Mark, e: nat)
    requires mark.Uses? && e < mark.entries && |w.spans| + e < MAX_SYMBOLS_PER_FILE && ScopesKnown(w)
    ensures var t, k := StepWalk(w, mark), |w.spans| + e;
      k < |t.spans| && t.spans[k] == Span(mark.first, mark.last, false) && Apart(t, k)
  {
    hide WithImports;
    ImportsAt(w.spans, Span(mark.first, mark.last, false), mark.entries, e);
  }

  /** The symbols of a use declaration keep its lines, as far as there is room for them. */
  lemma ImportKeepsItsLines(before: seq<Mark>, mark: Mark, after: seq<Mark>, e: nat)
    requires mark.Uses? && e < mark.entries && |Declared(before)| + e < MAX_SYMBOLS_PER_FILE
    ensures var spans, k := Spans(before + [mark] + after), |Declared(before)| + e;
      k < |spans| && spans[k] == Span(mark.first, mark.last, false)
  {
    hide StepWalk;
    hide Apart;
    var rest := [mark] + after;
    assert before + [mark] + after == before + rest && rest[0] == mark && rest[1..] == after;
    PlayConcat(WALK_START, before, rest);
    PlayKnown(WALK_START, before);
    var w := Play(WALK_START, before);
    HeadsOfPlay(WALK_START, before);
    ImportsAreApart(w, mark, e);
    HeadsOfStep(w, mark);
    ApartStays(StepWalk(w, mark), after, |w.spans| + e);
  }

  /** A function on lines 1 and 2 with an `impl` among its parameters is reported to end on line 1. */
  lemma ImplParameterHidesTheBody()
    ensures Spans([Starts(false, 1), ImplStarts, Opens, Closes(2)]) == [Span(1, 1, false)]
  {
    var after := [ImplStarts, Opens, Closes(2)];
    var marks := [] + [Starts(false, 1)] + after;
    assert marks == [Starts(false, 1), ImplStarts, Opens, Closes(2)];
    assert marks[1..] == after && Declared(after[1..]) == [] && Declared([]) == [];
    assert Declared(marks) == [Head(1, false)];
    SymbolEndsWithItsBody([], false, 1, after);
    SymbolsAreDeclared(marks);
  }

  const LAST: nat := MAX_SYMBOLS_PER_FILE - 1

  function Functions(n: nat): seq<Mark> {
    seq(n, _ => Starts(false, 1))
  }

  lemma {:induction false} FunctionsDeclared(n: nat)
    ensures |Declared(Functions(n))| == n
  {
    if n > 0 {
      assert Functions(n)[1..] == Functions(n - 1);
      FunctionsDeclared(n - 1);
    }
  }

  lemma {:induction false} FunctionsOpenNothing(w: Walk, n: nat)
    ensures Play(w, Functions(n)).scopes == w.scopes
    decreases n
  {
    if n > 0 {
      assert Functions(n)[1..] == Functions(n - 1);
      FunctionsOpenNothing(StepWalk(w, Functions(n)[0]), n - 1);
    }
  }

  /** A module in the last place, on lines 1 and 2, and another one after it, on lines 3 and 4: the
      first one is reported to end on line 4. */
  lemma LastModuleEndsWithAnother()
    ensures var body, other := [Opens, Closes(2)], [Starts(true, 3), Opens, Closes(4)];
      var spans := Spans(Functions(LAST) + [Starts(true, 1)] + (body + other));
      && |Declared(Functions(LAST))| == LAST < |spans|
      && spans[LAST].endLine == 4 != EndLine(body + other, 1)
  {
    var fs, body, other := Functions(LAST), [Opens, Closes(2)], [Starts(true, 3), Opens, Closes(4)];
    var first := Starts(true, 1);
    FunctionsDeclared(LAST);
    FunctionsOpenNothing(WALK_START, LAST);
    PlayKnown(WALK_START, fs);
    var w := Play(WALK_START, fs);
    var rest := [first] + (body + other);
    assert fs + [first] + (body + other) == fs + rest;
    PlayConcat(WALK_START, fs, rest);
    LastModule(w, rest);
    var after := body + other;
    assert after[0] == Opens && after[1..][0] == Closes(2);
    assert ClosingLine(after[1..], 0) == Some(2);
  }

  lemma LastModule(w: Walk, marks: seq<Mark>)
    requires |w.spans| == LAST && w.scopes == []
    requires marks == [Starts(true, 1), Opens, Closes(2), Starts(true, 3), Opens, Closes(4)]
    ensures var spans := Play(w, marks).spans; |spans| == LAST + 1 && spans[LAST].endLine == 4
  {
    var a := StepWalk(w, Starts(true, 1));
    var b := StepWalk(StepWalk(a, Opens), Closes(2));
    var c := StepWalk(b, Starts(true, 3));
    var d := StepWalk(StepWalk(c, Opens), Closes(4));
    assert b.spans[LAST] == Span(1, 2, true) && b.scopes == [];
    assert c.spans == b.spans && d.spans[LAST].endLine == 4;
    PlaySix(w, marks[0], marks[1], marks[2], marks[3], marks[4], marks[5]);
  }

  lemma PlaySix(w: Walk, a: Mark, b: Mark, c: Mark, d: Mark, e: Mark, f: Mark)
    ensures Play(w, [a, b, c, d, e, f])
      == StepWalk(StepWalk(StepWalk(StepWalk(StepWalk(StepWalk(w, a), b), c), d), e), f)
  {
    hide StepWalk;
    PlayConcat(w, [a, b, c], [d, e, f]);
    assert [a, b, c] + [d, e, f] == [a, b, c, d, e, f];
    PlayThree(w, a, b, c);
    PlayThree(Play(w, [a, b, c]), d, e, f);
  }

  lemma PlayThree(w: Walk, a: Mark, b: Mark, c: Mark)
    ensures Play(w, [a, b, c]) == StepWalk(StepWalk(StepWalk(w, a), b), c)
  {
    hide StepWalk;
    assert [a, b, c][1..] == [b, c] && [b, c][1..] == [c] && [c][1..] == [];
    assert Play(StepWalk(w, a), [b, c]) == Play(StepWalk(StepWalk(w, a), b), [c]);
  }
}
