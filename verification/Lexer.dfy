/**
 The lexer of src/lib/JSLexer.cpp: a cursor over the source, and what it makes of the source as a
 function of position.
 */
module Lexer {
  import opened Values
  import opened Syntax

  predicate IsAlpha(c: char) {
    'a' <= c <= 'z' || 'A' <= c <= 'Z' || c == '_'
  }

  predicate IsDigit(c: char) {
    '0' <= c <= '9'
  }

  predicate IsAlphaNumeric(c: char) {
    IsAlpha(c) || IsDigit(c)
  }

  predicate IsBlank(c: char) {
    c == ' ' || c == '\r' || c == '\t' || c == '\n'
  }

  function Keywords(): map<string, Kind> {
    map[
      "break" := Break, "case" := Case, "catch" := Catch, "class" := Class, "const" := Const,
      "continue" := Continue, "default" := Default, "delete" := Delete, "do" := Do, "else" := Else,
      "export" := Export, "extends" := Extends, "for" := For, "function" := Function, "if" := If,
      "import" := Import, "in" := In, "instanceof" := InstanceOf, "let" := Let, "new" := New,
      "of" := Of, "return" := Return, "super" := Super, "switch" := Switch, "this" := This,
      "throw" := Throw, "try" := Try, "typeof" := TypeOf, "var" := Var, "void" := Void,
      "while" := While, "true" := True, "false" := False, "undefined" := UndefinedTok,
      "null" := NullTok
    ]
  }

  function WordKind(word: string): Kind {
    if word in Keywords() then Keywords()[word] else Identifier
  }

  // ----- Where the runs of characters end -----

  function WordEnd(src: string, i: nat): (r: nat)
    requires i <= |src|
    ensures i <= r <= |src|
    decreases |src| - i
  {
    if i < |src| && IsAlphaNumeric(src[i]) then WordEnd(src, i + 1) else i
  }

  function DigitsEnd(src: string, i: nat): (r: nat)
    requires i <= |src|
    ensures i <= r <= |src|
    decreases |src| - i
  {
    if i < |src| && IsDigit(src[i]) then DigitsEnd(src, i + 1) else i
  }

  /** Digits, and if a dot and a digit follow, the fraction too. */
  function NumberEnd(src: string, i: nat): (r: nat)
    requires i <= |src|
    ensures i <= r <= |src|
  {
    var d := DigitsEnd(src, i);
    if d + 1 < |src| && src[d] == '.' && IsDigit(src[d + 1]) then DigitsEnd(src, d + 1) else d
  }

  /** The first quote at or after `i`, or the end of the source. */
  function QuoteAt(src: string, i: nat): (r: nat)
    requires i <= |src|
    ensures i <= r <= |src|
    decreases |src| - i
  {
    if i < |src| && src[i] != '"' then QuoteAt(src, i + 1) else i
  }

  // ----- One token, and all tokens -----

  datatype Scan = Scan(tokens: seq<Token>, next: nat)

  function WordToken(word: string): Token {
    Token(WordKind(word), word, Text(word))
  }

  function NumberToken(ar: Arith, digits: string): Token {
    Token(NumericTok, digits, Numeric(ar.read(digits)))
  }

  function StringToken(value: string): Token {
    Token(StringTok, "\"" + value + "\"", Text(value))
  }

  function SingleKind(c: char): (r: seq<Kind>) {
    match c
    case '(' => [LParen]
    case ')' => [RParen]
    case '{' => [LBrace]
    case '}' => [RBrace]
    case '[' => [LBracket]
    case ']' => [RBracket]
    case ',' => [Comma]
    case '.' => [Dot]
    case ';' => [Semicolon]
    case '-' => [Minus]
    case '+' => [Plus]
    case '*' => [Star]
    case '/' => [Slash]
    case _ => []
  }

  /** The character that makes `c` a two-character operator, that operator, and `c` alone. */
  function DoubleKind(c: char): (r: seq<(char, Kind, seq<Kind>)>) {
    match c
    case '!' => [('=', BangEqual, [Bang])]
    case '=' => [('=', EqualEqual, [Equal])]
    case '<' => [('=', LessEqual, [Less])]
    case '>' => [('=', GreaterEqual, [Greater])]
    case '&' => [('&', And, [])]
    case '|' => [('|', Or, [])]
    case _ => []
  }

  function Plains(kinds: seq<Kind>): seq<Token> {
    seq(|kinds|, i requires 0 <= i < |kinds| => Plain(kinds[i]))
  }

  /** The token that starts at `i`, if any, and the position after it. */
  function ScanAt(ar: Arith, src: string, i: nat): (r: Scan)
    requires i < |src|
    ensures i < r.next <= |src|
  {
    var c := src[i];
    var single, double := SingleKind(c), DoubleKind(c);
    if single != [] then Scan(Plains(single), i + 1)
    else if double != [] then
      var (second, both, alone) := double[0];
      if i + 1 < |src| && src[i + 1] == second then Scan([Plain(both)], i + 2)
      else Scan(Plains(alone), i + 1)
    else if IsBlank(c) then Scan([], i + 1)
    else if c == '"' then
      var q := QuoteAt(src, i + 1);
      if q == |src| then Scan([], q) else Scan([Token(StringTok, src[i..q + 1], Text(src[i + 1..q]))], q + 1)
    else if IsDigit(c) then
      var e := NumberEnd(src, i + 1);
      Scan([NumberToken(ar, src[i..e])], e)
    else if IsAlpha(c) then
      var e := WordEnd(src, i + 1);
      Scan([WordToken(src[i..e])], e)
    else Scan([], i + 1)
  }

  function Lex(ar: Arith, src: string, i: nat): (ts: seq<Token>)
    requires i <= |src|
    decreases |src| - i
  {
    if i == |src| then [Plain(Eof)]
    else
      var s := ScanAt(ar, src, i);
      s.tokens + Lex(ar, src, s.next)
  }

  function Newlines(src: string, i: nat): nat
    requires i <= |src|
  {
    if i == 0 then 0 else Newlines(src, i - 1) + if src[i - 1] == '\n' then 1 else 0
  }

  // ----- The lexer object -----

  class JSLexer {
    const ar: Arith
    const source: string
    var start: nat
    var current: nat
    var line: nat
    var tokens: seq<Token>

    ghost predicate Valid()
      reads this
    {
      start <= current <= |source| && line == Newlines(source, current)
    }

    constructor (ar: Arith, source: string)
      ensures Valid() && current == 0 && tokens == []
      ensures this.ar == ar && this.source == source
    {
      this.ar, this.source := ar, source;
      start, current, line, tokens := 0, 0, 0, [];
    }

    predicate IsAtEnd()
      reads this
    {
      current >= |source|
    }

    function Peek(): char
      reads this
    {
      if IsAtEnd() then '\0' else source[current]
    }

    function PeekNext(): char
      reads this
    {
      if current + 1 >= |source| then '\0' else source[current + 1]
    }

    function Lexeme(): string
      requires Valid()
      reads this
    {
      source[start..current]
    }

    method Match(expected: char) returns (matched: bool)
      requires Valid() && expected != '\n'
      modifies this`current
      ensures Valid()
      ensures matched <==> old(current) < |source| && source[old(current)] == expected
      ensures current == old(current) + if matched then 1 else 0
    {
      if IsAtEnd() || source[current] != expected {
        return false;
      }
      current := current + 1;
      return true;
    }

    method ScanIdentifier()
      requires Valid()
      modifies this`current, this`tokens
      ensures Valid() && current == WordEnd(source, old(current))
      ensures tokens == old(tokens) + [WordToken(source[start..current])]
    {
      while IsAlphaNumeric(Peek())
        invariant Valid() && WordEnd(source, current) == WordEnd(source, old(current))
        decreases |source| - current
        modifies this`current
      {
        current := current + 1;
      }
      var text := Lexeme();
      if text in Keywords() {
        tokens := tokens + [Token(Keywords()[text], text, Text(text))];
      } else {
        tokens := tokens + [Token(Identifier, text, Text(text))];
      }
    }

    method ScanNumeric()
      requires Valid()
      modifies this`current, this`tokens
      ensures Valid() && current == NumberEnd(source, old(current))
      ensures tokens == old(tokens) + [NumberToken(ar, source[start..current])]
    {
      while IsDigit(Peek())
        invariant Valid() && DigitsEnd(source, current) == DigitsEnd(source, old(current))
        decreases |source| - current
        modifies this`current
      {
        current := current + 1;
      }
      if Peek() == '.' && IsDigit(PeekNext()) {
        current := current + 1;
      }
      while IsDigit(Peek())
        invariant Valid() && DigitsEnd(source, current) == NumberEnd(source, old(current))
        decreases |source| - current
        modifies this`current
      {
        current := current + 1;
      }
      tokens := tokens + [NumberToken(ar, Lexeme())];
    }

    /** A string without a closing quote is dropped, with everything after it. */
    method ScanString()
      requires Valid() && start < current
      modifies this`current, this`tokens, this`line
      ensures Valid()
      ensures var q := QuoteAt(source, old(current));
              if q == |source| then current == q && tokens == old(tokens)
              else current == q + 1 &&
                   tokens == old(tokens) + [Token(StringTok, source[start..q + 1], Text(source[start + 1..q]))]
    {
      while Peek() != '"' && !IsAtEnd()
        invariant Valid() && old(current) <= current
        invariant QuoteAt(source, current) == QuoteAt(source, old(current))
        decreases |source| - current
        modifies this`current, this`line
      {
        if Peek() == '\n' {
          line := line + 1;
        }
        current := current + 1;
      }
      if IsAtEnd() {
        return;
      }
      current := current + 1;
      tokens := tokens + [Token(StringTok, Lexeme(), Text(source[start + 1..current - 1]))];
    }

    method ScanToken()
      requires Valid() && start == current < |source|
      modifies this`current, this`tokens, this`line
      ensures Valid()
      ensures current == ScanAt(ar, source, old(current)).next
      ensures tokens == old(tokens) + ScanAt(ar, source, old(current)).tokens
    {
      var c := source[current];
      var single, double := SingleKind(c), DoubleKind(c);
      current := current + 1;
      if c == '\n' {
        line := line + 1;
      }
      if single != [] {
        tokens := tokens + Plains(single);
      } else if double != [] {
        var matched := Match(double[0].0);
        tokens := tokens + if matched then [Plain(double[0].1)] else Plains(double[0].2);
      } else if IsBlank(c) {
      } else if c == '"' {
        ScanString();
      } else if IsDigit(c) {
        ScanNumeric();
      } else if IsAlpha(c) {
        ScanIdentifier();
      }
    }

    /** The tokens of the rest of the source, up to and including the end marker. */
    method ScanTokens() returns (result: seq<Token>)
      requires Valid()
      modifies this
      ensures Valid() && current == |source|
      ensures result == tokens == old(tokens) + Lex(ar, source, old(current))
    {
      hide ScanAt;
      while !IsAtEnd()
        invariant Valid()
        invariant tokens + Lex(ar, source, current) == old(tokens) + Lex(ar, source, old(current))
        decreases |source| - current
      {
        start := current;
        ScanToken();
      }
      tokens := tokens + [Plain(Eof)];
      result := tokens;
    }
  }
}
