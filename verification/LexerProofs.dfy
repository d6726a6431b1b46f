/**
 What the lexer does with every source, and with every text that spells out a list of tokens.
 */
module LexerProofs {
  import opened Values
  import opened Syntax
  import opened Lexer

  // ----- The tokens that a source can have, and how they are written -----

  function SymbolText(kind: Kind): string {
    match kind
    case LParen => "(" case RParen => ")" case LBrace => "{" case RBrace => "}"
    case LBracket => "[" case RBracket => "]" case Comma => "," case Dot => "."
    case Minus => "-" case Plus => "+" case Semicolon => ";" case Slash => "/" case Star => "*"
    case Bang => "!" case Equal => "=" case Less => "<" case Greater => ">"
    case BangEqual => "!=" case EqualEqual => "==" case LessEqual => "<=" case GreaterEqual => ">="
    case And => "&&" case Or => "||"
    case _ => ""
  }

  /** How the 35 keywords are written. */
  function KeywordText(kind: Kind): string {
    match kind
    case Import => "import" case Export => "export" case Default => "default"
    case Var => "var" case Let => "let" case Const => "const"
    case Function => "function" case Class => "class" case Super => "super" case Extends => "extends"
    case Delete => "delete" case InstanceOf => "instanceof" case TypeOf => "typeof"
    case New => "new" case This => "this"
    case Return => "return" case Break => "break" case Continue => "continue" case Throw => "throw"
    case If => "if" case Else => "else" case Switch => "switch" case Case => "case"
    case Try => "try" case Catch => "catch"
    case Do => "do" case While => "while" case For => "for" case In => "in" case Of => "of"
    case True => "true" case False => "false"
    case NullTok => "null" case UndefinedTok => "undefined" case Void => "void"
    case _ => ""
  }

  ghost predicate AllOf(s: string, p: char -> bool) {
    forall k | 0 <= k < |s| :: p(s[k])
  }

  ghost predicate IsWord(s: string) {
    s != "" && IsAlpha(s[0]) && AllOf(s, IsAlphaNumeric)
  }

  /** Digits, or digits, a dot and digits. */
  ghost predicate IsNumeral(s: string) {
    && s != ""
    && (AllOf(s, IsDigit) || exists k :: IsFraction(s, k))
  }

  ghost predicate IsFraction(s: string, k: int) {
    0 < k < |s| - 1 && s[k] == '.' && AllOf(s[..k], IsDigit) && AllOf(s[k + 1..], IsDigit)
  }

  ghost predicate Lexable(ar: Arith, t: Token) {
    || (SymbolText(t.kind) != "" && t == Plain(t.kind))
    || (IsWord(t.lexeme) && t == WordToken(t.lexeme))
    || (IsNumeral(t.lexeme) && t == NumberToken(ar, t.lexeme))
    || (t.literal.Text? && '"' !in t.literal.s && t == StringToken(t.literal.s))
  }

  ghost predicate AllLexable(ar: Arith, ts: seq<Token>) {
    ts == [] || (Lexable(ar, ts[0]) && AllLexable(ar, ts[1..]))
  }

  function TokenText(t: Token): string {
    if t.lexeme == "" then SymbolText(t.kind) else t.lexeme
  }

  /** The texts of the tokens, each gap of blanks between them; `gaps` has one more entry than `ts`. */
  function Spell(ts: seq<Token>, gaps: seq<string>): string
    requires |gaps| == |ts| + 1
  {
    if ts == [] then gaps[0]
    else gaps[0] + (TokenText(ts[0]) + Spell(ts[1..], gaps[1..]))
  }

  /** A character that is not taken into the token when it stands right after it. */
  predicate Apart(t: Token, c: char) {
    if t.lexeme == "" then c == '=' ==> t.kind != Bang && t.kind != Equal && t.kind != Less && t.kind != Greater
    else if t.kind == StringTok then true
    else if t.kind == NumericTok then !IsDigit(c) && c != '.'
    else !IsAlphaNumeric(c)
  }

  ghost predicate Blank(gap: string) {
    forall k | 0 <= k < |gap| :: IsBlank(gap[k])
  }

  /** Gaps are blank, and there is one wherever the next token would be taken into the one before. */
  ghost predicate Gaps(ts: seq<Token>, gaps: seq<string>) {
    && |gaps| == |ts| + 1
    && (forall k | 0 <= k < |gaps| :: Blank(gaps[k]))
    && (forall k | 0 < k < |ts| :: gaps[k] == "" ==> Meet(ts[k - 1], ts[k]))
  }

  predicate Meet(t: Token, u: Token) {
    TokenText(u) != "" && Apart(t, TokenText(u)[0])
  }

  // ----- Characters and keywords -----

  /** By their codes: words start with a letter or an underscore and go on with these and digits. */
  lemma CharacterClasses(c: char)
    ensures var n := c as int;
            && (IsAlpha(c) <==> 65 <= n <= 90 || 97 <= n <= 122 || n == 95)
            && (IsDigit(c) <==> 48 <= n <= 57)
            && (IsAlphaNumeric(c) <==> 65 <= n <= 90 || 97 <= n <= 122 || n == 95 || 48 <= n <= 57)
            && (IsBlank(c) <==> n == 32 || n == 9 || n == 10 || n == 13)
  {
  }

  /** A word is a keyword exactly if it is how that keyword is written. */
  lemma KeywordsAreTheirTexts(word: string, kind: Kind)
    requires KeywordText(kind) != ""
    ensures WordKind(word) == kind <==> word == KeywordText(kind)
  {
    if word in Keywords() { KeywordIsText(word); }
    TextIsKeyword(kind);
  }

  /** A map that gives words the kinds that are written so. */
  ghost predicate Faithful(m: map<string, Kind>) {
    forall word | word in m :: KeywordText(m[word]) == word
  }

  lemma OneMoreKeyword(m: map<string, Kind>, word: string, kind: Kind)
    requires Faithful(m) && KeywordText(kind) == word
    ensures Faithful(m[word := kind])
  {
    hide KeywordText;
  }

  lemma KeywordIsText(word: string)
    requires word in Keywords()
    ensures KeywordText(Keywords()[word]) == word
  {
    KeywordsAreFaithful();
    hide Keywords, KeywordText;
  }

  lemma KeywordsAreFaithful()
    ensures Faithful(Keywords())
  {
    hide Faithful;
    var m := TwoThirds();
    TwoThirdsAreFaithful();
    OneMoreKeyword(m, "this", This);
    m := m["this" := This];
    OneMoreKeyword(m, "throw", Throw);
    m := m["throw" := Throw];
    OneMoreKeyword(m, "try", Try);
    m := m["try" := Try];
    OneMoreKeyword(m, "typeof", TypeOf);
    m := m["typeof" := TypeOf];
    OneMoreKeyword(m, "var", Var);
    m := m["var" := Var];
    OneMoreKeyword(m, "void", Void);
    m := m["void" := Void];
    OneMoreKeyword(m, "while", While);
    m := m["while" := While];
    OneMoreKeyword(m, "true", True);
    m := m["true" := True];
    OneMoreKeyword(m, "false", False);
    m := m["false" := False];
    OneMoreKeyword(m, "undefined", UndefinedTok);
    m := m["undefined" := UndefinedTok];
    OneMoreKeyword(m, "null", NullTok);
    m := m["null" := NullTok];
    assert m == Keywords();
  }

  /** The first third of the keywords, and the first two. */
  function FirstThird(): map<string, Kind> {
    map[
      "break" := Break, "case" := Case, "catch" := Catch, "class" := Class, "const" := Const,
      "continue" := Continue, "default" := Default, "delete" := Delete, "do" := Do, "else" := Else,
      "export" := Export, "extends" := Extends
    ]
  }

  function TwoThirds(): map<string, Kind> {
    FirstThird()["for" := For]["function" := Function]["if" := If]["import" := Import]
         ["in" := In]["instanceof" := InstanceOf]["let" := Let]["new" := New]
         ["of" := Of]["return" := Return]["super" := Super]["switch" := Switch]
  }

  lemma FirstThirdIsFaithful()
    ensures Faithful(FirstThird())
  {
    hide Faithful;
    var m: map<string, Kind> := map[];
    NoKeywords();
    OneMoreKeyword(m, "break", Break);
    m := m["break" := Break];
    OneMoreKeyword(m, "case", Case);
    m := m["case" := Case];
    OneMoreKeyword(m, "catch", Catch);
    m := m["catch" := Catch];
    OneMoreKeyword(m, "class", Class);
    m := m["class" := Class];
    OneMoreKeyword(m, "const", Const);
    m := m["const" := Const];
    OneMoreKeyword(m, "continue", Continue);
    m := m["continue" := Continue];
    OneMoreKeyword(m, "default", Default);
    m := m["default" := Default];
    OneMoreKeyword(m, "delete", Delete);
    m := m["delete" := Delete];
    OneMoreKeyword(m, "do", Do);
    m := m["do" := Do];
    OneMoreKeyword(m, "else", Else);
    m := m["else" := Else];
    OneMoreKeyword(m, "export", Export);
    m := m["export" := Export];
    OneMoreKeyword(m, "extends", Extends);
    m := m["extends" := Extends];
    assert m == FirstThird();
  }

  lemma TwoThirdsAreFaithful()
    ensures Faithful(TwoThirds())
  {
    hide Faithful, FirstThird;
    var m := FirstThird();
    FirstThirdIsFaithful();
    OneMoreKeyword(m, "for", For);
    m := m["for" := For];
    OneMoreKeyword(m, "function", Function);
    m := m["function" := Function];
    OneMoreKeyword(m, "if", If);
    m := m["if" := If];
    OneMoreKeyword(m, "import", Import);
    m := m["import" := Import];
    OneMoreKeyword(m, "in", In);
    m := m["in" := In];
    OneMoreKeyword(m, "instanceof", InstanceOf);
    m := m["instanceof" := InstanceOf];
    OneMoreKeyword(m, "let", Let);
    m := m["let" := Let];
    OneMoreKeyword(m, "new", New);
    m := m["new" := New];
    OneMoreKeyword(m, "of", Of);
    m := m["of" := Of];
    OneMoreKeyword(m, "return", Return);
    m := m["return" := Return];
    OneMoreKeyword(m, "super", Super);
    m := m["super" := Super];
    OneMoreKeyword(m, "switch", Switch);
    m := m["switch" := Switch];
    assert m == TwoThirds();
  }

  lemma NoKeywords()
    ensures Faithful(map[])
  {
  }

  lemma TextIsKeyword(kind: Kind)
    requires KeywordText(kind) != ""
    ensures WordKind(KeywordText(kind)) == kind
  {
    KeywordKinds(kind);
    hide WordKind, KeywordText;
    if kind == Import || kind == Export || kind == Default { TextA(kind); }
    else if kind == Var || kind == Let || kind == Const { TextB(kind); }
    else if kind == Function || kind == Class || kind == Super { TextC(kind); }
    else if kind == Extends || kind == Delete || kind == InstanceOf { TextD(kind); }
    else if kind == TypeOf || kind == New || kind == This { TextE(kind); }
    else if kind == Return || kind == Break { TextF(kind); }
    else if kind == Throw || kind == If || kind == Else { TextG(kind); }
    else if kind == Switch || kind == Case || kind == Try { TextH(kind); }
    else if kind == Catch || kind == Do || kind == While { TextI(kind); }
    else if kind == For || kind == In { TextJ(kind); }
    else if kind == Of { TextM(); }
    else if kind == True || kind == False || kind == NullTok { TextK(kind); }
    else { TextL(kind); }
  }

  lemma KeywordKinds(kind: Kind)
    requires KeywordText(kind) != ""
    ensures
      || kind == Import || kind == Export || kind == Default
      || kind == Var || kind == Let || kind == Const
      || kind == Function || kind == Class || kind == Super
      || kind == Extends || kind == Delete || kind == InstanceOf
      || kind == TypeOf || kind == New || kind == This
      || kind == Return || kind == Break
      || kind == Throw || kind == If || kind == Else
      || kind == Switch || kind == Case || kind == Try
      || kind == Catch || kind == Do || kind == While
      || kind == For || kind == In || kind == Of
      || kind == True || kind == False || kind == NullTok
      || kind == UndefinedTok || kind == Void || kind == Continue
  {
  }

  lemma TextA(kind: Kind)
    requires kind == Import || kind == Export || kind == Default
    ensures WordKind(KeywordText(kind)) == kind
  {
    match kind
    case Import => assert WordKind("import") == Import;
    case Export => assert WordKind("export") == Export;
    case Default => assert WordKind("default") == Default;
  }

  lemma TextB(kind: Kind)
    requires kind == Var || kind == Let || kind == Const
    ensures WordKind(KeywordText(kind)) == kind
  {
    match kind
    case Var => assert WordKind("var") == Var;
    case Let => assert WordKind("let") == Let;
    case Const => assert WordKind("const") == Const;
  }

  lemma TextC(kind: Kind)
    requires kind == Function || kind == Class || kind == Super
    ensures WordKind(KeywordText(kind)) == kind
  {
    match kind
    case Function => assert WordKind("function") == Function;
    case Class => assert WordKind("class") == Class;
    case Super => assert WordKind("super") == Super;
  }

  lemma TextD(kind: Kind)
    requires kind == Extends || kind == Delete || kind == InstanceOf
    ensures WordKind(KeywordText(kind)) == kind
  {
    match kind
    case Extends => assert WordKind("extends") == Extends;
    case Delete => assert WordKind("delete") == Delete;
    case InstanceOf => assert WordKind("instanceof") == InstanceOf;
  }

  lemma TextE(kind: Kind)
    requires kind == TypeOf || kind == New || kind == This
    ensures WordKind(KeywordText(kind)) == kind
  {
    match kind
    case TypeOf => assert WordKind("typeof") == TypeOf;
    case New => assert WordKind("new") == New;
    case This => assert WordKind("this") == This;
  }

  lemma TextF(kind: Kind)
    requires kind == Return || kind == Break
    ensures WordKind(KeywordText(kind)) == kind
  {
    match kind
    case Return => assert WordKind("return") == Return;
    case Break => assert WordKind("break") == Break;
  }

  lemma TextG(kind: Kind)
    requires kind == Throw || kind == If || kind == Else
    ensures WordKind(KeywordText(kind)) == kind
  {
    match kind
    case Throw => assert WordKind("throw") == Throw;
    case If => assert WordKind("if") == If;
    case Else => assert WordKind("else") == Else;
  }

  lemma TextH(kind: Kind)
    requires kind == Switch || kind == Case || kind == Try
    ensures WordKind(KeywordText(kind)) == kind
  {
    match kind
    case Switch => assert WordKind("switch") == Switch;
    case Case => assert WordKind("case") == Case;
    case Try => assert WordKind("try") == Try;
  }

  lemma TextI(kind: Kind)
    requires kind == Catch || kind == Do || kind == While
    ensures WordKind(KeywordText(kind)) == kind
  {
    match kind
    case Catch => assert WordKind("catch") == Catch;
    case Do => assert WordKind("do") == Do;
    case While => assert WordKind("while") == While;
  }

  lemma TextJ(kind: Kind)
    requires kind == For || kind == In
    ensures WordKind(KeywordText(kind)) == kind
  {
    match kind
    case For => assert WordKind("for") == For;
    case In => assert WordKind("in") == In;
  }

  lemma TextM()
    ensures WordKind(KeywordText(Of)) == Of
  {
    assert WordKind("of") == Of;
  }

  lemma TextK(kind: Kind)
    requires kind == True || kind == False || kind == NullTok
    ensures WordKind(KeywordText(kind)) == kind
  {
    match kind
    case True => assert WordKind("true") == True;
    case False => assert WordKind("false") == False;
    case NullTok => assert WordKind("null") == NullTok;
  }

  lemma TextL(kind: Kind)
    requires kind == UndefinedTok || kind == Void || kind == Continue
    ensures WordKind(KeywordText(kind)) == kind
  {
    match kind
    case UndefinedTok => assert WordKind("undefined") == UndefinedTok;
    case Void => assert WordKind("void") == Void;
    case Continue => assert WordKind("continue") == Continue;
  }

  /** And every word that is how no keyword is written is an identifier. */
  lemma OtherWordsAreIdentifiers(word: string)
    ensures WordKind(word) == Identifier <==> forall kind :: KeywordText(kind) != "" ==> word != KeywordText(kind)
  {
    if word in Keywords() {
      KeywordIsText(word);
      assert Keywords()[word] != Identifier;
    }
    if kind :| KeywordText(kind) != "" && word == KeywordText(kind) { TextIsKeyword(kind); }
  }

  /** The line count is the number of line breaks before the position. */
  lemma {:induction false} LinesAreCounted(src: string, i: nat)
    requires i <= |src|
    ensures Newlines(src, i) == |set k | 0 <= k < i && src[k] == '\n'|
  {
    if i > 0 {
      LinesAreCounted(src, i - 1);
      var before, all := set k | 0 <= k < i - 1 && src[k] == '\n', set k | 0 <= k < i && src[k] == '\n';
      assert all == if src[i - 1] == '\n' then before + {i - 1} else before;
    }
  }

  // ----- Runs of characters -----

  lemma {:induction false} WordEndIs(src: string, i: nat, e: nat)
    requires i <= e <= |src|
    requires forall k | i <= k < e :: IsAlphaNumeric(src[k])
    requires e < |src| ==> !IsAlphaNumeric(src[e])
    ensures WordEnd(src, i) == e
    decreases e - i
  {
    if i < e { WordEndIs(src, i + 1, e); }
  }

  lemma {:induction false} WordEndRun(src: string, i: nat)
    requires i <= |src|
    ensures forall k | i <= k < WordEnd(src, i) :: IsAlphaNumeric(src[k])
    decreases |src| - i
  {
    if i < |src| && IsAlphaNumeric(src[i]) { WordEndRun(src, i + 1); }
  }

  lemma {:induction false} DigitsEndIs(src: string, i: nat, e: nat)
    requires i <= e <= |src|
    requires forall k | i <= k < e :: IsDigit(src[k])
    requires e < |src| ==> !IsDigit(src[e])
    ensures DigitsEnd(src, i) == e
    decreases e - i
  {
    if i < e { DigitsEndIs(src, i + 1, e); }
  }

  lemma {:induction false} DigitsEndRun(src: string, i: nat)
    requires i <= |src|
    ensures forall k | i <= k < DigitsEnd(src, i) :: IsDigit(src[k])
    decreases |src| - i
  {
    if i < |src| && IsDigit(src[i]) { DigitsEndRun(src, i + 1); }
  }

  lemma {:induction false} QuoteAtIs(src: string, i: nat, e: nat)
    requires i <= e < |src| && src[e] == '"'
    requires forall k | i <= k < e :: src[k] != '"'
    ensures QuoteAt(src, i) == e
    decreases e - i
  {
    if i < e { QuoteAtIs(src, i + 1, e); }
  }

  lemma {:induction false} QuoteAtRun(src: string, i: nat)
    requires i <= |src|
    ensures forall k | i <= k < QuoteAt(src, i) :: src[k] != '"'
    ensures QuoteAt(src, i) < |src| ==> src[QuoteAt(src, i)] == '"'
    decreases |src| - i
  {
    if i < |src| && src[i] != '"' { QuoteAtRun(src, i + 1); }
  }

  // ----- Every token of a source is one of these -----

  lemma NumeralScanned(src: string, i: nat)
    requires i < |src| && IsDigit(src[i])
    ensures IsNumeral(src[i..NumberEnd(src, i + 1)])
  {
    var d, e := DigitsEnd(src, i + 1), NumberEnd(src, i + 1);
    var s := src[i..e];
    DigitsEndRun(src, i + 1);
    if e != d {
      DigitsEndRun(src, d + 1);
      var whole := s[..d - i];
      forall k | 0 <= k < |whole| ensures IsDigit(whole[k]) {
        assert whole[k] == src[i + k];
      }
      assert IsFraction(s, d - i);
    } else if d + 1 < |src| && src[d] == '.' && IsDigit(src[d + 1]) {
      assert false;
    } else {
      assert AllOf(s, IsDigit);
    }
  }

  lemma StringScanned(src: string, i: nat)
    requires i < |src| && src[i] == '"' && QuoteAt(src, i + 1) < |src|
    ensures var q := QuoteAt(src, i + 1);
            '"' !in src[i + 1..q] && src[i..q + 1] == "\"" + src[i + 1..q] + "\""
  {
    QuoteAtRun(src, i + 1);
    var q := QuoteAt(src, i + 1);
    Enclosed(src, i, q);
    hide QuoteAt;
    assert "\"" == [src[i]] == [src[q]];
  }

  lemma Enclosed(s: string, i: nat, q: nat)
    requires i < q < |s|
    ensures s[i..q + 1] == [s[i]] + s[i + 1..q] + [s[q]]
  {
  }

  lemma WordScanned(src: string, i: nat)
    requires i < |src| && IsAlpha(src[i])
    ensures IsWord(src[i..WordEnd(src, i + 1)])
  {
    WordEndRun(src, i + 1);
  }

  /** What is dropped: blanks, lone & and |, strings without an end, and characters of no token. */
  lemma DroppedExactly(ar: Arith, src: string, i: nat)
    requires i < |src|
    ensures var c := src[i];
            ScanAt(ar, src, i).tokens == [] <==>
            || IsBlank(c)
            || ((c == '&' || c == '|') && !(i + 1 < |src| && src[i + 1] == c))
            || (c == '"' && forall k | i < k < |src| :: src[k] != '"')
            || (!IsAlphaNumeric(c) && c !in "(){}[],.;-+*/!=<>&|\"")
  {
    hide NumberEnd, WordEnd, WordToken, NumberToken;
    QuoteAtRun(src, i + 1);
    hide QuoteAt;
    KnownCharacter(src[i]);
  }

  /** It is one character, or all that is left after the start of a string without an end. */
  lemma DroppedUpTo(ar: Arith, src: string, i: nat)
    requires i < |src| && ScanAt(ar, src, i).tokens == []
    ensures ScanAt(ar, src, i).next == if src[i] == '"' then |src| else i + 1
  {
    hide NumberEnd, WordEnd, WordToken, NumberToken, QuoteAt;
  }

  lemma KnownCharacter(c: char)
    ensures c in "(){}[],.;-+*/!=<>&|\"" <==> SingleKind(c) != [] || DoubleKind(c) != [] || c == '"'
  {
    var known := "(){}[],.;-+*/!=<>&|\"";
    assert known[0] == '(' && known[1] == ')' && known[2] == '{' && known[3] == '}';
    assert known[4] == '[' && known[5] == ']';
    assert known[6] == ',' && known[7] == '.' && known[8] == ';' && known[9] == '-' && known[10] == '+';
    assert known[11] == '*' && known[12] == '/' && known[13] == '!' && known[14] == '=' && known[15] == '<';
    assert known[16] == '>' && known[17] == '&' && known[18] == '|' && known[19] == '"';
  }

  lemma ScanIsLexable(ar: Arith, src: string, i: nat)
    requires i < |src|
    ensures var ts := ScanAt(ar, src, i).tokens;
            ts == [] || (|ts| == 1 && Lexable(ar, ts[0]))
  {
    var c := src[i];
    if SingleKind(c) != [] || DoubleKind(c) != [] {
      OperatorIsLexable(ar, src, i);
    } else {
      hide SingleKind, DoubleKind, SymbolText, WordKind, NumberEnd, WordEnd, QuoteAt, IsWord, IsNumeral;
      if c == '"' {
        if QuoteAt(src, i + 1) < |src| { StringScanned(src, i); }
      } else if IsDigit(c) {
        NumeralScanned(src, i);
      } else if IsAlpha(c) {
        WordScanned(src, i);
      }
    }
  }

  lemma OperatorIsLexable(ar: Arith, src: string, i: nat)
    requires i < |src| && (SingleKind(src[i]) != [] || DoubleKind(src[i]) != [])
    ensures var ts := ScanAt(ar, src, i).tokens;
            ts == [] || (|ts| == 1 && SymbolText(ts[0].kind) != "" && ts[0] == Plain(ts[0].kind))
  {
    hide WordKind, NumberEnd, WordEnd, QuoteAt;
  }

  lemma {:induction false} LexIsLexable(ar: Arith, src: string, i: nat)
    requires i <= |src|
    ensures var ts := Lex(ar, src, i);
            && |ts| > 0 && ts[|ts| - 1] == Plain(Eof)
            && AllLexable(ar, ts[..|ts| - 1])
    decreases |src| - i
  {
    hide Lexable, AllLexable, ScanAt;
    if i == |src| {
      NoneLexable(ar, [Plain(Eof)][..0]);
    } else {
      var s := ScanAt(ar, src, i);
      var rest := Lex(ar, src, s.next);
      ScanIsLexable(ar, src, i);
      LexIsLexable(ar, src, s.next);
      if s.tokens == [] {
        assert [] + rest == rest;
      } else {
        OneMoreLexable(ar, s.tokens, rest);
      }
    }
  }

  lemma NoneLexable(ar: Arith, ts: seq<Token>)
    requires ts == []
    ensures AllLexable(ar, ts)
  {
  }

  lemma OneMoreLexable(ar: Arith, one: seq<Token>, rest: seq<Token>)
    requires |one| == 1 && Lexable(ar, one[0]) && rest != [] && AllLexable(ar, rest[..|rest| - 1])
    ensures var ts := one + rest;
            ts[|ts| - 1] == rest[|rest| - 1] && AllLexable(ar, ts[..|ts| - 1])
  {
    hide Lexable;
    var ts := one + rest;
    var front := ts[..|ts| - 1];
    assert front[0] == one[0] && front[1..] == rest[..|rest| - 1];
  }

  // ----- A spelled token is read back, as long as nothing follows that would be taken into it -----

  /** `t` is written at `i` and ends there. */
  ghost predicate Written(src: string, i: nat, t: Token) {
    var n := |TokenText(t)|;
    && i + n <= |src|
    && src[i..i + n] == TokenText(t)
    && (i + n < |src| ==> Apart(t, src[i + n]))
  }

  lemma SymbolReadBack(ar: Arith, src: string, i: nat, t: Token)
    requires SymbolText(t.kind) != "" && t == Plain(t.kind) && Written(src, i, t)
    ensures i < |src| && ScanAt(ar, src, i) == Scan([t], i + |TokenText(t)|)
  {
    assert src[i] == src[i..i + |TokenText(t)|][0];
    if |TokenText(t)| == 2 {
      assert src[i + 1] == src[i..i + 2][1];
    }
  }

  lemma WordIsNoNumber(s: string)
    ensures WordKind(s) != NumericTok && WordKind(s) != StringTok
  {
  }

  lemma WordReadBack(ar: Arith, src: string, i: nat, t: Token)
    requires IsWord(t.lexeme) && t == WordToken(t.lexeme) && Written(src, i, t)
    ensures i < |src| && ScanAt(ar, src, i) == Scan([t], i + |TokenText(t)|)
  {
    WordIsNoNumber(t.lexeme);
    hide WordKind;
    var n := |t.lexeme|;
    assert forall k | 0 <= k < n :: src[i + k] == src[i..i + n][k] == t.lexeme[k];
    forall k | i <= k < i + n ensures IsAlphaNumeric(src[k]) {
      assert src[i + (k - i)] == t.lexeme[k - i];
    }
    WordEndIs(src, i + 1, i + n);
  }

  lemma NumberEndIs(src: string, i: nat, s: string)
    requires IsNumeral(s) && i + |s| <= |src| && src[i..i + |s|] == s
    requires i + |s| < |src| ==> !IsDigit(src[i + |s|]) && src[i + |s|] != '.'
    ensures IsDigit(src[i]) && NumberEnd(src, i + 1) == i + |s|
  {
    var n := |s|;
    assert forall k | i <= k < i + n :: src[k] == src[i..i + n][k - i] == s[k - i];
    if AllOf(s, IsDigit) {
      DigitsEndIs(src, i + 1, i + n);
    } else {
      var k :| IsFraction(s, k);
      assert forall j | 0 <= j < k :: s[j] == s[..k][j];
      assert forall j | k < j < n :: s[j] == s[k + 1..][j - k - 1];
      DigitsEndIs(src, i + 1, i + k);
      DigitsEndIs(src, i + k + 1, i + n);
    }
  }

  lemma NumberReadBack(ar: Arith, src: string, i: nat, t: Token)
    requires IsNumeral(t.lexeme) && t == NumberToken(ar, t.lexeme) && Written(src, i, t)
    ensures i < |src| && ScanAt(ar, src, i) == Scan([t], i + |TokenText(t)|)
  {
    NumberEndIs(src, i, t.lexeme);
  }

  lemma StringReadBack(ar: Arith, src: string, i: nat, t: Token)
    requires t.literal.Text? && '"' !in t.literal.s && t == StringToken(t.literal.s) && Written(src, i, t)
    ensures i < |src| && ScanAt(ar, src, i) == Scan([t], i + |TokenText(t)|)
  {
    var v, n := t.literal.s, |t.lexeme|;
    StringWritten(src, i, v);
    QuoteAtIs(src, i + 1, i + n - 1);
  }

  lemma StringWritten(src: string, i: nat, v: string)
    requires '"' !in v && i + |v| + 2 <= |src| && src[i..i + |v| + 2] == "\"" + v + "\""
    ensures src[i] == src[i + |v| + 1] == '"' && src[i + 1..i + |v| + 1] == v
    ensures forall k | i < k < i + |v| + 1 :: src[k] != '"'
  {
    var whole := src[i..i + |v| + 2];
    assert src[i] == whole[0] && src[i + |v| + 1] == whole[|v| + 1];
    forall k | i < k < i + |v| + 1 ensures src[k] == v[k - i - 1] && src[k] != '"' {
      assert src[k] == whole[k - i];
      assert whole[k - i] == v[k - i - 1];
    }
    assert src[i + 1..i + |v| + 1] == v;
  }

  lemma TokenReadBack(ar: Arith, src: string, i: nat, t: Token)
    requires Lexable(ar, t) && Written(src, i, t)
    ensures i < |src| && ScanAt(ar, src, i) == Scan([t], i + |TokenText(t)|)
  {
    if SymbolText(t.kind) != "" && t == Plain(t.kind) { SymbolReadBack(ar, src, i, t); }
    else if IsWord(t.lexeme) && t == WordToken(t.lexeme) { WordReadBack(ar, src, i, t); }
    else if IsNumeral(t.lexeme) && t == NumberToken(ar, t.lexeme) { NumberReadBack(ar, src, i, t); }
    else { StringReadBack(ar, src, i, t); }
  }

  lemma TokenIsLexed(ar: Arith, src: string, i: nat, t: Token)
    requires Lexable(ar, t) && Written(src, i, t)
    ensures Lex(ar, src, i) == [t] + Lex(ar, src, i + |TokenText(t)|)
  {
    hide Lexable, Written, ScanAt, TokenText;
    TokenReadBack(ar, src, i, t);
  }

  lemma {:induction false} BlanksAreSkipped(ar: Arith, src: string, i: nat, j: nat)
    requires i <= j <= |src| && forall k | i <= k < j :: IsBlank(src[k])
    ensures Lex(ar, src, i) == Lex(ar, src, j)
    decreases j - i
  {
    hide IsBlank, Lex;
    if i < j {
      BlankIsSkipped(ar, src, i);
      BlanksAreSkipped(ar, src, i + 1, j);
    }
  }

  lemma BlankIsSkipped(ar: Arith, src: string, i: nat)
    requires i < |src| && IsBlank(src[i])
    ensures Lex(ar, src, i) == Lex(ar, src, i + 1)
  {
    assert ScanAt(ar, src, i) == Scan([], i + 1);
    hide ScanAt, IsBlank;
    assert [] + Lex(ar, src, i + 1) == Lex(ar, src, i + 1);
  }

  lemma BlankIsApart(t: Token, c: char)
    requires IsBlank(c)
    ensures Apart(t, c)
  {
  }

  /** A spelled list starts with its first gap, then its first token, then the rest of the list. */
  lemma SpelledParts(src: string, i: nat, ts: seq<Token>, gaps: seq<string>)
    requires i <= |src| && Gaps(ts, gaps) && src[i..] == Spell(ts, gaps)
    ensures var j := i + |gaps[0]|;
            && j <= |src| && (forall k | i <= k < j :: IsBlank(src[k]))
            && (ts == [] ==> j == |src|)
            && (ts != [] ==> Written(src, j, ts[0]) && src[j + |TokenText(ts[0])|..] == Spell(ts[1..], gaps[1..]))
  {
    hide TokenText, IsBlank, Apart;
    var j := i + |gaps[0]|;
    assert Blank(gaps[0]);
    forall k | i <= k < j ensures IsBlank(src[k]) {
      assert src[k] == src[i..][k - i] == gaps[0][k - i];
    }
    if ts != [] {
      var rest, n := Spell(ts[1..], gaps[1..]), |TokenText(ts[0])|;
      assert src[j..] == src[i..][|gaps[0]|..] == TokenText(ts[0]) + rest;
      assert src[j..j + n] == src[j..][..n] && src[j + n..] == src[j..][n..] == rest;
      if j + n < |src| {
        assert rest[0] == src[j + n];
        RestIsApart(ts, gaps);
      }
    }
  }

  /** What follows the first token is not taken into it. */
  lemma RestIsApart(ts: seq<Token>, gaps: seq<string>)
    requires Gaps(ts, gaps) && ts != [] && Spell(ts[1..], gaps[1..]) != ""
    ensures Apart(ts[0], Spell(ts[1..], gaps[1..])[0])
  {
    hide TokenText, Apart, IsBlank;
    assert gaps[1..][0] == gaps[1] && Blank(gaps[1]);
    if gaps[1] != "" {
      BlankIsApart(ts[0], gaps[1][0]);
    } else if |ts| > 1 {
      assert ts[1..][0] == ts[1] && Meet(ts[0], ts[1]);
    }
  }

  lemma GapsRest(ts: seq<Token>, gaps: seq<string>)
    requires Gaps(ts, gaps) && ts != []
    ensures Gaps(ts[1..], gaps[1..])
  {
    hide Blank, Meet;
    assert forall k | 0 <= k < |gaps[1..]| :: gaps[1..][k] == gaps[k + 1];
    assert forall k | 0 <= k < |ts[1..]| :: ts[1..][k] == ts[k + 1];
  }

  /** Lexing undoes spelling: every list of lexable tokens is read back, with blanks or nothing between. */
  lemma {:induction false} SpelledTokensAreReadBack(ar: Arith, src: string, i: nat, ts: seq<Token>, gaps: seq<string>)
    requires i <= |src| && Gaps(ts, gaps) && AllLexable(ar, ts) && src[i..] == Spell(ts, gaps)
    ensures Lex(ar, src, i) == ts + [Plain(Eof)]
    decreases |ts|
  {
    hide Lexable, ScanAt, Written, Blank, Meet;
    var j := i + |gaps[0]|;
    SpelledParts(src, i, ts, gaps);
    BlanksAreSkipped(ar, src, i, j);
    if ts != [] {
      TokenIsLexed(ar, src, j, ts[0]);
      GapsRest(ts, gaps);
      SpelledTokensAreReadBack(ar, src, j + |TokenText(ts[0])|, ts[1..], gaps[1..]);
      assert ts + [Plain(Eof)] == [ts[0]] + (ts[1..] + [Plain(Eof)]);
    }
  }

  /** Writing out the tokens of any source, a space between each two, and lexing again changes nothing. */
  lemma RelexingIsIdentity(ar: Arith, src: string)
    ensures var ts := Lex(ar, src, 0);
            var gaps := seq(|ts|, _ => " ");
            |ts| > 0 && Lex(ar, Spell(ts[..|ts| - 1], gaps), 0) == ts
  {
    hide Lexable, ScanAt;
    var ts := Lex(ar, src, 0);
    LexIsLexable(ar, src, 0);
    var gaps := seq(|ts|, _ => " ");
    var text := Spell(ts[..|ts| - 1], gaps);
    assert text[0..] == text;
    SpelledTokensAreReadBack(ar, text, 0, ts[..|ts| - 1], gaps);
  }
}
