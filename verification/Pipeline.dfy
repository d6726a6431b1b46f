/** From the text of a program to its result, through lexer, parser and either way of running it. */
module Pipeline {
  import opened Values
  import opened Syntax
  import opened Grammar
  import opened Compiler
  import opened Machine
  import opened Agreement
  import opened ParserProgress
  import CL = CompilerLimits
  import L = Lexer
  import LP = LexerProofs
  import P = Printing
  import R = StatementRoundTrip
  import RS = StatementSoundness
  import S = Semantics
  import T = Texts

  /** Tokens that spell the program, in a text with any blanks between them. */
  ghost predicate Writes(ar: Arith, src: string, ts: seq<Token>, gaps: seq<string>, stmts: seq<Stmt>) {
    && LP.Gaps(ts, gaps) && LP.AllLexable(ar, ts) && src == LP.Spell(ts, gaps)
    && R.StmtsAt(stmts, ts + [Plain(Eof)], 0, |ts|)
  }

  /** Lexing and parsing any text of a writable program gives that program. */
  lemma TextIsReadBack(ar: Arith, src: string, ts: seq<Token>, gaps: seq<string>, stmts: seq<Stmt>)
    requires R.AllWritable(stmts) && Writes(ar, src, ts, gaps, stmts)
    ensures L.Lex(ar, src, 0) == ts + [Plain(Eof)]
    ensures At(L.Lex(ar, src, 0), 0) && ParseProgram(L.Lex(ar, src, 0), 0) == Ok(stmts, |ts|)
  {
    assert src[0..] == src;
    LP.SpelledTokensAreReadBack(ar, src, 0, ts, gaps);
    R.ProgramReadBack(stmts, ts + [Plain(Eof)], |ts|);
  }

  /** Lexing and parsing the text gives the program. */
  ghost predicate Reads(ar: Arith, src: string, stmts: seq<Stmt>) {
    var toks := L.Lex(ar, src, 0);
    At(toks, 0) && ParseProgram(toks, 0).Ok? && ParseProgram(toks, 0).value == stmts
  }

  /** Every writable program whose tokens the lexer makes and whose literals have a notation has a text. */
  lemma TextOf(ar: Arith, stmts: seq<Stmt>) returns (src: string, ts: seq<Token>, gaps: seq<string>)
    requires R.AllWritable(stmts) && T.LexableStmts(ar, stmts)
    ensures Writes(ar, src, ts, gaps, stmts)
  {
    hide R.AllWritable, R.StmtsAt, T.LexableStmts, P.Print, LP.AllLexable, LP.Spell, T.Clean;
    ts := P.Print(ar, stmts);
    gaps := seq(|ts| + 1, _ => " ");
    src := LP.Spell(ts, gaps);
    T.StmtsAreClean(ar, stmts);
    T.CleanIsLexable(ar, ts);
    var toks := ts + [Plain(Eof)];
    assert toks[0..0 + |ts|] == ts;
    P.PrintedStmtsAreSpelled(ar, stmts, toks, 0);
  }

  /** A program that a text is read as is writable, and the lexer makes its tokens. */
  lemma ReadIsWritable(ar: Arith, src: string, stmts: seq<Stmt>)
    requires Reads(ar, src, stmts)
    ensures R.AllWritable(stmts) && T.LexableStmts(ar, stmts)
  {
    hide R.AllWritable, R.StmtsAt, T.LexableStmts, ParseProgram, L.Lex;
    var toks := L.Lex(ar, src, 0);
    var n := ParseProgram(toks, 0).next;
    RS.ParsesExactlyTheSpelledProgram(toks, stmts, n);
    SourceIsLexed(ar, src);
    T.StmtsAtAreLexable(ar, stmts, toks, 0, n);
  }

  lemma SourceIsLexed(ar: Arith, src: string)
    ensures T.Lexed(ar, L.Lex(ar, src, 0))
  {
    hide LP.Lexable, L.Lex;
    LP.LexIsLexable(ar, src, 0);
    var toks := L.Lex(ar, src, 0);
    LexableAt(ar, toks[..|toks| - 1]);
    assert forall i | 0 <= i < |toks| - 1 :: toks[i] == toks[..|toks| - 1][i];
  }

  lemma {:induction false} LexableAt(ar: Arith, ts: seq<Token>)
    requires LP.AllLexable(ar, ts)
    ensures forall i | 0 <= i < |ts| :: LP.Lexable(ar, ts[i])
  {
    hide LP.Lexable;
    if ts != [] {
      LexableAt(ar, ts[1..]);
      assert forall i | 0 < i < |ts| :: ts[i] == ts[1..][i - 1];
    }
  }

  /**
   The programs of the language exactly: a program is what some text is read as if and only if it is
   writable, the lexer makes its tokens and its literals have a notation.
   */
  lemma ProgramsWithTexts(ar: Arith, stmts: seq<Stmt>)
    ensures (exists src :: Reads(ar, src, stmts)) <==> R.AllWritable(stmts) && T.LexableStmts(ar, stmts)
  {
    hide Writes, R.AllWritable, T.LexableStmts, ParseProgram;
    if src :| Reads(ar, src, stmts) {
      ReadIsWritable(ar, src, stmts);
    }
    if R.AllWritable(stmts) && T.LexableStmts(ar, stmts) {
      var src, ts, gaps := TextOf(ar, stmts);
      TextIsReadBack(ar, src, ts, gaps, stmts);
      assert Reads(ar, src, stmts);
    }
  }

  /**
   From any text of a typed program, the compiler and the machine lead to the globals that the
   interpreter leads to, up to the strictness of comparisons.
   */
  lemma TextRunsTheSameBothWays(ar: Arith, fuel: nat, src: string, stmts: seq<Stmt>)
    requires Reads(ar, src, stmts) && WellTyped(stmts, map[]) && CL.Repeats(ProgramPool(stmts))
    ensures var p := ParseProgram(L.Lex(ar, src, 0), 0).value;
            var r := Execute(ar, ProgramCode(p, 0), ProgramPool(p), State(0, [], map[]));
            var i := S.ExecAll(ar, fuel, RelaxAll(p), S.START);
            && p == stmts && r.Halted? && r.state.stack == []
            && i.end.Done? && i.mem == Top(r.state.globals)
            && (AllLax(p) ==> S.ExecAll(ar, fuel, p, S.START) == i)
  {
    hide CL.Repeats, ParseProgram, L.Lex, Execute, S.ExecAll;
    MachineAgreesWithInterpreter(ar, fuel, stmts);
  }

  /** A lone closing parenthesis keeps the parser busy for ever. */
  lemma LoneParenthesisDiverges(ar: Arith)
    ensures L.Lex(ar, ")", 0) == [Plain(RParen), Plain(Eof)]
    ensures At(L.Lex(ar, ")", 0), 0) && ParseProgram(L.Lex(ar, ")", 0), 0) == Err(Diverges)
  {
    hide L.ScanAt, ParseDecls, Stuck;
    LoneParenthesisIsScanned(ar);
    assert L.Lex(ar, ")", 1) == [Plain(Eof)];
    LoneParenthesisIsStuck();
  }

  lemma LoneParenthesisIsScanned(ar: Arith)
    ensures L.ScanAt(ar, ")", 0) == L.Scan([Plain(RParen)], 1)
  {
    assert L.SingleKind(')') == [RParen];
  }

  lemma LoneParenthesisIsStuck()
    ensures ParseProgram([Plain(RParen), Plain(Eof)], 0) == Err(Diverges)
  {
    hide ParseDecls, ParseDecl;
    var toks := [Plain(RParen), Plain(Eof)];
    assert Stuck(toks[0].kind);
    StuckProgramDiverges(toks, false, [], 0);
  }
}
