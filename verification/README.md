# minijsc, verified

This project models minijsc, a small JavaScript engine written in C++ with an experimental
mark-sweep collector in C, and proves what its parts promise.  Five components are covered:

* **the collector** (`gc/gc.c`): a shadow stack of roots, a linked list of all objects, mark bits,
  in-place unlinking and a threshold that adapts after each collection;
* **the lexer** (`src/lib/JSLexer.cpp`) and **the parser** (`src/lib/JSParser.cpp`): characters to
  tokens, tokens to syntax trees;
* **the bytecode compiler and the stack machine** (`src/lib/BytecodeCompiler.cpp`, `src/lib/VM.cpp`);
* **the tree interpreter** (`src/lib/Interpreter.cpp`, `include/Interpreter.h`,
  `include/JSCallable.h`): a vector of scopes, a value stack, and returns that are exceptions.

Code that works step by step on fields is a Dafny class whose methods are proved equal to a
specification function or state machine over values; theorems about all inputs and all runs are
proved about those functions, so they hold of the objects too.

| file | content |
|---|---|
| `Reachability.dfy`, `HeapModel.dfy`, `HeapRuns.dfy` | reachability in a graph; the collector over values; theorems over its runs |
| `Collector.dfy` | the collector on objects with mark bits and `next` pointers |
| `Values.dfy`, `Syntax.dfy` | JavaScript values over an abstract arithmetic; tokens and trees |
| `Lexer.dfy`, `LexerProofs.dfy` | the scanner; reading back every spelled token list |
| `Grammar.dfy`, `Parser.dfy` | the parse functions; the parser object that refines them |
| `Spelling.dfy`, `ParserRoundTrip.dfy`, `ParserSoundness.dfy` | which tokens spell which expression, without reference to the parser; both directions |
| `StatementRoundTrip.dfy`, `StatementSoundness.dfy` | the same for statements and programs |
| `Printing.dfy`, `Texts.dfy` | what a program is written as; which programs have a source text |
| `Precedence.dfy` | how chains of operators are grouped |
| `ParserProgress.dfy` | which function reads a statement; where parsing never ends |
| `Compiler.dfy`, `Machine.dfy`, `CompilerCorrect.dfy`, `CompilerLimits.dfy` | code generation; the machine; correctness of compiled code and where it ends |
| `Semantics.dfy`, `Interpreter.dfy`, `InterpreterFuel.dfy`, `InterpreterScopes.dfy` | the interpreter over values; the interpreter object; theorems about scopes, returns and fuel |
| `NaturalSemantics.dfy` | the interpreter without fuel, by one rule for each construct |
| `Operators.dfy` | values, operators and instructions case by case |
| `Agreement.dfy`, `Pipeline.dfy` | the two ways of running a program compared; from source text to result |

Main results:

1. A collection leaves on the list exactly the objects that paths from the stack reach, in their old
   order, with marks clear; no run of operations leaves anything dangling; all sweeps together visit
   at most two objects for each allocated; a client cannot tell that collections happen.
2. Lexing reads back every list of tokens from any text that spells it, with blanks or, where no
   token runs into the next, nothing between; writing out the tokens of any source and lexing again
   changes nothing. A word is a keyword exactly if it is how that keyword is written.
3. The parser returns an expression, statement or program, with operands missing or not, **if and
   only if** it is canonical, the tokens up to the new cursor spell it, and no token stands where an
   operand or a statement is missing; so the grammar is unambiguous. A program is what some source
   text is read as **if and only if** it is writable, the lexer makes its tokens and its literals
   have a notation. In every successful parse of any tokens an else goes to the nearest if: no if
   that has an else has a then-branch that could take it, and no statement that could take an else
   is followed by one. A chain of operands and operators is grouped around the last of its loosest
   operators, by the six classes from `||` to `*` and `/`. A declaration consumes nothing exactly at
   a token that can neither start nor continue anything, and there the parser loops for ever.
4. Compiled code of every compilable program evaluates it, for pools of every size in terms of the
   one-byte operands; each operand is its value's index exactly up to 256 entries, and leads to its
   value exactly if the pool repeats itself every 256 entries, and then programs of any size keep
   their meaning. The size of the pool is one entry for each literal, reference, declared name and
   missing initializer.
5. In every execution of the interpreter, including those cut off by a return or an error, scopes
   form a line that ends in the current one, the global scope stays, and scopes and stack grow by
   exactly the blocks left by an exception and the calls ended by a return. Without fuel it is a
   natural semantics: one rule for each construct says, over its parts alone, from which state it
   ends in which state and with what **if and only if**; a loop ends if and only if there is a
   sequence of states, each led to by a true condition, the body and then the step, whose last state
   ends it.
6. Compiler and machine agree with the interpreter on every typed program of initialized
   declarations, up to the strictness of `<` and `>`. An exact condition on the operands, for every
   binary operator and all operands, says where the two mean the same by it; every program whose
   operators meet it runs to the same globals both ways.

Where the code departs from its own comments or from JavaScript, the model follows the code:

* strings are never true: the case of a nonempty string falls through to that of null
  (`include/Interpreter.h:202-207`, `include/VM.h:138-143`);
* a function runs in the scope of its caller, not in the global one (`include/JSCallable.h:55-60`);
* a block that is left by an exception is not unwound (`src/lib/Interpreter.cpp:383-393`), so a
  return leaves scopes and a value behind (`include/JSCallable.h:79-87`);
* the machine computes `<` as `<=` and `>` as `>=` (`src/lib/VM.cpp:106-121`), and its logical
  operators do not short-circuit (`src/lib/VM.cpp:46-59`).

## Model

| member | source | states |
|---|---|---|
| Reachability.FillIsClosed | gc/gc.c:72-83 | what marking computes is closed under the fields of every object it expands, in every finite graph, cycles included |
| Reachability.FillIsLeast | gc/gc.c:72-83 | and is the least such set: nothing unreachable is marked |
| Reachability.FillPair | gc/gc.c:77-82 | marking a pair, then its first and then its second part, marks all that is reachable from the pair |
| Reachability.FillTwice | gc/gc.c:85-89 | marking from one root after another marks what is reachable from all of them |
| Reachability.PathEndIsFilled | gc/gc.c:72-83 | every object at the end of a path of unmarked objects gets marked |
| Reachability.FilledHasPath | gc/gc.c:72-83 | every object that gets marked is at the end of such a path |
| Collector.Mark | gc/gc.c:72-83 | the recursive marker terminates on every graph, with the unmarked objects as measure, and sets exactly the marks of what unmarked paths from its argument reach |
| Collector.VM.MarkAll | gc/gc.c:85-89 | from clear marks, the marked objects are exactly those reachable from the stack |
| Collector.VM.Unlink | gc/gc.c:94-101 | unlinking at the cursor removes that one object from the list and keeps the rest in place |
| Collector.VM.Sweep | gc/gc.c:91-108 | the list becomes the stable filter of the old list by the mark bits, all marks are clear, the count is the length, and the loop looks at each object of the old list once |
| Collector.VM.Gc | gc/gc.c:110-120 | a collection is `Collect` on the abstract heap: stack and survivors' fields as before, threshold 8 or twice the survivors |
| Collector.VM.NewObject | gc/gc.c:122-135 | collects if and only if the threshold is reached, then puts a new unmarked object in front |
| Collector.VM.Push | gc/gc.c:62-65 | one more slot, or failure exactly at 256 slots |
| Collector.VM.Pop | gc/gc.c:67-70 | the last slot, or failure exactly on the empty stack |
| Collector.VM.PushInt | gc/gc.c:137-142 | allocates an int and roots it |
| Collector.VM.PushPair | gc/gc.c:144-151 | both parts stay rooted during the collection that allocating the pair may trigger; the pair then holds them in order |
| Collector.VM.FreeVM | gc/gc.c:169-173 | the list is empty and the count zero |
| Collector.RootlessHeapIsEmptied | gc/gc.c:169-173 | a collection without roots frees every object, cycles included |
| HeapModel.CollectKeepsValid | gc/gc.c:110-120 | after a collection no stack slot and no field of a listed object leads outside the list, and the list is the live set |
| HeapModel.PushPairKeepsValid | gc/gc.c:144-151 | making a pair leaves nothing dangling even if it collects |
| HeapModel.StepKeepsValid | gc/gc.c:62-151 | every operation, also writing a field of a listed object, keeps the heap closed, the list free of repetition and its length within the threshold |
| HeapRuns.CollectKeepsExactlyTheReachable | gc/gc.c:91-120 | an object survives if and only if a path of fields from a stack slot ends in it |
| HeapRuns.KeepOrder | gc/gc.c:91-108 | any two survivors keep their order, with the survivors between them |
| HeapRuns.CollectTwiceFreesNothing | gc/gc.c:110-120 | collecting again changes neither list nor fields |
| HeapRuns.Run | gc/gc.c:62-151 | every heap in every run of operations is closed |
| HeapRuns.SweepsAreAmortised | gc/gc.c:110-135 | from any heap whose debt is covered, collections triggered by allocation visit at most two objects for each one allocated |
| HeapRuns.NewVMIsAmortised | gc/gc.c:53-60 | so they do in every run of a new machine |
| HeapRuns.ThresholdFollowsSurvivors | gc/gc.c:110-124 | after any run the threshold is the first one, or 8, or twice the survivors of the last collection, and the list is never longer |
| HeapRuns.Thresholds | gc/gc.c:53-60 | a new machine collects at 8 objects, and a collection sets twice what it keeps, or 8 if that is nothing |
| HeapRuns.StackLimit | gc/gc.c:62-70 | the stack takes 256 slots; a push fails exactly on a full one, a pop on an empty one, a pair with fewer than two |
| HeapRuns.PushedInt | gc/gc.c:137-142 | the new object is on top of the stack and first on the list, is none of those on the stack and holds the value; rooted objects stay and no other field changes |
| HeapRuns.PushedPair | gc/gc.c:144-151 | so is a new pair, which takes the two upper slots off the stack and holds the lower one first |
| HeapRuns.WrittenFields | gc/gc.c:19-33 | writing a field of a pair changes that field and nothing else |
| HeapRuns.PartsAreListed | gc/gc.c:72-83 | both parts of a pair that is kept are kept, with its fields as they were |
| HeapRuns.PairOfInts | gc/gc.c:137-151 | in every heap with room, pushing two ints and a pair leads from the pair to the two values in order, whatever is collected on the way |
| HeapRuns.CollectionIsTransparent | gc/gc.c:110-151 | any run ends like the same run in a memory that never collects: same failures, same stack, same fields of every surviving object |
| HeapRuns.AgreeingHeapsLookAlike | gc/gc.c:153-167 | two such memories look alike along every path of fields |
| Lexer.JSLexer.ScanToken | src/lib/JSLexer.cpp:56-168 | appends exactly the token, if any, that starts at the cursor and moves the cursor and the line count past it |
| Lexer.JSLexer.ScanIdentifier | src/lib/JSLexer.cpp:171-186 | takes the longest run of word characters; a keyword gets its own kind |
| Lexer.JSLexer.ScanNumeric | src/lib/JSLexer.cpp:189-209 | takes the longest run of digits, and a fraction only if a digit follows the dot |
| Lexer.JSLexer.ScanString | src/lib/JSLexer.cpp:212-234 | takes up to the next quote, or drops an unterminated string |
| Lexer.JSLexer.ScanTokens | src/lib/JSLexer.cpp:46-53 | the tokens of the whole source, then one end marker |
| LexerProofs.CharacterClasses | src/lib/JSLexer.cpp:272-281 | letters and the underscore, digits and blanks, by their codes |
| LexerProofs.KeywordsAreTheirTexts | include/JSLexer.h:26-64 | a word has the kind of a keyword if and only if it is the text of that keyword, for all 35, in a table of its own |
| LexerProofs.OtherWordsAreIdentifiers | src/lib/JSLexer.cpp:171-186 | a word is an identifier if and only if it is the text of no keyword |
| LexerProofs.DroppedExactly | src/lib/JSLexer.cpp:56-168 | no token comes of blanks, a lone ampersand or vertical bar, a string without an end and the characters of no token, and of nothing else |
| LexerProofs.DroppedUpTo | src/lib/JSLexer.cpp:56-168 | what is dropped is one character, or all the rest after the start of a string without an end |
| LexerProofs.LinesAreCounted | src/lib/JSLexer.cpp:150-152 | the line count is the number of line breaks before the cursor |
| LexerProofs.ScanIsLexable | src/lib/JSLexer.cpp:56-234 | whatever is scanned is an operator, a word of the kind its text has, a numeral with its value, or a string without quotes |
| LexerProofs.LexIsLexable | src/lib/JSLexer.cpp:46-53 | every source lexes to such tokens and one end marker |
| LexerProofs.SymbolReadBack | src/lib/JSLexer.cpp:60-145 | an operator is read back unless an equals sign follows that would make it another, the longest match winning |
| LexerProofs.WordReadBack | src/lib/JSLexer.cpp:171-186 | so is a word, as keyword or identifier, unless a word character follows |
| LexerProofs.NumberReadBack | src/lib/JSLexer.cpp:189-209 | so is a numeral with its value, unless a digit or a dot follows |
| LexerProofs.StringReadBack | src/lib/JSLexer.cpp:212-234 | so is a string with its contents, whatever follows |
| LexerProofs.SpelledTokensAreReadBack | src/lib/JSLexer.cpp:46-234 | every list of such tokens is read back from every text that spells it, with any blanks between and none where no token is taken into the one before |
| LexerProofs.RelexingIsIdentity | src/lib/JSLexer.cpp:46-234 | for every source: writing out its tokens a space apart and lexing that gives the same tokens |
| Parser.JSParser.Match | include/JSParser.h:34-60 | moves the cursor over the current token exactly if it has the kind |
| Parser.JSParser.Consume | include/JSParser.h:72-80 | returns and passes the expected token, or fails without moving |
| Parser.JSParser.ParseExpr | src/lib/JSParser.cpp:199-221 | the parser object does on its cursor what the grammar function does on an index |
| Parser.JSParser.ParseBinary | src/lib/JSParser.cpp:259-378 | likewise for the loops of the six levels of binary and logical operators |
| Parser.JSParser.ParseUnary | src/lib/JSParser.cpp:298-314 | likewise for the prefix operators |
| Parser.JSParser.ParseCall | src/lib/JSParser.cpp:340-365 | likewise for chains of argument lists |
| Parser.JSParser.ParsePrimary | src/lib/JSParser.cpp:223-257 | likewise for literals, names and parentheses, and null without moving for any other token |
| Parser.JSParser.ParseStmt | src/lib/JSParser.cpp:29-49 | likewise for statements |
| Parser.JSParser.ParseFuncDecl | src/lib/JSParser.cpp:155-178 | likewise for function declarations with at most 255 parameters |
| Parser.JSParser.Parse | src/lib/JSParser.cpp:21-27 | likewise for a whole program |
| Grammar.ParseExpr | src/lib/JSParser.cpp:194-221 | terminates on every token list that ends in Eof, by tokens left and then by level, and the cursor neither goes back nor passes Eof |
| Grammar.ParseBinary | src/lib/JSParser.cpp:259-338 | the same for every level of binary operators |
| Grammar.ParseDecls | src/lib/JSParser.cpp:51-60 | the same for the loops over declarations |
| ParserRoundTrip.ReadBack | src/lib/JSParser.cpp:199-378 | tokens that spell a canonical tree of a level, none of them standing where an operand is missing, up to a token that cannot continue it, are parsed to that tree and no further |
| ParserRoundTrip.ReadBackExpr | src/lib/JSParser.cpp:199-221 | the same for whole expressions, assignment being right-associative |
| ParserRoundTrip.BinaryLoop | src/lib/JSParser.cpp:259-378 | the loops build left-associative trees |
| ParserRoundTrip.CallLoop | src/lib/JSParser.cpp:340-365 | call chains of at most 255 arguments each are read back |
| ParserSoundness.ParsedIsSound | src/lib/JSParser.cpp:199-378 | whatever parses is canonical, is spelled by exactly the tokens between the cursors, stops at a token that cannot continue it, and has nothing standing where an operand is missing |
| ParserSoundness.ArgsAreSound | src/lib/JSParser.cpp:346-355 | the same for argument lists |
| ParserSoundness.ParsesExactlyTheSpelled | src/lib/JSParser.cpp:194-378 | any tree is returned with a cursor if and only if it is canonical, spelled by the tokens up to there and complete, no minus follows a missing operand inside it, no call lacks its callee or has a missing single argument, and no operand follows one missing at its end |
| ParserSoundness.NullFreeParsesExactlyTheSpelled | src/lib/JSParser.cpp:194-378 | without missing operands it is enough that it is canonical, spelled and complete |
| ParserSoundness.SpelledAtMostOnce | src/lib/JSParser.cpp:194-378 | no token list spells two such expressions from one place, with operands missing or not |
| ParserSoundness.MissingOperandsAreAmbiguous | src/lib/JSParser.cpp:223-314 | the conditions on missing operands are needed: `- x` also spells a subtraction without a left operand, but is parsed as the negation |
| ParserSoundness.LiteralsAreRead | src/lib/JSParser.cpp:223-257 | each kind of literal token is read as its value, and an identifier as a variable |
| ParserSoundness.ArgumentLimit | src/lib/JSParser.cpp:340-365 | arguments are read up to the 255th; one more is an error |
| ParserSoundness.TargetsAndOperands | src/lib/JSParser.cpp:199-221 | a target that is no variable, a missing one and a missing operand of a prefix fail each in its way |
| Precedence.ChainsAreGrouped | src/lib/JSParser.cpp:259-338 | any chain of operands and binary operators is parsed as the tree whose root is the last of its loosest operators, and likewise to both sides, by the six classes written out |
| Precedence.TwoOperators | src/lib/JSParser.cpp:259-338 | `x p y q z` nests the second operator under the first if and only if its class comes later, and is left-nested otherwise |
| StatementRoundTrip.StmtReadBack | src/lib/JSParser.cpp:29-192 | every writable statement that is spelled ahead of the cursor, an empty one included, is read back and exactly its tokens are consumed |
| StatementRoundTrip.IfReadBack | src/lib/JSParser.cpp:62-77 | so are if statements, with an else if the then-branch could not take it, without one if none follows |
| StatementRoundTrip.ForReadBack | src/lib/JSParser.cpp:92-120 | so are for statements with any of their three parts missing |
| StatementRoundTrip.FuncReadBack | src/lib/JSParser.cpp:155-178 | so are function declarations with at most 255 parameters |
| StatementRoundTrip.ProgramReadBack | src/lib/JSParser.cpp:21-27 | every writable program is read back from any tokens that spell it, `var a = ;` and `var a;` alike |
| StatementRoundTrip.ElseBelongsToNearestIf | src/lib/JSParser.cpp:62-77 | the tokens of an if in an if with an else spell both nestings, and the parser takes the inner one |
| StatementSoundness.ElseGoesToNearestIf | src/lib/JSParser.cpp:62-77 | in every successful parse of a statement, whatever the tokens, no if at any depth has both an else and a then-branch that could take it, and a statement that could still take an else is followed by none |
| StatementSoundness.ElseGoesToNearestIfInPrograms | src/lib/JSParser.cpp:21-77 | so it is in every program that parses |
| StatementSoundness.StmtIsSound | src/lib/JSParser.cpp:29-192 | whatever statement parses is writable, is spelled by exactly the consumed tokens, and is followed by no token that it would take |
| StatementSoundness.DeclsAreSound | src/lib/JSParser.cpp:51-60 | the same for the loop over declarations, in a block and in a program, from any point in it |
| StatementSoundness.MissingTokens | src/lib/JSParser.cpp:180-192 | a token that is not the expected one fails, and so does the end of the tokens after an expression, each in its way |
| StatementSoundness.ParameterLimit | src/lib/JSParser.cpp:155-178 | parameters are read up to the 255th; one more is an error |
| StatementSoundness.ParsesExactlyTheSpelledStatement | src/lib/JSParser.cpp:29-192 | any statement is returned with a cursor if and only if it is writable, spelled by the tokens up to there, and followed neither by an else it could take nor, if it ends with an empty statement, by a token that starts one |
| StatementSoundness.ParsesExactlyTheSpelledProgram | src/lib/JSParser.cpp:21-192 | any program is the result if and only if it is writable and the tokens up to an Eof spell it; only a variable is declared after a statement that ends with an empty one |
| StatementSoundness.ProgramSpelledAtMostOnce | src/lib/JSParser.cpp:21-192 | no token list spells two writable programs |
| Printing.PrintedProgramIsReadBack | src/lib/JSParser.cpp:21-192 | every writable program has tokens that spell it, and they parse to it and to nothing else |
| Texts.StmtsAreClean | src/lib/JSLexer.cpp:46-234 | if the lexer makes the names, operators and literals of a program, it makes all tokens the program is written with |
| Texts.StmtsAtAreLexable | src/lib/JSLexer.cpp:46-234 | a program spelled by lexed tokens has only names and operators that the lexer makes and literals that have a notation |
| ParserProgress.EmptyExpression | src/lib/JSParser.cpp:199-257 | an expression is missing if and only if it would start at a token that is no operand and no operator, and only a missing one consumes nothing |
| ParserProgress.EmptyStatement | src/lib/JSParser.cpp:29-49 | a statement is empty, and consumes nothing, exactly at a token that starts and continues nothing |
| ParserProgress.ConsumesNothingExactlyWhenStuck | src/lib/JSParser.cpp:134-192 | a declaration consumes nothing if and only if it starts at a token that starts and continues nothing |
| ParserProgress.StuckProgramDiverges | src/lib/JSParser.cpp:21-60 | at such a token the loop over declarations never ends; at any other it moves on |
| Compiler.BytecodeCompiler.AddValue | include/BytecodeCompiler.h:45-48 | the index returned is where the value now is; earlier values stay |
| Compiler.BytecodeCompiler.EmitValue | include/BytecodeCompiler.h:38-42 | an instruction and the value's index cut to a byte are appended |
| Compiler.BytecodeCompiler.CompileExpr | src/lib/BytecodeCompiler.cpp:18-134 | code and pool are extended by those of the tree and not otherwise changed |
| Compiler.BytecodeCompiler.CompileStmt | src/lib/BytecodeCompiler.cpp:136-169 | the same for statements, of which only declarations and returns emit anything |
| Compiler.BytecodeCompiler.CompileProgram | include/BytecodeCompiler.h:60-66 | the same for a list of statements |
| Machine.Step | src/lib/VM.cpp:14-155 | an instruction that does not end the run moves the instruction pointer forward and not beyond the end |
| Machine.Execute | src/lib/VM.cpp:13-157 | every run of every code ends, in a halt or a fault |
| Machine.VM.Fetch | include/VM.h:77-82 | reads the next byte, or fails at the end of the code |
| Machine.VM.Dispatch | src/lib/VM.cpp:22-153 | one turn of the loop is one step of the state machine, with its faults |
| Machine.VM.Run | src/lib/VM.cpp:13-157 | the loop carries out the execution to its halt or fault |
| Operators.TextsByFirstDifference | include/JSValue.h:111-133 | texts are ordered by the first character in which they differ, and a text comes before its continuations |
| Operators.TextsAreOrdered | include/JSValue.h:111-133 | this order is reflexive, antisymmetric, transitive and total |
| Operators.ComparisonsOfValues | include/JSValue.h:82-160 | values compare only with values of their kind: numbers, texts and booleans, each in their order |
| Operators.OperatorBytes | include/Bytecode.h:24-47 | the byte that each arithmetic, logical and prefix operator is compiled to |
| Operators.ComparisonBytes | include/Bytecode.h:24-47 | and each comparison |
| Operators.OperandBytes | include/Bytecode.h:24-47 | the bytes of constants, variables, declarations and returns |
| Operators.PoolEntries | include/BytecodeCompiler.h:38-48 | the pool entries of constants, variables, declarations and returns |
| Operators.BinaryInstruction | src/lib/VM.cpp:46-121 | each instruction with two operands, by its byte: what it takes, what it leaves, and that it needs two |
| Operators.UnaryInstruction | src/lib/VM.cpp:35-45 | negation and not, likewise |
| Operators.OperandInstruction | src/lib/VM.cpp:122-149 | constants, globals read, declared by reading, and set; with their faults |
| Operators.OtherInstruction | src/lib/VM.cpp:22-25 | a return halts, and a byte that is no instruction is passed over |
| Operators.MachineOrdersTexts | src/lib/VM.cpp:106-121 | `<`, `<=`, `>` and `>=` on two texts, by their first difference |
| CompilerCorrect.ExprRuns | src/lib/BytecodeCompiler.cpp:18-128 | the code of a compilable tree, in any code and from any state, leaves the old stack with the tree's value on top and the pointer at the end of that code, without fault |
| CompilerCorrect.DeclRuns | src/lib/BytecodeCompiler.cpp:152-161 | the code of a declaration sets its variable to the value of its initializer, or to undefined, and restores the stack |
| CompilerCorrect.ProgramRuns | src/lib/VM.cpp:13-157 | any program of declarations, whatever other statements lie between, runs to its end or first return with the stack restored and the declared globals, later ones overriding earlier ones; for pools of every size |
| CompilerLimits.ProgramPoolSize | src/lib/BytecodeCompiler.cpp:18-161 | the pool has one entry for each literal, each reference to a variable, each declared name and each missing initializer: none is shared |
| CompilerLimits.RereadIsIdentity | include/BytecodeCompiler.h:38-48 | if the pool repeats itself every 256 entries, as it does if it has no more, reading the operands of a tree gives the tree |
| CompilerLimits.RepeatingProgramMeansSource | src/lib/VM.cpp:13-157 | if the pool repeats itself every 256 entries, a fresh machine ends with an empty stack and with the globals of the source program |
| CompilerLimits.CompiledProgramMeansSource | src/lib/VM.cpp:13-157 | so it does with at most 256 pool entries, whatever they are |
| CompilerLimits.OperandsLeadToTheirValues | include/BytecodeCompiler.h:38-48 | every decoded operand leads to the value it was emitted for if and only if the pool repeats itself so |
| CompilerLimits.CopiesAreHarmless | include/BytecodeCompiler.h:38-42 | any number of copies of `var x = true;` runs to x being true, however large the pool |
| CompilerLimits.ProgramOperands | include/BytecodeCompiler.h:38-48 | decoded from the bytes, the operands of a program are the indices of its pool in order, cut to a byte, and no instruction lacks one |
| CompilerLimits.OperandsAreExactUpTo256 | include/BytecodeCompiler.h:38-48 | every operand is the index of its value if and only if the pool has at most 256 entries |
| CompilerLimits.MeaningIsLostBeyond256 | include/BytecodeCompiler.h:38-42 | a program of 129 declarations whose run never declares its last variable |
| CompilerLimits.CompilableMissesNothing | src/lib/BytecodeCompiler.cpp:130-134 | a tree with known operators is compilable exactly if no assignment, call or missing operand is in it |
| CompilerLimits.CodeFallsShort | src/lib/BytecodeCompiler.cpp:130-134 | the code of any tree raises the stack by one less what is missing, or underflows; so only compilable trees leave a value on every stack |
| Semantics.Holder | include/Interpreter.h:93-109 | the innermost scope that binds a name |
| Semantics.Sum | src/lib/Interpreter.cpp:177-209 | next to a string both operands are joined as text, two numbers are added, and anything else is a type error |
| Semantics.BinaryOp | src/lib/Interpreter.cpp:168-270 | refused exactly for unknown operators, operands that are no primitive values and sums of neither two numbers nor a string; comparisons give booleans and arithmetic numbers |
| Operators.AdditionTable | src/lib/Interpreter.cpp:177-209 | what addition makes of numbers, texts, booleans, null and undefined |
| Operators.ArithmeticTable | src/lib/Interpreter.cpp:211-229 | the other arithmetic operators on any two values, those that are no numbers counting as zero |
| Operators.OrderTable | src/lib/Interpreter.cpp:230-253 | so do the orders |
| Operators.EqualityTable | src/lib/Interpreter.cpp:254-268 | and equality |
| Operators.UnaryTable | src/lib/Interpreter.cpp:274-300 | negation and not, on values, functions and null pointers |
| Operators.BinaryFaults | src/lib/Interpreter.cpp:168-176 | null pointers and functions are no operands, the left one being looked at first |
| Operators.OtherPrefixes | src/lib/Interpreter.cpp:291-297 | an operator that is no prefix gives null |
| Operators.NumberOf | include/JSValue.h:209-216 | a value that is no number reads as zero |
| Operators.TruthTable | include/Interpreter.h:190-210 | true are true itself and the numbers that do not equal zero |
| Operators.ShownAs | include/JSValue.h:188-207 | the text a value is shown as |
| Semantics.Eval | src/lib/Interpreter.cpp:347-358 | every evaluation, also one that fails, keeps the scopes a line ending in the current one, and grows scopes and stack by exactly what was abandoned and returned; old stack contents and old names stay |
| Semantics.EvalLogical | src/lib/Interpreter.cpp:302-322 | the same for operators that evaluate their right operand only if needed |
| Semantics.EvalCall | src/lib/Interpreter.cpp:137-155 | the same for calls, whose result is a value and never a return in flight |
| Semantics.Apply | include/JSCallable.h:53-91 | the same for the two scopes of a call, of which a return removes one |
| Semantics.Exec | src/lib/Interpreter.cpp:21-122 | the same for statements; one that ends normally leaves scopes behind if and only if some call in it returned |
| Semantics.Loop | src/lib/Interpreter.cpp:44-66 | the same for loops, over any number of rounds |
| Semantics.ExecBlock | src/lib/Interpreter.cpp:370-394 | the same for blocks; none adds a name to an old scope, and one left by an exception leaves more scopes than calls returned in it |
| NaturalSemantics.EndsOneWay | src/lib/Interpreter.cpp:347-365 | an expression and a statement end in at most one way from a state |
| NaturalSemantics.LeafRule | src/lib/Interpreter.cpp:158-163 | literals, parentheses and missing operands |
| NaturalSemantics.VariableRule | include/Interpreter.h:93-112 | a variable has the value that the last scope binding it gives it, and is an error if none does |
| NaturalSemantics.UnaryRule | src/lib/Interpreter.cpp:274-300 | the operand, then the operator |
| NaturalSemantics.BinaryRule | src/lib/Interpreter.cpp:168-270 | the left operand, the right one in the state the left one leaves, then the operator |
| NaturalSemantics.LogicalRule | src/lib/Interpreter.cpp:302-322 | the left operand is the value if its truth decides, and else the right one is evaluated where the left one ended |
| NaturalSemantics.AssignRule | src/lib/Interpreter.cpp:128-134 | the source, and then the last scope that binds the name is changed at it, or an error if none does |
| NaturalSemantics.CallRule | include/JSCallable.h:53-91 | the callee, the arguments from left to right each where the one before ended, then the body in two scopes with the parameters; and the state that each way of ending leaves |
| NaturalSemantics.SimpleRule | src/lib/Interpreter.cpp:21-27 | expression statements and returns |
| NaturalSemantics.DeclareRule | src/lib/Interpreter.cpp:84-94 | a declaration binds its name in the last scope to its initializer |
| NaturalSemantics.FunctionRule | src/lib/Interpreter.cpp:97-104 | a function declaration binds its name in the last scope to the function |
| NaturalSemantics.BlockRule | src/lib/Interpreter.cpp:370-394 | statements in a new scope, which a normal end removes and any other leaves behind |
| NaturalSemantics.IfRule | src/lib/Interpreter.cpp:29-42 | the then branch from the state of the condition if that is true, a function, or a number not equal to zero, and the else branch on every other value; an if ends so if and only if its parts do |
| NaturalSemantics.WhileRule | src/lib/Interpreter.cpp:44-48 | a loop ends so if and only if there are states of which each leads to the next by a true condition and a normal end of the body, and in the last of which the condition is not true or something breaks off |
| NaturalSemantics.ForRule | src/lib/Interpreter.cpp:55-66 | likewise from the state that its start leaves, with the step after the body |
| NaturalSemantics.SequenceRule | src/lib/Interpreter.cpp:333-344 | statements run one after another, each where the one before ended, up to the first that does not end normally |
| NaturalSemantics.IfSets | src/lib/Interpreter.cpp:29-42 | an if whose branches set one variable leaves it bound to what the branch of its condition sets |
| NaturalSemantics.BodyBeforeStep | src/lib/Interpreter.cpp:55-66 | `var x = null; for (var i = true; i; i = false) x = i;` leaves x true and i false |
| Interpreter.Interpreter.constructor | include/Interpreter.h:29-40 | one global scope without parent, which is current |
| Interpreter.Interpreter.AppendSymbolTable | include/Interpreter.h:50-53 | the new scope is current and its parent is the one before |
| Interpreter.Interpreter.PopSymbolTable | include/Interpreter.h:56-59 | the last scope goes and the one before it is current |
| Interpreter.Interpreter.Define | include/Interpreter.h:63-66 | binds in the current scope only |
| Interpreter.Interpreter.Assign | include/Interpreter.h:69-90 | the walk over parents ends, changes the binding of the innermost holder and nothing else, and fails if and only if no scope holds the name |
| Interpreter.Interpreter.Resolve | include/Interpreter.h:93-112 | the walk ends with the binding of the innermost holder, or fails if and only if there is none |
| Interpreter.Interpreter.Evaluate | src/lib/Interpreter.cpp:347-358 | what the visitor pushed is popped: the stack is left as the specification says, with no value of the evaluation on it |
| Interpreter.Interpreter.VisitBinaryExpr | src/lib/Interpreter.cpp:168-270 | left before right, then the operator, whose value is on the stack |
| Interpreter.Interpreter.VisitLogicalExpr | src/lib/Interpreter.cpp:302-322 | the deciding operand is on the stack |
| Interpreter.Interpreter.VisitAssignExpr | src/lib/Interpreter.cpp:128-134 | assigns and leaves the value on the stack |
| Interpreter.Interpreter.VisitCallExpr | src/lib/Interpreter.cpp:137-155 | callee, then arguments from left to right, then the call, and its result on the stack |
| Interpreter.Interpreter.CallFunction | include/JSCallable.h:53-91 | parameters bound twice, body run, a caught return left on the value stack and one scope popped |
| Interpreter.Interpreter.VisitWhileStmt | src/lib/Interpreter.cpp:44-48 | the loop does the rounds of the specification |
| Interpreter.Interpreter.VisitForStmt | src/lib/Interpreter.cpp:55-66 | initializer once, then condition, body and step in turn |
| Interpreter.Interpreter.Execute | src/lib/Interpreter.cpp:361-365 | every statement does what the specification says |
| Interpreter.Interpreter.ExecuteBlock | src/lib/Interpreter.cpp:370-394 | a scope for the block, removed only if it ends normally |
| Interpreter.Interpreter.Run | src/lib/Interpreter.cpp:333-344 | a program ends in a state with the invariant and the exact account of scopes and stack, however it ends |
| InterpreterFuel.MoreFuelSameValue | src/lib/Interpreter.cpp:347-358 | an evaluation that ended has the same value and state with more fuel |
| InterpreterFuel.MoreFuelSameEnding | src/lib/Interpreter.cpp:21-122 | so has the execution of a statement |
| InterpreterFuel.MoreFuelSameRun | src/lib/Interpreter.cpp:333-344 | and of a program, so that fuel decides nothing but whether the end is seen |
| InterpreterScopes.LookupIsFlat | include/Interpreter.h:93-112 | the chain of scopes is one flat map, inner bindings hiding outer ones |
| InterpreterScopes.VariablesAreFlat | src/lib/Interpreter.cpp:106-112 | a variable has its value in the flat map, and is an error exactly if it is not in it |
| InterpreterScopes.AssignmentIsFlat | src/lib/Interpreter.cpp:128-134 | an assignment changes the flat map at that name and one binding of one scope, gives no scope a new name, and changes nothing else; it fails exactly if the name is not in sight |
| InterpreterScopes.ParametersAreBound | include/JSCallable.h:62-77 | a call binds exactly the names of the parameters, each to its argument, the last one if a name is repeated |
| InterpreterScopes.BodySeesCaller | include/JSCallable.h:53-91 | what a call runs is its body, in a state that shows the caller's bindings hidden only by the parameters, and the call ends as the body does: scoping is dynamic |
| InterpreterScopes.NamesStayInSight | src/lib/Interpreter.cpp:21-394 | a name in sight stays in sight over every execution |
| InterpreterScopes.BlocksDeclareNothingOutside | src/lib/Interpreter.cpp:370-394 | a block that ends normally without a return in it leaves exactly the same names in sight |
| InterpreterScopes.ReturnFreeRestores | src/lib/Interpreter.cpp:370-394 | statements without returns, where no bound function has one, restore the stack, and the scopes if they end normally |
| InterpreterScopes.ReturnFreeProgramRestores | src/lib/Interpreter.cpp:333-344 | and so do such programs |
| InterpreterScopes.ReturnLeaksParameters | include/JSCallable.h:74-90 | after a call ended by a return its value is on the stack and its parameters are in the caller's sight; after one that ended otherwise neither is so |
| InterpreterScopes.LaterGlobalsGoAstray | include/JSCallable.h:79-87 | a program whose last top-level declaration is not in the global scope |
| Agreement.OperatorsAgree | src/lib/VM.cpp:60-121 | on operands of the fragment the machine's operators and the interpreter's give the same, of the expected type |
| Agreement.ExprAgrees | src/lib/Interpreter.cpp:168-329 | a typed expression has the same value in both, up to strictness, and changes neither state |
| Agreement.LogicalAgrees | src/lib/VM.cpp:46-59 | on booleans, deciding by the left operand gives what evaluating both gives |
| Agreement.ProgramAgrees | src/lib/Interpreter.cpp:84-94 | a typed program ends in the interpreter's global scope with the globals of the machine |
| Agreement.MachineAgreesWithInterpreter | src/lib/VM.cpp:13-157 | compiling and running a typed program whose pool repeats itself every 256 entries, or has no more, gives exactly the interpreter's global scope, with strict comparisons read as lax ones; without any, of the program itself |
| Agreement.OperatorsAgreeExactly | src/lib/VM.cpp:60-121 | for every binary operator and all operands, machine and interpreter give the same if and only if the operands meet a condition: any for `-`, `*` and `/`; two numbers for `+`; for `==` and `!=` two numbers, equal texts or equal booleans; for `<=` and `>=` two numbers, for `<` and `>` two that are not equal; for these four also two texts or two booleans that the machine orders as the interpreter orders two zeros; and operands of any other kinds for whose numbers the comparison, for `!=` equality, does not hold |
| Agreement.EqualitiesAgreeExactly | src/lib/Interpreter.cpp:261-266 | for `==` and `!=` this takes no more of the arithmetic than that zero equals itself |
| Agreement.ConcordantAgrees | src/lib/Interpreter.cpp:168-329 | an expression all of whose operators meet their conditions has the same value in both, untyped operands, texts and strict comparisons included |
| Agreement.ConcordantProgramAgrees | src/lib/Interpreter.cpp:84-94 | and a program of such declarations ends in the same globals |
| Agreement.MachineAgreesWhereOperatorsDo | src/lib/VM.cpp:13-157 | so compiling and running it gives exactly the interpreter's global scope of the program itself |
| Agreement.OnlyAdditionSeesTypes | src/lib/Interpreter.cpp:211-266 | every operator but addition treats its operands as their numbers, comparisons and equality included |
| Agreement.AdditionAgreesOnNumbersOnly | src/lib/VM.cpp:60-67 | addition agrees if and only if both operands are numbers |
| Agreement.LogicalAgreesOnDecidingBooleans | src/lib/Interpreter.cpp:302-322 | logical operators agree if and only if the deciding operand is a boolean |
| Agreement.StrictComparisonsAgreeOffTies | src/lib/VM.cpp:106-121 | strict comparisons of numbers agree if and only if the numbers are not equal |
| Agreement.BooleansCompareAsNumbers | src/lib/Interpreter.cpp:261-266 | an instance: any two booleans are equal for the interpreter, and only the same ones for the machine |
| Pipeline.TextIsReadBack | src/bin/main.cpp:31-34 | lexing and parsing any text of a writable program gives the program |
| Pipeline.TextOf | src/bin/main.cpp:31-34 | every writable program whose tokens the lexer makes and whose literals have a notation has a text |
| Pipeline.ReadIsWritable | src/bin/main.cpp:31-34 | whatever program a text is read as is such a program |
| Pipeline.ProgramsWithTexts | src/bin/main.cpp:31-34 | so a program is what some text is read as if and only if it is writable, the lexer makes its tokens and its literals have a notation |
| Pipeline.LoneParenthesisDiverges | src/lib/JSParser.cpp:21-27 | the text `)` lexes to two tokens, on which the parser loops for ever |
| Pipeline.TextRunsTheSameBothWays | src/bin/main.cpp:30-37 | from any text that is read as a typed program both ways of running it lead to the same globals |

## Left out

- Numbers: doubles, `atof` and `std::to_string` are an abstract type with arbitrary operations (`Values.Arith`); only `!=` is fixed, as the negation of `==`.
- Integer widths: the counters of the collector, the instruction pointer and scope indices are unbounded, so the overflow of `numObjects * 2` and of a 32-bit `ip` is not modelled.
- Memory: freeing an object is removing it from the list; failure of `malloc`, smart-pointer ownership and the C stack used by recursion are not modelled.
- Collector.Object.constructor: the fields of a fresh pair, which the original leaves uninitialized until both are written, lead to the pair itself.
- Collector.VM.FreeVM: nothing is said about the machine after it is freed.
- Semantics.Eval: uses without a defined result (a null operand, a function read as a primitive value, a call of something else, a missing argument, `return;` in a called function, a declaration without initializer) are faults that stop the execution.
- Semantics.Loop: `fuel` bounds rounds and call depth; an execution cut off by it is followed only up to there.
- Grammar.ParseBinary: the six functions for binary and logical operators, which differ in their tokens and node class only, are one function of the level.
- Agreement.MachineAgreesWithInterpreter: its fragment is decided by types alone, so it has no comparisons of operands that are no numbers; `MachineAgreesWhereOperatorsDo` has them.
- Agreement.OperatorsAgreeExactly: of the abstract arithmetic it is asked that zero equals itself, that lax comparisons are strict ones or equality, and that equal numbers are not strictly ordered, as for doubles.
- Statements other than declarations and returns in compiled programs: the compiler emits nothing for them, and the machine is proved to skip them.
- Debug output, the disassembler, `include/Jit.h`, the prompt and file reading, `src/lib/ASTOptimizer.cpp`, `include/IR.h`, and the unused placeholders of `include/JSRuntime.h`.
