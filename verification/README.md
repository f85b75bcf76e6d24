# Moksha compiler: models and proofs

Moksha is a compiler. This project models the parts of it whose results are far from what one
reads in a single function body, and proves what those parts are for. Code that works by
changing fields is modelled by classes and loops; each such method is proved equal to, or
against, a specification, and the properties are proved about that specification.

- **Control-flow graph and dominance** (`Mir`, `FlowGraph`, `ReversePostOrder`,
  `DominatorTree`, `DominatorMaps`, `MIRDominance`, `DominanceResults`). Blocks keep their own
  edge lists. `Analyze` runs the post-order walk, the iteration to a fixpoint with `intersect`,
  the depths and the interval numbering, and the queries are shown to answer dominance, defined
  by paths. The proof works on block numbers in reverse post-order. Three facts carry it: the
  dominators of a block stay above its recorded dominator at every step; a new value is always a
  proper ancestor of the old one, so a sum drops and the loop ends on every graph; and at the
  fixpoint the recorded dominator is an ancestor of every predecessor.
- **Expression parser** (`Syntax`, `ParserSpec`, `ParserRoundTrip`, `ParserMinimal`,
  `ParserPrecedence`, `ParserProbe`, `Parser`). A
  printer that puts in only the parentheses that precedence and associativity call for, proved
  to be as few as any token list needs, and the recursive-descent ladder as its inverse. The
  inverse holds unless a token of the rendering is one of three kinds of trap, which are named
  exactly. How operators group, where line breaks matter and what the scan for lambda parameters
  finds is also said token by token and character by character, without the ladder.
- **Hygienic macros** (`MacroSyntax`, `MacroExpander`, `MacroHygiene`). The names of an expansion
  resolve exactly if those of the body do and no declaration's initializer mentions the name it
  declares; running the expansion in the caller's environment then does what the body does with
  locals of its own.
- **Lexer and string literals** (`Escapes`, `EscapeAgreement`, `EscapeValues`, `LexerSpec`,
  `LexerComments`, `LexerTables`, `Lexer`, `StringLiterals`). The whole state machine, template
  strings and interpolations included; the lexer's and the parser's reading of escapes agree. What
  comments, words, operators and escapes are is said as a grammar and as written-out tables.
- **Borrow checker** (`Loans`, `LoanTransfer`, `LoanEffects`, `LoanRuns`, `LoanTermination`,
  `LoanGrowth`, `LoanMoves`, `LoanContents`, `LoanDataflow`, `ValueGraph`, `PlaceResolution`). The effects of
  instructions on loans, and the worklist that carries loans along edges, as a class that is
  proved to take the turns of a run on loan sets. The loop ends on every function, and says of
  each instruction exactly which places a path from a move leads from. And the two searches over
  values, `resolvePlace` and `isDerivedFrom`.
- **Type interning** (`TypeInterning`). One object per structure, pointer types apart.

Where the code does something else than one would expect, the code is modelled as it is and the
exact condition is proved:

- The SSA check does not look at the operands of nine instruction classes
  (`OperandsAreCovered`), so it accepts such instructions on values that are defined nowhere
  (`UnlistedIsAlwaysAccepted`); for all other classes acceptance means what it should
  (`ListedIsDefined`).
- A parenthesised comparison that reads like a type argument list, as in
  `(a < b && c > d) == x`, is taken for lambda parameters and rejected, unless `d` starts with a
  character outside ASCII (`ConjunctionOfComparisonsFails`); `RoundTrip` gives all such cases.
- The renaming of a macro's local takes effect before its initializer is cloned, so
  `x = x + 1` with the caller's `x` on the right expands to a read of the new name
  (`SelfReadExample`). `ExpansionResolvesExactly` gives the condition for every body, and
  `ResolvedMeansTheSame` says that nothing else goes wrong.
- In the worklist loop of the borrow checker, the branches for stores, closures and calls are
  alternatives of a test inside the branch for loads, so no instruction gets there: only casts
  and loads have an effect (`Step`). Every loan that arises is a move, held by no pointer, and no
  instruction ends one (`StepOnlyMoves`). A place therefore counts as moved out of at an
  instruction exactly if some path leads there from a move out of it, whatever is stored into it
  on the way (`MovedAtInstruction`); a block without instructions lets nothing through.
- What a block lets out is compared and stored inside the instruction loop, so a block in which
  some instruction leaves another loan set than the last one queues its successors on every
  visit. Since the effects only add loans the loop still ends (`OwnFinishes`, `AddingFinishes`).
  For effects that also end loans, as those of a cast of null would be (`CastOfNullLoops`), it
  ends exactly if no such blocks lie in a circle at the least solution (`FinishesIff`).
- A byte that starts no UTF-8 sequence yields an error token without moving the cursor; this is
  the only way in which a call of `next` inside the buffer does not advance (`Next`).
- A pointer type is looked up under the words of ownership and borrow state in one order and
  presents itself with them in the other. `ReturnedAsRequestedIff` and `RepeatedIsSameIff` say
  when the getter returns the type that was asked for, and when it returns the same object for
  the same request; `OwnerAnswersView` and `OwnersAreAllocatedTwice` are the cases where not.
- When a macro argument is cloned, its parameter is dropped from the parameter list but the
  argument stays in the argument list, so an argument that mentions a later parameter is put into
  itself (`ArgumentMeetsItself`).
- A base prefix without digits is a number, and a number that starts with a point may hold a
  second one (`OddNumbers`); `AcceptedIffReads` gives the grammar.

What comes from outside is a parameter: the operators that macro bodies evaluate, what the borrow
checker asks about types, uses and places of values, the bucket in which a pointer type is
searched, the pointer-typed and move-only values, the UTF-8 decoder.

## Model

| member | source | states |
|---|---|---|
| Mir.MIRBlock.AddInstruction | lib/middle/mir/MIRBlock.cpp:15-65 | the instruction is appended and owned, and exactly the blocks that it is a branch to, or has as a side, a destination, a default or the block of a case, become successors, and the block their predecessor; a null instruction changes nothing |
| Mir.RunsAreWellWired | lib/middle/mir/MIRBlock.cpp:15-65 | after any run of insertions, self-loops included, successor and predecessor lists are duplicate-free and mirror each other |
| Mir.SuccessorsAreTargets | lib/middle/mir/MIRBlock.cpp:20-61 | after any run of insertions, s is a successor of a block exactly if some instruction inserted in it leads to s |
| Mir.CasesKeepOrder | lib/middle/mir/MIRBlock.cpp:51-60 | the non-null blocks of the cases of a switch come one by one, in the order of the cases |
| Mir.AddEdgesAppends | lib/middle/mir/MIRBlock.cpp:87-99 | new edges come after the old ones in the order of the targets, and no other list changes |
| Mir.WithoutElements | lib/middle/mir/MIRBlock.cpp:101-109 | removal takes out exactly one block, keeps duplicate-freeness, and is idle if the block is absent |
| Mir.RemoveEdgeKeepsWiring | lib/middle/mir/MIRBlock.cpp:101-109 | removing an edge at both ends removes that edge only and keeps the lists mirrored and duplicate-free |
| Mir.MIRBlock.Unwire | lib/middle/mir/passes/SimplifyCFGPass.cpp:192-193 | the two calls that take an edge away remove it from the lists of both ends and change no other list |
| Mir.RemoveEdgeUndoesAddEdge | lib/middle/mir/MIRBlock.cpp:87-109 | removing an edge that was just added restores every list |
| ReversePostOrder.ComputeRPO | lib/middle/analysis/MIRDominance.cpp:77-86 | a walk pushes exactly the blocks it newly visits, each once, the start last, and every other one has a predecessor pushed after it |
| ReversePostOrder.WalkIsReversePostOrder | lib/middle/analysis/MIRDominance.cpp:100-108 | a complete walk read backwards starts with the entry, is closed under successors, and gives every other block an earlier predecessor |
| FlowGraph.OrderIsReachable | lib/middle/analysis/MIRDominance.cpp:77-86 | the listed blocks are exactly the blocks that a path from the entry reaches |
| FlowGraph.NumbersKeepDominance | lib/middle/analysis/MIRDominance.cpp:104-108 | dominance of blocks is dominance of their numbers |
| FlowGraph.DominatorIsEarlier | lib/middle/analysis/MIRDominance.cpp:77-108 | a dominator is a listed block and never has the larger number |
| DominatorTree.NcaIsNearest | lib/middle/analysis/MIRDominance.cpp:167-177 | the common ancestor is above both blocks, and every other common ancestor is above it |
| Dominance.MIRDominance.Intersect | lib/middle/analysis/MIRDominance.cpp:167-177 | the three loops end and return the nearest common ancestor in the current tree, without changing it |
| DominatorTree.NcaKeepsDominators | lib/middle/analysis/MIRDominance.cpp:128-133 | a strict dominator of a block that is above two of its predecessors' values is above what `intersect` returns |
| DominatorTree.MeetListIsMeet | lib/middle/analysis/MIRDominance.cpp:120-133 | folding `intersect` over the processed predecessors gives their nearest common ancestor |
| DominatorTree.ReassignedUpwards | lib/middle/analysis/MIRDominance.cpp:134-137 | a reassigned block moves to an ancestor of its old value in the current tree |
| DominatorTree.Step | lib/middle/analysis/MIRDominance.cpp:115-139 | visiting a block keeps the invariant of the pass: every strict dominator of a block is above its value, and all blocks visited so far in this pass are settled |
| DominatorTree.NextPass | lib/middle/analysis/MIRDominance.cpp:112-115 | the end of a pass is a correct start of the next |
| DominatorTree.AssignLowersSum | lib/middle/analysis/MIRDominance.cpp:134-137 | moving a value to a smaller number lowers the sum of the values by a positive amount |
| DominatorTree.NothingMoved | lib/middle/analysis/MIRDominance.cpp:112-140 | a pass that changes nothing leaves, for every block, a value that is an ancestor of all its predecessors |
| Dominance.MIRDominance.RunPass | lib/middle/analysis/MIRDominance.cpp:114-139 | one pass keeps the invariant, and either nothing changed and the fixpoint holds, or the measure dropped |
| Dominance.MIRDominance.IterateToFixpoint | lib/middle/analysis/MIRDominance.cpp:110-140 | the loop ends on every graph, irreducible ones included, and leaves a fixpoint |
| DominatorTree.AncestorsAreOnPaths | lib/middle/analysis/MIRDominance.cpp:110-140 | at a fixpoint an ancestor of a block is on every path to it |
| DominatorTree.DominatorsAreAncestors | lib/middle/analysis/MIRDominance.cpp:110-140 | a dominator of a block is its ancestor, at every step of a pass |
| DominatorTree.AncestorsAreDominators | lib/middle/analysis/MIRDominance.cpp:110-140 | at a fixpoint tree ancestry is dominance |
| Dominance.MIRDominance.BuildDomTree | lib/middle/analysis/MIRDominance.cpp:155-159 | whatever the order in which the map is walked, each block other than the entry is listed once, under its immediate dominator |
| Dominance.MIRDominance.DepthOf | lib/middle/analysis/MIRDominance.cpp:143-152 | the loop ends and counts the tree edges up to the entry; 0 for a block that was not reached |
| DominatorTree.DepthCountsAncestors | lib/middle/analysis/MIRDominance.cpp:143-152 | the number of edges up to the entry is the number of strict ancestors |
| Dominance.MIRDominance.ComputeDFS | lib/middle/analysis/MIRDominance.cpp:179-188 | the walk numbers exactly the descendants of the root, each once, with intervals that nest like the tree and lie between the counters before and after |
| DominatorTree.SideBySide | lib/middle/analysis/MIRDominance.cpp:185-186 | intervals of two numbered families that share no ancestry, numbered one after the other, never contain each other |
| DominatorTree.OnTop | lib/middle/analysis/MIRDominance.cpp:184-187 | an interval around those of all descendants makes containment equal ancestry for the whole subtree |
| DominatorMaps.IntervalsMirrorTree | lib/middle/analysis/MIRDominance.cpp:155-188 | after the walk from the entry, interval containment holds exactly between ancestor and descendant |
| Dominance.MIRDominance.Analyze | lib/middle/analysis/MIRDominance.cpp:90-165 | for a well-wired graph all four maps describe it; a function without blocks changes nothing |
| DominanceResults.QueryIsDominance | lib/middle/analysis/MIRDominance.cpp:190-199 | for a reachable b, the query is true exactly if every path from the entry to b contains a; for an unreachable b, exactly if a is b |
| DominanceResults.IDomIsImmediate | lib/middle/analysis/MIRDominance.cpp:227-230 | for a reachable block other than the entry, a block is returned exactly if it is a strict dominator that all other strict dominators dominate |
| DominanceResults.IDomElsewhere | lib/middle/analysis/MIRDominance.cpp:227-230 | null is returned exactly for unreachable blocks, and the entry for itself |
| DominanceResults.ChildrenAreImmediatelyDominated | lib/middle/analysis/MIRDominance.cpp:232-237 | the children list of a block is duplicate-free and holds exactly the blocks it immediately dominates |
| DominanceResults.DepthCountsDominators | lib/middle/analysis/MIRDominance.cpp:142-153 | the depth of a block is the number of its strict dominators; 0 if it is unreachable |
| Dominance.MIRDominance.VerifySSA | lib/middle/analysis/MIRDominance.cpp:201-225 | the check accepts exactly if every instruction of every block passes the query for each operand it looks at |
| DominanceResults.AcceptedIffDefined | lib/middle/analysis/MIRDominance.cpp:201-225 | a block passes exactly if every operand looked at is defined on all paths, and every phi value on all paths to its predecessor |
| DominanceResults.AcceptedOperandIsOnPath | lib/middle/analysis/MIRDominance.cpp:215-221 | in an accepted block, on every path that reaches it, each listed operand is defined in a block of that path |
| DominanceResults.AcceptedPhiIsOnPath | lib/middle/analysis/MIRDominance.cpp:206-213 | in an accepted block the phi value for an edge is defined on every path up to the predecessor |
| DominanceResults.OperandsAreCovered | lib/middle/analysis/MIRDominance.cpp:17-75 | only operands are looked at, and all operands of an instruction exactly if its class is not one of nine |
| DominanceResults.UnlistedIsAlwaysAccepted | lib/middle/analysis/MIRDominance.cpp:17-75 | a block of instructions of these nine classes is accepted whatever their operands are |
| DominanceResults.ListedIsDefined | lib/middle/analysis/MIRDominance.cpp:201-225 | in an accepted block every operand of an instruction of any other class is defined on all paths to the block |
| ParserRoundTrip.RoundTrip | lib/frontend/parser/Parser.cpp:2395-2417 | the minimally parenthesised rendering of any tree, followed by a token that continues nothing, parses back to that tree and stops at that token, exactly if it holds no trap; otherwise the result is null |
| ParserRoundTrip.ParsePrinted | lib/frontend/parser/Parser.cpp:2483-2751 | the same for every level of the ladder and every position in a token list |
| ParserRoundTrip.ResumePrinted | lib/frontend/parser/Parser.cpp:2483-2687 | parsing a rendering and then going on with the loop of its level is going on with the loop from the tree already built |
| ParserRoundTrip.AstrayIffTrapped | lib/frontend/parser/Parser.cpp:3072-3121 | the parser takes a wrong branch somewhere in a rendering exactly if a token is a trap: the word move, a parenthesis that looks like lambda parameters, an ampersand that looks like a capture |
| ParserRoundTrip.ConjunctionOfComparisonsFails | lib/frontend/parser/Parser.cpp:3092-3121 | a parenthesised conjunction of a less-than and a greater-than between names, compared with a name, parses to its tree if its last name starts outside ASCII and none is the word move; otherwise to nothing |
| ParserPrecedence.BinaryGroups | lib/frontend/parser/Parser.cpp:2483-2687 | two operators between names: the second takes the middle name exactly if its class comes later in the list of classes; else the first does |
| ParserPrecedence.AssignmentGroups | lib/frontend/parser/Parser.cpp:2397-2417 | assignments group to the right |
| ParserPrecedence.AssignmentBindsLess | lib/frontend/parser/Parser.cpp:2397-2417 | they bind less than any operator, on both sides |
| ParserPrecedence.TernaryGroups | lib/frontend/parser/Parser.cpp:2461-2481 | a conditional inside a part of a conditional belongs to that part |
| ParserPrecedence.TernaryBindsLess | lib/frontend/parser/Parser.cpp:2461-2481 | a conditional binds less than any operator |
| ParserPrecedence.AssignmentBindsLeast | lib/frontend/parser/Parser.cpp:2397-2481 | an assignment binds less than a conditional |
| ParserPrecedence.PrefixGroups | lib/frontend/parser/Parser.cpp:2707-2751 | prefix operators bind more than binary ones, before either operand, and stack up |
| ParserPrecedence.LineBreaks | lib/frontend/parser/Parser.cpp:2562-2660 | on a new line an ampersand, a plus or a minus does not go on with the expression, and every other operator does |
| ParserPrecedence.Calls | lib/frontend/parser/Parser.cpp:2753-2760 | a parenthesis after a name on the same line goes on to a call, on a new line it does not |
| ParserPrecedence.LambdaBeginnings | lib/frontend/parser/Parser.cpp:3065-3145 | the beginnings that are taken for a lambda and give nothing |
| ParserProbe.ProbeIsScan | lib/frontend/parser/Parser.cpp:3103-3121 | the scan for lambda parameters over the characters of the tokens finds what its model on tokens finds |
| ParserMinimal.PrintOpensFewest | lib/frontend/parser/Parser.cpp:2395-3174 | whatever token list parses to a tree at a level of the ladder, it opens at least as many parentheses as the rendering of that tree for that level |
| ParserMinimal.ParenthesesAreNeeded | lib/frontend/parser/Parser.cpp:2395-3174 | where the printer puts a parenthesis, the tokens without it do not parse to the same tree, whatever stands around them |
| ParserRoundTrip.AssignmentYield | lib/frontend/parser/Parser.cpp:2397-2417 | for any tokens, the leaves and operators of a parsed tree from left to right are the tokens read, without parentheses |
| ParserRoundTrip.TernaryYield | lib/frontend/parser/Parser.cpp:2461-2481 | the same for conditional expressions |
| ParserRoundTrip.FoldYield | lib/frontend/parser/Parser.cpp:2483-2687 | each turn of a level's loop appends what it read, and keeps the rest |
| ParserRoundTrip.PrefixYield | lib/frontend/parser/Parser.cpp:2707-2751 | the same for prefix operators |
| ExpressionParser.Parser.ParseAssignment | lib/frontend/parser/Parser.cpp:2397-2417 | the method with its two-token window computes the specified parse and leaves the window at its end; assignment associates to the right |
| ExpressionParser.Parser.ParseTernary | lib/frontend/parser/Parser.cpp:2461-2481 | the same for conditional expressions |
| ExpressionParser.Parser.ParseLevel | lib/frontend/parser/Parser.cpp:2483-2687 | the same for the left-associative levels, whose loop folds to the left |
| ExpressionParser.Parser.ParsePrefix | lib/frontend/parser/Parser.cpp:2707-2751 | the same for prefix operators |
| ExpressionParser.Parser.ParsePrimary | lib/frontend/parser/Parser.cpp:3065-3178 | the same for names, numbers and parentheses, with the lambda probe |
| ExpressionParser.Parser.Advance | lib/frontend/parser/Parser.cpp:21-28 | the window moves by one token |
| MacroExpansion.UniqueNameInjective | lib/frontend/macros/MacroExpander.cpp:289-291 | generated names of different declarations differ, whatever the declared names are |
| MacroExpansion.MacroSubstituter.CloneDecl | lib/frontend/macros/MacroExpander.cpp:273-306 | a local gets its generated name, recorded before its initializer is cloned; a declaration named like a parameter takes the name of the last argument that is a name |
| MacroExpansion.MacroSubstituter.CloneStmt | lib/frontend/macros/MacroExpander.cpp:315-323 | a statement is cloned under the renames so far, and only declarations change them |
| MacroExpansion.Expand | lib/frontend/macros/MacroExpander.cpp:482-494 | the statements are cloned in order with one rename map; a wrong number of arguments yields nothing |
| MacroExpansion.ArgumentMeetsItself | lib/frontend/macros/MacroExpander.cpp:142-154 | an argument that mentions the next parameter is put into itself, and the argument of that parameter is not looked at |
| MacroHygiene.CloneOfArgument | lib/frontend/macros/MacroExpander.cpp:142-154 | cloning an argument that mentions no parameter changes nothing |
| MacroHygiene.CloneSimulates | lib/frontend/macros/MacroExpander.cpp:97-156 | a cloned expression in the joint environment has the value and the effects of the body's expression with caller and locals kept apart |
| MacroHygiene.BodySimulates | lib/frontend/macros/MacroExpander.cpp:482-494 | the same for a whole body under any renames in force |
| MacroHygiene.ExpansionKeepsMeaning | lib/frontend/macros/MacroExpander.cpp:482-494 | for a hygienic call without self-reading initializers, both runs get stuck or both give the same values and leave the caller's variables alike |
| MacroHygiene.ExpansionKeepsMeaningExactly | lib/frontend/macros/MacroExpander.cpp:288-302 | for a body that is defined and evaluates nothing conditionally, the meaning is kept exactly if no initializer mentions the name it declares |
| MacroHygiene.ExpansionResolvesExactly | lib/frontend/sema/TypeChecker.cpp:4477-4660 | for every hygienic call, conditional evaluation included: the names of the expansion are in scope where they are looked up exactly if those of the body are, and no initializer mentions the name it declares |
| MacroHygiene.ResolvedMeansTheSame | lib/frontend/macros/MacroExpander.cpp:482-494 | an expansion whose names resolve has the meaning of the body |
| MacroHygiene.SelfReadExample | lib/frontend/macros/MacroExpander.cpp:288-302 | a declaration of x from the caller's x: the body is defined and its expansion gets stuck |
| Lexing.Lexer.ConsumeEscape | lib/frontend/lexer/Lexer.cpp:766-864 | the cursor method accepts what the specification accepts and stops where it stops |
| EscapeValues.EscapeIs | lib/frontend/lexer/Lexer.cpp:766-864 | for each letter after the backslash, which digits make the escape valid, and where the lexer goes on whether it is valid or not |
| EscapeAgreement.ScanOfPiece | lib/frontend/lexer/Lexer.cpp:766-864 | every well-formed escape is accepted and the cursor ends right after it |
| EscapeAgreement.StepOfPiece | lib/frontend/parser/Parser.cpp:350-466 | the evaluator appends the value of a piece and goes on right after it |
| EscapeAgreement.EscapesEndTogether | lib/frontend/parser/Parser.cpp:350-466 | an escape that the lexer accepted ends for the parser where it ended for the lexer, and contributes its value instead of its own characters |
| EscapeAgreement.AcceptedIffPieces | lib/frontend/lexer/Lexer.cpp:605-682 | a double-quoted literal is accepted exactly if its text is a sequence of plain characters and well-formed escapes before a closing quote |
| EscapeAgreement.AcceptedEvaluates | lib/frontend/parser/Parser.cpp:350-466 | the text of an accepted literal evaluates to the values of its pieces |
| EscapeAgreement.QuoteRoundTrip | lib/frontend/parser/Parser.cpp:3308-3323 | any text, quoted, lexed and evaluated, comes back, whatever follows the literal |
| EscapeValues.Utf8Encodes | lib/frontend/parser/Parser.cpp:444-450 | decoding the bytes of a code point by their bit patterns gives it back, no shorter pattern holds it, and surrogates and numbers beyond 10FFFF have no bytes |
| EscapeValues.HexValueIsSum | lib/frontend/parser/Parser.cpp:404-436 | the value of digits is the sum of the digits times their powers of sixteen |
| EscapeValues.SimpleEscapes | lib/frontend/parser/Parser.cpp:356-400 | what each simple escape stands for, and that there are no others |
| EscapeValues.EscapeContributes | lib/frontend/parser/Parser.cpp:401-455 | the byte, or the encoding of the number cut to 32 bits, that each numeric escape contributes |
| EscapeValues.OtherBackslashes | lib/frontend/parser/Parser.cpp:401-462 | a backslash that starts no complete escape stands for itself, and before any other letter it is dropped |
| StringLiterals.UnescapeString | lib/frontend/parser/Parser.cpp:350-466 | the loop computes the specified evaluation |
| StringLiterals.ParseStringLiteral | lib/frontend/parser/Parser.cpp:3308-3323 | the quotes are stripped where both ends are there, and the rest is evaluated |
| Lexing.Lexer.SkipComment | lib/frontend/lexer/Lexer.cpp:528-569 | the comment is closed at the cursor exactly if it is a line comment up to the end of the line, or a block comment around plain characters and nested comments; an open one ends with the buffer |
| LexerComments.CommentIs | lib/frontend/lexer/Lexer.cpp:528-569 | the end of a comment, as a tree of nested comments |
| LexerComments.TriviaIs | lib/frontend/lexer/Lexer.cpp:73-115 | what is skipped before a token is a run of white-space characters and closed comments, as long as there are any, or up to an open comment |
| Lexing.Lexer.ScanIdentifier | lib/frontend/lexer/Lexer.cpp:875-915 | the loop takes the whole word and nothing else, and reports an error exactly at a byte that starts no character |
| LexerComments.WordIs | lib/frontend/lexer/Lexer.cpp:875-915 | a word is a run of letters, digits, underscores and decoded characters, as long as there are any |
| LexerSpec.AcceptedIffReads | lib/frontend/lexer/Lexer.cpp:121-297 | a number is accepted exactly if base prefix and digits, or digits, fraction and exponent, and one of the fifteen suffixes, stand there, are complete, and hold no two underscores in a row and none at the end; it ends where these end |
| LexerSpec.NumberIsRead | lib/frontend/lexer/Lexer.cpp:121-297 | such a number is read as one token of its kind, with its suffix and base |
| Lexing.Lexer.ScanNumber | lib/frontend/lexer/Lexer.cpp:121-297 | the loops end where the specified number literal ends, with its kind, suffix and base; the whole text is the token |
| Lexing.Lexer.ScanChar | lib/frontend/lexer/Lexer.cpp:692-717 | a literal is accepted exactly if one escape or one character is followed by a quote, and ends there |
| LexerSpec.OperatorsAt | lib/frontend/lexer/Lexer.cpp:310-519 | which operators stand at a position, by length, and which is the longest |
| LexerTables.OneCharacterOperators | lib/frontend/lexer/Lexer.cpp:310-519 | the operators of one character |
| LexerTables.TwoCharacterOperators | lib/frontend/lexer/Lexer.cpp:310-519 | the operators of two characters: doubled ones, those with an equals sign, three arrows and optional access |
| LexerTables.ThreeCharacterOperators | lib/frontend/lexer/Lexer.cpp:310-519 | the operators of three characters |
| Lexing.Lexer.ScanOperator | lib/frontend/lexer/Lexer.cpp:305-521 | the longest operator is taken; braces are counted while an interpolation is open, and the one that closes it resumes the template string |
| LexerSpec.InterpolationStaysOpen | lib/frontend/lexer/Lexer.cpp:312-336 | over the operators read inside it, an interpolation stays open as long as each closing brace has a partner, and the count is the number of open ones |
| LexerTables.InterpolationCloses | lib/frontend/lexer/Lexer.cpp:312-336 | a closing brace without a partner ends it |
| Lexing.Lexer.ScanQuoted | lib/frontend/lexer/Lexer.cpp:584-682 | the loop accepts what the specification of a double-quoted literal accepts, ends there, and flags it as escaped exactly if it holds a backslash |
| Lexing.Lexer.ScanTemplate | lib/frontend/lexer/Lexer.cpp:606-682 | the text ends at the first backtick or interpolation outside escapes; that, and whether an escape was bad, decides token, cursor, state, fragment start and stack |
| LexerTables.TextIs | lib/frontend/lexer/Lexer.cpp:606-682 | the text is a run of escapes and of characters that end nothing, up to a backtick, an interpolation or the end of the buffer; it holds a bad escape exactly if one of them is not well formed |
| Lexing.Lexer.ScanString | lib/frontend/lexer/Lexer.cpp:584-684 | in every state the cursor advances and the state stays consistent, and the token is the one that the text from its start on calls for |
| Lexing.Lexer.Next | lib/frontend/lexer/Lexer.cpp:73-115 | from every reachable state a call inside the buffer advances the cursor and never passes the end, except exactly at a byte that starts no character; in normal state the token is the one that the text after white space and comments calls for; end of file is reported exactly at the end |
| Loans.MergeLoans | lib/middle/analysis/NLLBorrowChecker.cpp:281-290 | after the first list come those of the second that are new, each key once, in their order |
| Loans.LoansEqual | lib/middle/analysis/NLLBorrowChecker.cpp:271-279 | equal length and inclusion |
| Loans.SameKeys | lib/middle/analysis/NLLBorrowChecker.cpp:271-279 | on duplicate-free lists that is equality of the loan sets |
| LoanDataflow.NLLBorrowChecker.ComputePreds | lib/middle/analysis/NLLBorrowChecker.cpp:299-310 | a block with predecessors, and the entry, gets exactly its own list, any other block the one before it |
| LoanDataflow.NLLBorrowChecker.MergePreds | lib/middle/analysis/NLLBorrowChecker.cpp:325-329 | the loans at the start of a block are the union of what its predecessors let out, their lists merged one after the other |
| LoanEffects.StepIs | lib/middle/analysis/NLLBorrowChecker.cpp:336-794 | on lists free of repetition the effect of an instruction is an effect on loan sets, and keeps them so; projections and mutability play no part |
| LoanEffects.OwnIsMonotone | lib/middle/analysis/NLLBorrowChecker.cpp:336-794 | more loans are turned into more, among the loans of the function |
| LoanEffects.StepOnlyMoves | lib/middle/analysis/NLLBorrowChecker.cpp:336-794 | of loans that no pointer holds, an instruction with its operands ends none and adds only its moves |
| LoanDataflow.NLLBorrowChecker.TransferInst | lib/middle/analysis/NLLBorrowChecker.cpp:336-794 | the loops over loans and places compute the effect of an instruction |
| LoanDataflow.NLLBorrowChecker.TransferBlock | lib/middle/analysis/NLLBorrowChecker.cpp:331-334 | the loans at each instruction are recorded; the block lets out the last list that differed, as a set, from the one let out before; the successors are queued unless nothing changed at any instruction |
| LoanDataflow.NLLBorrowChecker.ProcessBlock | lib/middle/analysis/NLLBorrowChecker.cpp:320-806 | one turn of the loop is one turn of the run on loan sets, with the loans at the instructions recorded |
| LoanRuns.EmptyQueueSettles | lib/middle/analysis/NLLBorrowChecker.cpp:320-806 | when the worklist is empty, a block whose predecessors lead to it was last visited with the union of what they let out, and satisfies its equation; an empty block lets nothing out |
| LoanDataflow.NLLBorrowChecker.ComputeDataflow | lib/middle/analysis/NLLBorrowChecker.cpp:292-806 | the loop ends with an empty worklist; as sets the lists are those of a run that starts with every block queued and nothing let out; each recorded loan is that of a place some earlier load of the block or of a path to it moves out of, with the projections of the place, and each next list adds the loans of the first places with a new base, in their order |
| LoanContents.StepIsNext | lib/middle/analysis/NLLBorrowChecker.cpp:392-403 | of loans that no pointer holds: a load that moves adds, for each base not yet held, the loan of the first of its places in an alloca with that base; nothing else changes anything |
| LoanRuns.EmptyQueueDoesNotSpin | lib/middle/analysis/NLLBorrowChecker.cpp:796-806 | whatever the transfer does: with an empty worklist, no blocks that waver at their recorded loans each lead to another one of them |
| LoanTermination.LeastSolutionIsReached | lib/middle/analysis/NLLBorrowChecker.cpp:318-334 | if blocks turn more loans into more within a finite set, some turns reach the least solution of all equations |
| LoanTermination.FinishedIsLeast | lib/middle/analysis/NLLBorrowChecker.cpp:318-334 | ... and when the worklist is empty it has been reached |
| LoanTermination.Drains | lib/middle/analysis/NLLBorrowChecker.cpp:796-806 | at a solution, weights by which a wavering block outweighs its successors together make the worklist run empty |
| LoanTermination.FinishesIff | lib/middle/analysis/NLLBorrowChecker.cpp:318-334 | the worklist runs empty, from some number of turns on, exactly if no blocks waver in a circle at the least solution |
| LoanTermination.CalmCyclesFinish | lib/middle/analysis/NLLBorrowChecker.cpp:318-334 | it runs empty if every cycle of blocks holds one that wavers at no loans |
| LoanGrowth.AddingFinishes | lib/middle/analysis/NLLBorrowChecker.cpp:318-334 | if no instruction ends a loan, the worklist runs empty, on every graph in which blocks are predecessors of their successors |
| LoanMoves.OwnFinishes | lib/middle/analysis/NLLBorrowChecker.cpp:318-806 | with the effects of the checker itself it runs empty on every function whose casts and loads have operands |
| LoanMoves.CastOfNullLoops | lib/middle/analysis/NLLBorrowChecker.cpp:336-348 | without them it need not: a move, a cast of null and a load whose sweep ends what the cast handed on, in a block that leads to itself, keep it busy for ever |
| LoanMoves.MovedIffOnPath | lib/middle/analysis/NLLBorrowChecker.cpp:318-806 | when the worklist is empty, a block lets out a loan exactly if no pointer holds it and a path of blocks with instructions leads to it from a move out of its place |
| LoanDataflow.MovedAtInstruction | lib/middle/analysis/NLLBorrowChecker.cpp:331-334 | the loans recorded at an instruction are exactly the moves before it in the block and those that paths to the block start with |
| LoanTermination.TameInstructions | lib/middle/analysis/NLLBorrowChecker.cpp:331-334 | instructions that each turn more loans into more make blocks that do |
| LoanDataflow.BlockIsSolved | lib/middle/analysis/NLLBorrowChecker.cpp:325-334 | of the lists: when the worklist is empty, a block lets out the transfer applied to the union of what its predecessors let out, however that union is listed |
| LoanDataflow.ResultIsLeast | lib/middle/analysis/NLLBorrowChecker.cpp:325-334 | ... and together they are the least solution |
| LoanTransfer.ThroughRespects | lib/middle/analysis/NLLBorrowChecker.cpp:331-334 | the effect of a block depends only on the loan set it starts with |
| ValueGraph.StoredValuesAreStored | lib/middle/analysis/NLLBorrowChecker.cpp:1656-1680 | the values collected for a load are exactly those stored through a pointer that may be the same |
| PlaceResolution.GetStructuralBase | lib/middle/analysis/NLLBorrowChecker.cpp:1618-1650 | the loop, which collects indices in reverse, returns the base under casts, extractions and address computations and the index numbers, innermost first |
| PlaceResolution.CollectStores | lib/middle/analysis/NLLBorrowChecker.cpp:1652-1680 | the scan finds the values stored through a pointer with the same base and the same index numbers |
| PlaceResolution.ResolvePlace | lib/middle/analysis/NLLBorrowChecker.cpp:1580-1730 | the search ends on cyclic value graphs; its bases are exactly the reachable values at which it stops, each once, the nearer ones first, each with the constant indices of a shortest chain that leads to it; null and the lock marker have none |
| ValueGraph.AliasIsSamePlace | lib/middle/analysis/NLLBorrowChecker.cpp:1608-1680 | two pointers may be the same exactly if they are, or if casts, extractions and address computations with the same numbers lead to the same base |
| ValueGraph.NextIsStep | lib/middle/analysis/NLLBorrowChecker.cpp:810-862 | the next values are those of the steps as they are spelled out class by class, in both searches |
| ValueGraph.StopIsStop | lib/middle/analysis/NLLBorrowChecker.cpp:1600-1725 | the search for places stops at casts that make pointers, loaded pointers that nothing stores, extractions of later fields and values of other classes |
| ValueGraph.NestedIndices | lib/middle/analysis/NLLBorrowChecker.cpp:1693-1706 | the indices of an outer address computation come after those of an inner one, and only constant ones count |
| ValueGraph.ClosedHoldsChain | lib/middle/analysis/NLLBorrowChecker.cpp:1591-1600 | a set of values that is closed under steps and holds the start holds the end of every chain |
| PlaceResolution.IsDerivedFrom | lib/middle/analysis/NLLBorrowChecker.cpp:810-862 | the search ends and answers true exactly for equal values or if a chain leads to the parent in which each value is a cast of the next, an address computed from it or a load through it, or an alloca, global or argument into which it is stored |
| TypeInterning.KeyDetermines | lib/middle/hir/HIRModule.cpp:27-298 | no two shapes share a key, although keys are flat word lists and parameter lists have any length |
| TypeInterning.HIRModule.GetType | lib/middle/hir/HIRModule.cpp:27-393 | a getter returns the one stored type of that shape, allocates only if there is none, and keeps the body that was stored first |
| TypeInterning.SameObjectIffSameStructure | lib/middle/hir/HIRModule.cpp:27-393 | two types returned at any two moments are the same object exactly if their full structures are equal |
| TypeInterning.TreesPersist | lib/middle/hir/HIRModule.cpp:27-393 | later allocations do not change a structure |
| TypeInterning.HIRModule.GetPointerType | lib/middle/hir/HIRModule.cpp:300-317 | the first type in the searched bucket that presents the key is returned; if there is none, the requested one is allocated; types whose two keys agree are stored once |
| TypeInterning.ReturnedAsRequestedIff | lib/middle/hir/HIRModule.cpp:300-317 | what is returned has the requested ownership and borrow state exactly if these have the same number or nothing in the bucket presented the key; else it has them exchanged |
| TypeInterning.RepeatedIsSameIff | lib/middle/hir/HIRModule.cpp:300-317 | the same request once more returns the same object exactly if the first one found a type or the numbers are the same |
| TypeInterning.LaterIsSameIff | lib/middle/hir/HIRModule.cpp:300-317 | at any later moment a request returns the object that was allocated for it exactly if the numbers are the same |
| TypeInterning.OwnerAnswersView | lib/middle/hir/HIRModule.cpp:300-317 | a stored owner that the search comes across answers a request for a view without ownership |
| TypeInterning.OwnersAreAllocatedTwice | lib/middle/hir/HIRModule.cpp:300-317 | two requests for an owner return two objects unless the first one found a view |

## Left out

- DominanceResults.QueryIsDominance: dominance between unreachable blocks, where the code answers only whether they are the same block.
- Dominance.MIRDominance.VerifySSA: the order of instructions inside a block, which the code does not check.
- Mir.MIRBlock.AddInstruction: the setters that change the target of a terminator after it was inserted, which leave the edge lists as they were.
- ReversePostOrder.ComputeRPO: the list and the set that the walk shares by reference are passed in and returned.
- Dominance.MIRDominance.DepthOf: 32-bit counters; block counts and depths are unbounded here.
- ParserRoundTrip.RoundTrip: calls, member access, indexing, pipes, lambdas, multiplication, powers and keywords are outside the operator language; where the parser would go on to a call the specification says so and stops. Token spacing is reduced to whether a line break precedes a token.
- ExpressionParser.Parser.ParseLevel: eleven functions of the same form are one method with the level as a parameter; the position of the window after a null result is not stated.
- ExpressionParser.Parser.Advance: comment tokens, which the lexer never returns, are not skipped.
- MacroHygiene.ExpansionKeepsMeaning: control flow, nested blocks (after which the code does not restore the rename map), types, numeric suffixes, and arguments that mention parameter names. A macro spliced twice into one scope reuses the generated names.
- MacroHygiene.ExpansionKeepsMeaningExactly: for bodies with conditional evaluation only the direction from the condition to the meaning is proved (in ExpansionKeepsMeaning), since a self-reading initializer may sit in a branch that is not taken; whether names resolve does not depend on that (ExpansionResolvesExactly).
- MacroSyntax.Eval: increments after a name, whose value is the old one; compound assignments and increments before a name are assignments of an operation, as lowering makes them.
- MacroExpansion.MacroSubstituter.CloneStmt: declarations and expression statements only.
- MacroExpansion.UniqueNameInjective: addresses of declarations are numbers that differ for different declarations.
- StringLiterals.UnescapeString: the number parser of the C++ library also skips blanks and takes signs and prefixes; an accepted literal has none of these.
- ParserProbe.ProbeIsScan: comments between tokens, whose characters the scan reads too.
- EscapeAgreement.QuoteRoundTrip: template strings, whose token starts after the backtick while the parser strips a character at both ends.
- Lexing.Lexer.Next: keywords are words with a spelling of their own; operator kinds are their spellings; diagnostics are left out. At the end of the buffer inside a template string the code returns an error on every call.
- Lexing.Lexer.ScanNumber: the value is not computed, as in the code.
- LexerSpec.InterpolationStaysOpen: a template string nested in the interpolation, which opens and closes interpolations of its own, is not followed.
- Lexing.Lexer.ScanString: the two modes of one loop are two methods; inside an interpolation that is nested in an interpolation the text of a token may begin before the cursor, as in the code.
- Lexing.Lexer.AdvanceUtf8: the decoder is a parameter that stays inside the buffer and takes bytes below 0x80 one by one.
- Loans.LoansEqual: projections and mutability are not compared, as in the code.
- LoanDataflow.NLLBorrowChecker.ComputeDataflow: casts and loads have operands, which their constructors do not check. A block that has no predecessors and borrows the block before it is visited only once, so nothing is claimed of what it lets out.
- LoanEffects.StepIs: types, the consumers of a load, the places of a pointer and what the sweep after a load takes out are asked of parameters; `resolvePlace` is modelled in `PlaceResolution`. The branches for stores, closures and calls (lib/middle/analysis/NLLBorrowChecker.cpp:475-739) are left out, since no instruction gets there.
- LoanMoves.MovedIffOnPath: functions in which no block borrows the block before it.
- LoanTermination.FinishesIff: for blocks that turn more loans into more, and functions in which no block borrows the block before it; for all others EmptyQueueDoesNotSpin holds.
- PlaceResolution.ResolvePlace: values are numbered so that the operands of casts, extractions and address computations come first, without which the code's inner loop would not end; instruction lists of blocks are one list.
- PlaceResolution.IsDerivedFrom: a null or marker operand leads nowhere.
- TypeInterning.HIRModule.GetType: one method stands for the getters of all kinds except pointers; hash buckets are left out (a lookup compares keys with every stored type), and the packing of names into words is left out. `getPrimitiveType`, which no code calls, is not modelled.
- TypeInterning.HIRModule.GetPointerType: the bucket is a parameter: it may miss stored types, except those whose two keys agree, since the hash function and the moments at which the table grows are not part of this model. Pointer types are numbered apart from the others.
- TypeInterning.SameObjectIffSameStructure: structs and unions are compared by name (structs also by the ref-class flag), and structures with pointer types inside are left out.
- Checking of conflicts, moves and escapes, the type checker, code generation, the runtime, and the optimisation passes are not part of this model.
