# SeddEc covering-set synthesis, modelled in Dafny

SeddEc computes a set of tests that covers every leaf event of an event
structure. An event structure is a list of events. Each event has an id, a
list of predecessors and a list of conflicts. A leaf event is one that no
event names as a predecessor, itself included. A test is a set of leaf events that can
happen together.

The pipeline that this project models:

1. **Parsing.** `ParseEventStructure` reads one event per line, in the form
   `(1, Event(pred=(2,3), icnf=(4)))`, with a hand-written tokenizer.
   Errors are `SeddEcException`s that carry a reason and a message.
2. **Encoding.** `EncodeEvents` turns the events into one Boolean formula.
   Each event gets the variable `el<id>` when it is a leaf and `e<id>`
   otherwise. A true event variable requires all its predecessors to be
   true and all its conflicts to be false.
3. **Variable search.** `GetEventVars` walks the solver term breadth-first
   and collects the constants whose names start with `el`.
4. **Covering.** The cover is found in one of two ways:
   - `Optimize` asks an optimizing solver for models until every leaf
     variable is true in some model.
   - `SolveCograph` builds the compatibility graph by asking the solver
     about every pair of leaf variables; `ParseCograph` reads such a graph
     from a file. `CoverCograph` then covers the graph greedily with
     cliques from Cliquer, then with pairs, then with single nodes.

The solvers are oracles here:
- Z3's pairwise satisfiability check becomes the function `pairSat`.
- Z3's optimizing check becomes `oracle`, which returns an `Outcome`.
- Cliquer's `clique_unweighted_find_single` becomes `cliqueOracle`. The
  only thing required of it is that it returns a clique.

Cliquer's graph and its set operations are modelled by what they do to the
adjacency sets (`Graphs.Graph`). The tokenizer and the parser are
imperative methods of the class `EsParser.Scanner`. Each of them is proved
equal to a recursive reference definition in `EsLexer` and `EsGrammar`.

The process-wide `lineNum` and `colNum` counters are fields of the scanner.
As in the code, `colNum` is never reset between lines. The column printed
in an error message therefore counts from the start of the file, not from
the start of the line.

## Model

| member | source | states |
|---|---|---|
| Exceptions.ReasonName | src/SeddEcException.cpp:4-7 | The `reasonName` table gives every reason a non-empty name. |
| Exceptions.FromReason | src/SeddEcException.cpp:10 | The exception keeps its reason. Its `what()` text is the reason's name and nothing else: it has the name's length and reads back as that reason, with no message. |
| Exceptions.WithMessage | src/SeddEcException.cpp:11-12 | The exception keeps its reason. Its `what()` text reads back as that reason and exactly the message given. |
| Exceptions.NamesPrefixFree | src/SeddEcException.hpp:5-7 | One reason name is a prefix of another only when they are the same reason, so `what()` determines the reason. |
| Exceptions.WhatStartsWithReasonName | src/SeddEcException.cpp:10-12 | Both constructors produce a `what()` text that begins with the name of the stored reason. |
| EsLexer.Lex | src/ESParser.cpp:35-141 | A token read leaves a strict suffix of the line. An INTEGER token is a non-empty run of digits. Every failure is an input-format error. |
| EsLexer.LexSkipsSpaces | src/ESParser.cpp:39-46 | Spaces in front of a token do not change the token read or the text left after it. |
| EsLexer.LexAtEnd | src/ESParser.cpp:43-44 | A line with only spaces left fails with "Unexpected end-of-line". The column in the message is one past the end of the line. |
| EsLexer.LexNonSpace | src/ESParser.cpp:42-78 | For the first character that is not a space, gives the token for each character class: brackets, `=`/`,`, a quote, a digit, or any other character. |
| EsLexer.LexPunctuation | src/ESParser.cpp:47-60 | `( { [` read as LPAREN, `) } ]` as RPAREN and `= ,` as OPERATOR, each one character long. |
| EsLexer.LexString | src/ESParser.cpp:104-118 | A quoted string reads as a STRING token holding the text between the quotes. Reading stops right after the closing quote. |
| EsLexer.LexUnmatchedQuote | src/ESParser.cpp:106-109 | A quote with no closing quote fails with the "Unmatched" error at the end of the line. |
| EsLexer.LexInteger | src/ESParser.cpp:120-140 | A maximal run of digits reads as one INTEGER token. |
| EsLexer.LexIdentifier | src/ESParser.cpp:81-102 | Any other first character starts an IDENTIFIER. The identifier runs up to a space, bracket, `=`, `,`, quote or the end of the line. |
| EsGrammar.ExpectKind | src/ESParser.cpp:143-147 | Succeeds exactly when the token has the expected type. Otherwise the error names the token, its type, the position and the expected type. |
| EsGrammar.ExpectValue | src/ESParser.cpp:149-153 | Succeeds exactly when both the token's type and its text are the expected ones. Otherwise it gives the second message format. |
| EsParser.Scanner.NextToken | src/ESParser.cpp:35-141 | The scanner's result and new position are those of `EsLexer.Lex` on the unread text. |
| EsParser.Scanner.GetFirst | src/ESParser.cpp:39-46 | Skips spaces and takes the first other character. If the line runs out, the column counter ends one past the end and the error is the end-of-line error. |
| EsParser.Scanner.ScanToken | src/ESParser.cpp:42-78 | Once the first character is taken, the token matches `Lex` on that character followed by the rest of the line. |
| EsParser.Scanner.ScanString | src/ESParser.cpp:104-118 | Returns the text up to the first quote and consumes that quote. Fails with the unmatched-quote error when no quote follows. |
| EsParser.Scanner.ScanInteger | src/ESParser.cpp:120-140 | Consumes exactly the digit run and returns it with the first digit in front. |
| EsParser.Scanner.ScanIdentifier | src/ESParser.cpp:81-102 | Consumes exactly the run of non-stop characters and returns it with the first character in front. |
| EsParser.Scanner.IgnoreLevel | src/ESParser.cpp:155-162 | Skips exactly the text `EsGrammar.IgnoreLevel` skips, nested levels included, or fails as it does. What that text is: `EsSkip.SkipItems` and `EsSkip.UnclosedItems`. |
| EsParser.Scanner.IgnoreExpression | src/ESParser.cpp:164-168 | Skips exactly the text `EsGrammar.IgnoreExpression` skips, or fails as it does. What that text is: `EsSkip.SkipExpression`, `EsSkip.UnclosedGroup` and `EsSkip.StrayCloser`. |
| EsParser.Scanner.ParseIdList | src/ESParser.cpp:170-187 | Returns the id list `EsGrammar.IdList` reads, stops where it stops, and fails with the same error. What it reads: `EsRoundTrip.IdListRoundTrip`; what it refuses: the `EsIdLists` lemmas. |
| EsParser.Scanner.ParseEvent | src/ESParser.cpp:189-228 | Returns the event `EsGrammar.EventAt` reads, stops where it stops, and fails with the same error. |
| EsParser.Scanner.ParseEventId | src/ESParser.cpp:192-195 | Reads `( INT` as `EsGrammar.EventId` does. |
| EsParser.Scanner.ParseEventOpen | src/ESParser.cpp:197-200 | Reads `, Event (` as `EsGrammar.EventOpen` does. |
| EsParser.Scanner.ParseFields | src/ESParser.cpp:201-223 | The field loop applies the fields in order, as `EsGrammar.Fields` does. A later `pred` or `icnf` overrides an earlier one. |
| EsParser.Scanner.ParseField | src/ESParser.cpp:206-221 | Reads one `name=value` entry, with its separating comma when it is not the first, as `EsGrammar.Field` does. |
| EsParser.Scanner.ParseFieldValue | src/ESParser.cpp:211-221 | `pred` and `icnf` replace the event's list with the id list read. Any other field's value is skipped. |
| EsParser.Scanner.ParseEventStructure | src/ESParser.cpp:230-243 | Gives the events of `EsGrammar.Events` for the lines, starting from the counters' current values. The first failing line fails the whole file. |
| EsParser.ReadEventStructure | src/ESParser.cpp:230-243 | A fresh scanner, with both counters at zero, reads the file as `EsGrammar.EventStructure` does. |
| EsSkip.LexAtom | src/ESParser.cpp:47-140 | An identifier, a number, a quoted string, `=` or `,`, followed by text that ends it, is read as one token that is not a bracket, and exactly that text is left. |
| EsSkip.SkipItems | src/ESParser.cpp:155-162 | For every sequence of values, nested bracket groups of any depth and any mix of bracket kinds included, skipping a level reads up to the closing bracket after them and leaves exactly the text that follows it. |
| EsSkip.UnclosedItems | src/ESParser.cpp:155-162 | When the line ends before the level's closing bracket, skipping fails with the end-of-line error. |
| EsSkip.SkipExpression | src/ESParser.cpp:164-168 | For every value, a single token or a bracket group of any depth, skipping an expression reads exactly that value and leaves whatever follows it. |
| EsSkip.UnclosedGroup | src/ESParser.cpp:164-168 | An opening bracket whose group the line ends inside makes the skip fail with the end-of-line error. |
| EsSkip.StrayCloser | src/ESParser.cpp:164-168 | A closing bracket where a value is expected is skipped as a single token, and everything after it is left. |
| EsIdLists.CommasRead | src/ESParser.cpp:175-185 | The elements after the first, each after its comma, are read in order, up to whatever follows them. |
| EsIdLists.LeadingComma | src/ESParser.cpp:176-183 | `(,` fails where the first integer is expected, with the error naming the comma and the expected INTEGER type. |
| EsIdLists.FirstNotInteger | src/ESParser.cpp:176-183 | A first element that is neither an integer nor the closing bracket of an empty list makes the list fail. |
| EsIdLists.AfterCommaNotInteger | src/ESParser.cpp:179-183 | For every non-empty list prefix, anything after a comma that is not an integer makes the list fail. |
| EsIdLists.TrailingComma | src/ESParser.cpp:179-183 | For every non-empty list, a comma right before the closing bracket makes it fail, whatever follows. |
| EsIdLists.MissingComma | src/ESParser.cpp:179-181 | For every non-empty list prefix, an element followed by anything but a comma or the closing bracket makes the list fail. |
| EsIdLists.TwoIntegers | src/ESParser.cpp:179-181 | Two integers separated only by a space make the list fail. |
| EsRoundTrip.IdListRoundTrip | src/ESParser.cpp:170-187 | Every id list printed as `(a,b,c)` reads back as the same list. The reader stops right after the closing bracket. |
| EsRoundTrip.EventRoundTrip | src/ESParser.cpp:189-228 | Every event printed as `(id, Event(pred=(..), icnf=(..)))` reads back as the same event. Text after the final bracket is left unread. |
| EsRoundTrip.EventsRoundTrip | src/ESParser.cpp:230-243 | Events printed one per line read back as the same events in the same order, wherever the counters stand. |
| EsRoundTrip.ExampleEmptyEvent | src/ESParser.cpp:189-228 | `(1, Event(pred=(), icnf=()))` reads as event 1 with no predecessors and no conflicts. |
| EsRoundTrip.BlankLineRejected | src/ESParser.cpp:236-239 | A file with a line of only spaces fails with an input-format error. |
| Numbers.DecimalRoundTrip | src/ESParser.cpp:184 | `stoi` of a number's decimal spelling gives the number back. |
| Numbers.NatToStringInjective | src/Cli.cpp:305-307 | Different ids have different decimal spellings. |
| Encoding.LeafEvents | src/Cli.cpp:298-303 | The `leafEvents` loops leave exactly `LeafIds`: the ids of the events minus every predecessor id. |
| Encoding.LeafIdsMembers | src/Cli.cpp:298-303 | An id is a leaf exactly when some event has it and no event lists it as a predecessor. |
| Encoding.VarNameInjective | src/Cli.cpp:305-307 | Two ids get the same variable name exactly when they are the same id. |
| Encoding.VarNameMarksLeaves | src/Cli.cpp:305-307 | A variable name starts with `el` exactly when its id is a leaf. |
| Encoding.EncodeEvents | src/Cli.cpp:297-322 | The method builds `EncodingOf(events)`, whose meaning `EncodingMeaning` states. |
| Encoding.EncodeEvent | src/Cli.cpp:310-319 | One pass of the loop adds the clauses of one event to the conjunction. |
| Encoding.AddPredClauses | src/Cli.cpp:313-314 | Adds one implication per predecessor, in order. |
| Encoding.ConflictDisjunction | src/Cli.cpp:315-317 | Builds the disjunction of the conflicts, starting from `false`. |
| Encoding.DisjunctionMeaning | src/Cli.cpp:315-317 | The conflict disjunction is true exactly when some conflict's variable is true. |
| Encoding.EventClausesMeaning | src/Cli.cpp:311-318 | One event's clauses hold exactly when the conjunction so far holds and the event is respected: if its variable is true, all its predecessors are true and none of its conflicts is. |
| Encoding.EncodingMeaning | src/Cli.cpp:297-322 | An assignment satisfies the encoding exactly when every event whose variable is true has all its predecessors true and none of its conflicts true. |
| EventVars.GetEventVars | src/Cli.cpp:40-74 | The search succeeds exactly when no subterm is an unsupported node. It then returns exactly the `el` constants among the subterms. Otherwise it returns an unsupported subterm. |
| Pipeline.TermNodes | src/Cli.cpp:309-319 | Every node of the term of a formula is an application. Its constants are `true`, `false` or the formula's variables, and every variable of the formula is a constant of the term. |
| Pipeline.EncodedEventVars | src/Cli.cpp:393-395 | On the encoding of any event structure the search succeeds. It finds exactly the variables `el<id>` of the leaf events. |
| Optimizer.NextTimeout | src/Cli.cpp:148 | The timeout update as written, on 32-bit unsigned values, stays within the 32-bit range. |
| Optimizer.NextTimeoutShrinks | src/Cli.cpp:121-148 | From the initial `UINT_MAX`, the update as written lowers the timeout: to 2147483646, then to 1073741821. |
| Optimizer.GrownTimeout | src/Cli.cpp:148 | The intended update: the timeout never decreases and stays within range. It grows strictly below the maximum, and is exactly `t * 3 / 2` when that fits. |
| Optimizer.TrueVars | src/Cli.cpp:98-101 | The variables kept are exactly the event variables the model makes true. |
| Optimizer.CollectTrue | src/Cli.cpp:98-101 | The first loop of `addTest` yields `TrueVars`, in the order of the event variables. |
| Optimizer.EraseCovered | src/Cli.cpp:102-104 | The second loop leaves the uncovered variables minus the test's. It counts exactly the variables it erased. |
| Optimizer.AddTest | src/Cli.cpp:97-109 | The test's variables are erased from those to cover. The test is recorded, and `true` returned, exactly when it covered something new. |
| Optimizer.AddTestProgress | src/Cli.cpp:97-109 | `addTest` keeps the invariant: uncovered and covered variables split the event variables, no test is empty, and there are no more tests than covered variables. |
| Optimizer.ModelCovers | src/Cli.cpp:131-142 | A model that makes an uncovered variable true leaves fewer variables uncovered. |
| Optimizer.CoveredMembers | src/Cli.cpp:77-107 | A variable is covered exactly when some recorded test contains it. |
| Optimizer.HandleOutcome | src/Cli.cpp:141-163 | Handles one answer. `unsat` stops the search as uncoverable, and an exception other than `canceled` stops it with its message. An answer with a readable model (`sat`, `unknown`, or `canceled` with a model) erases exactly that model's true event variables from the uncovered ones. It appends exactly those variables as a test, and only when they erased something. A `canceled` check without a model changes neither. Otherwise the invariant holds and the uncovered variables only shrink. A model with an uncovered true variable strictly shrinks what is left. The timeout is kept after `sat`, `unsat` and other exceptions, and after a `canceled` check whose partial model covered something. It takes the update as written, `NextTimeout`, after `unknown` and after any other `canceled` check. It always stays within the 32-bit range. |
| Optimizer.Optimize | src/Cli.cpp:76-170 | Test `i` is exactly the true event variables of a model the solver gave (`Recorded`). It was asked with the variables no earlier test covers, and each question's uncovered variables are among the previous one's (`Shrinking`). When the search ends normally, every event variable is in some test. Tests are never empty and number at most the variables. With a solver that always makes an uncovered variable true, enough rounds always end normally. |
| Graphs.WithEdgeSymmetric | src/Cli.cpp:194 | Adding an edge at both ends keeps the adjacency symmetric. It only adds, and adds both directions. |
| Graphs.Graph.constructor | src/Cli.cpp:186 | `graph_new(n)`: `n` nodes and no edges. |
| Graphs.Graph.AddEdge | src/Cli.cpp:348 | `GRAPH_ADD_EDGE` adds `b` to the neighbours of `a` and `a` to those of `b`. |
| Cograph.PairGraphMeaning | src/Cli.cpp:336-349 | The cograph is symmetric and has no self-loops. Two nodes are linked exactly when the solver accepted their pair. |
| Cograph.SolveCograph | src/Cli.cpp:324-360 | The graph has one node per variable and is exactly `PairGraph`: each unordered pair is asked once, with the later variable added and the earlier one assumed. |
| Cograph.ReadIntOfSpelling | src/Cli.cpp:182 | `>> int` reads a decimal number, after spaces and with an optional minus sign, as itself. The read stops after its last digit. |
| Cograph.ReadIntOfSpaces | src/Cli.cpp:182 | A line of spaces, the empty line included, holds no number. |
| Cograph.FirstIndexMeaning | src/Cli.cpp:182-184 | The id map holds exactly the ids read. Each maps to the position of its first occurrence, since a repeated `emplace` keeps the old entry. |
| Cograph.ReadIds | src/Cli.cpp:178-184 | The first-line loop numbers the ids by first occurrence. It counts every id read, repeats included. |
| Cograph.EdgeLinesOutcome | src/Cli.cpp:188-195 | The edge lines are accepted exactly when each begins with two listed ids. Otherwise the error is that of the first line that is not accepted. |
| Cograph.EdgeLinesGraph | src/Cli.cpp:188-195 | The graph read is symmetric. It joins two nodes exactly when some edge line names them. |
| Cograph.AddEdgeLines | src/Cli.cpp:188-195 | The edge-line loop builds the graph `EdgeLines` describes. It stops with a format error on a line without two numbers, or an out-of-range error on an unknown id. |
| Cograph.CographOfMeaning | src/Cli.cpp:172-201 | A cograph file is read exactly when every later line begins with two listed ids. The graph then has one node per id read, is symmetric, and joins two nodes exactly when a line names them. |
| Cograph.ParseCograph | src/Cli.cpp:172-201 | The method succeeds exactly when `CographOf` does, with a fresh graph equal to it, and otherwise fails with the same error. |
| CographExamples.IdsOfWords | src/Cli.cpp:179-184 | A line of numbers separated by spaces reads back as those numbers. |
| CographExamples.ThreeNodeExample | src/Cli.cpp:172-201 | The file `a b c` / `a b` / `b c`, with distinct ids, gives the path 0-1-2. |
| CographExamples.EmptyEdgeLine | src/Cli.cpp:192-193 | An empty edge line fails with the input-format error. |
| CographExamples.UnknownIdExample | src/Cli.cpp:194 | An edge to an id not on the first line fails at the map lookup. |
| CographExamples.DuplicateIdsExample | src/Cli.cpp:182-184 | A repeated id still adds a node, which stays isolated. The edges use the first occurrence's index. |
| CliqueCover.WithoutCliqueShrinks | src/Cli.cpp:265-278 | Removing a clique keeps the graph symmetric and only removes edges. The clique's own nodes end with no neighbours. |
| CliqueCover.TakeClique | src/Cli.cpp:218-221 | Taking a fresh clique of the current graph as a test keeps the cover invariant. The covered count grows by the clique's size. |
| CliqueCover.DisjointCount | src/Cli.cpp:205-295 | Disjoint non-empty tests are at most as many as the nodes they cover. |
| CliqueCover.Finish | src/Cli.cpp:258-263 | Adding one single-node test per uncovered node completes a clique cover. That adds `n - |covered|` tests. |
| CliqueCover.CoverSize | src/Cli.cpp:205-295 | A clique cover never has more tests than the graph has nodes. |
| CliqueCover.PairClique | src/Cli.cpp:225-230 | The highest node with a neighbour and its least neighbour form a clique of uncovered nodes. Nodes from it upwards share no edge with the pair. |
| CliqueCover.Least | src/Cli.cpp:230 | `set_return_next(s, -1)`: the least element of a non-empty set, which is in the set and below every other element. |
| CliqueCover.TakePair | src/Cli.cpp:225-242 | One round of the pair loop, as `GreedyPairs` defines it: the highest node with an edge is paired with its least neighbour, and the pair is taken out. |
| CliqueCover.HighestWithEdges | src/Cli.cpp:225 | The search loop stops at the highest node at or below `j` that has a neighbour, or at -1 when there is none. Every node it passes has no neighbours. |
| CliqueCover.SkipNodes | src/Cli.cpp:225 | Passing over nodes without neighbours does not change the pairs `GreedyPairs` chooses. |
| CliqueCover.CoverClique | src/Cli.cpp:265-278 | Taking the oracle's clique of more than two nodes covers exactly its nodes and adds it as one test. The graph becomes the old one with the clique taken out, and the cover invariant holds. |
| CliqueCover.GreedyCoverRound | src/Cli.cpp:218-263 | One round of `GreedyCover`. A clique of more than two nodes is taken and the loop goes on unless every node is covered (line 290). A clique of two starts the pair loop. Otherwise the remaining nodes become single tests. |
| CliqueCover.TakeOut | src/Cli.cpp:265-278 | The `set_remove` loop and the clearing loop leave the adjacency minus the clique: other nodes lose the clique's nodes, and its own nodes lose all their neighbours. |
| CliqueCover.CoverPair | src/Cli.cpp:226-242 | The test is `top` and `m`, the least neighbour `top` had. The covered nodes gain exactly those two, one test is added, and the graph becomes the old one with that pair taken out. The cover invariant holds and nodes from `top` upwards have no neighbours left. |
| CliqueCover.CoverPairs | src/Cli.cpp:222-257 | The tests added are exactly those of `GreedyPairs`: pairs from the highest node with an edge down, then single nodes. The result is a clique cover of the original graph, and the count is the number of its tests. |
| CliqueCover.CoverCograph | src/Cli.cpp:205-295 | The tests are exactly those of `GreedyCover` for the cliques the oracle returns, and the count is their number. They form a clique cover of the input graph: disjoint non-empty cliques of the original graph whose union is all nodes. |

## Left out

- Z3 and Cliquer are not part of this model. The pairwise check, the optimizing check and the clique search are function parameters.
- Cliquer only has to return a clique; it is not required to be maximum. The cover is proved valid for any clique. The count is proved to be that of `GreedyCover` for the cliques returned, but which clique Cliquer picks, and so the exact count on a given graph, is not modelled.
- The percent and ETA progress output, the timers, `graph_test` and every other print are left out. The floating-point percentages only affect that output.
- Reading files is left out. The parsers take the file's lines as a sequence of strings.
- Cograph.ReadInt: does not model the failure of `>> int` on a number too large for `int`; ids are unbounded integers.
- EsGrammar.EventAt: does not model `std::stoi` throwing `out_of_range` on an id too large for `int`; ids are unbounded.
- EsGrammar.IdListItems: does not model `std::stoi` throwing `out_of_range` on a list element too large for `int` (src/ESParser.cpp:184), nor the conversion of the result to `unsigned`; elements are unbounded.
- The tokenizer reads bytes and advances `colNum` once per byte. The model reads a line as a sequence of characters, so after a character that takes several bytes in the file, every later column in an error message is smaller than the one the original prints.
- Optimizer.Optimize: takes a bound `rounds` on the number of solver calls, because the original loop has no bound after repeated inconclusive answers. Running out of rounds gives `OutOfRounds`, which the original never returns.
- Optimizer.Optimize: `unordered_set` iteration order is not modelled; the event variables come in as a sequence in some fixed order.
- Optimizer.HandleOutcome: an `unknown` answer always comes with a model; an `unknown` without a model (which raises an exception in the original) is left out. The timeout follows the update as written, which wraps (see Findings); `GrownTimeout` is the intended update and is not used by the search.
- The soft-constraint weights and the `push`/`pop` scoping of the solver are left out; they exist only inside the oracle.
- `exit(1)` after an unsupported node and after `unsat` is modelled as the results `Unsupported` and `Uncoverable`.
- Cliquer's own checks on its arguments are not part of this model. A graph with no nodes gets the empty cover.
- The command-line front end (TCLAP, `main`) and the SMT-LIB input path are left out.
- Memory management (`set_new`, `set_free`, `set_duplicate`) is not modelled. Sets are values.

## Findings

| source | as written | input that shows it | evidently intended | confidence | as-written member | corrected member |
|---|---|---|---|---|---|---|
| src/Cli.cpp:148 | `optTimeout * 3 / 2` on a 32-bit `unsigned` that starts at `UINT_MAX` (line 121): the product wraps before the division. | The first inconclusive answer turns 4294967295 into 2147483646, and the next into 1073741821: the timeout shrinks. | Grow the timeout by half, saturating at the largest value, so it never decreases. | not executed | Optimizer.NextTimeoutShrinks | Optimizer.GrownTimeout |
