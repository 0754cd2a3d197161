# SLR(1) parser generator — a Dafny model of the `Grammar` core

This project models the `Grammar` class of `slr_parser2.cpp`, a small SLR(1) parser
generator and table-driven parser for grammars whose productions are lists of string
symbols. It covers every step:

- registering productions;
- classifying symbols as terminals (by spelling) or nonterminals (left-hand sides);
- FIRST and FOLLOW sets as repeated passes until nothing changes;
- LR(0) items, closure and goto;
- the canonical LR(0) collection, built by a FIFO worklist with state deduplication;
- the dense SLR action table;
- the stack-machine parse loop.

The model is written in pure functions over `seq`, `set` and `map`, plus methods for the
two fixed-point loops and the worklist. Each step is related to an independent statement
of what it computes:

- FIRST and FOLLOW are the least solutions of their equations.
- Closure is closed, extends its input and adds only justified items.
- Goto holds exactly the advanced items.
- The automaton's states are distinct closed item sets, and every transition leads to the
  closure of a goto set.
- Every table cell is what its last write decides.
- A reduce pops the right number of states.

| module (file) | what it holds |
|---|---|
| `Symbols` (symbols.dfy) | `#`, `$`, terminal classification, `std::set<string>` as a strictly sorted sequence, insertion and position lookup |
| `GrammarModel` (grammar.dfy) | `Production`, `Grammar`, `addProduction`, the three index lookups |
| `FirstFollow` (first_follow.dfy) | `computeFirstSets`, `computeFollowSets` and their declarative equations |
| `Items` (items.dfy) | `LR0Item`, `getNextSymbol`, `calculateClosure`, `computeGoto`, `generateInitialItemSet` |
| `Automaton` (automaton.dfy) | `getOrCreateStateIndex`, `constructLR0Automaton` |
| `ParsingTable` (table.dfy) | `ActionType`, `Action`, `constructParsingTable` and a cell-by-cell characterisation of it |
| `Parser` (parser.dfy) | `parseInput` as written, and a corrected loop |
| `Pipeline` (pipeline.dfy) | the analysis steps of `main` in order, without file reading or output |
| `AcceptExample` (example.dfy) | the expression grammar on which `parseInput` accepts too early |

`std::set<std::string>` iterates in byte order, so the terminal and nonterminal sets are
strictly sorted sequences. A symbol's table column is its position in that order. A
`map<string, set<string>>` read through `operator[]` is a map read with an empty default.

## Model

| member | source | states |
|---|---|---|
| `Symbols.IsTerminal` | slr_parser2.cpp:120-122 | `#` is never a terminal, a symbol starting with an upper-case letter is never a terminal, and every other symbol is one |
| `Symbols.SetInsert` | slr_parser2.cpp:106-110 | `std::set::insert`: the elements become the old ones plus `x`; inserting a present element changes nothing; the order stays strict |
| `Symbols.IndexOf` | slr_parser2.cpp:461-467 | the position of `x` in the set, unique, and -1 exactly when `x` is absent |
| `Symbols.StrLessTotal` | slr_parser2.cpp:88-89 | the byte order of `std::string` is total on distinct strings, so set positions are well defined |
| `GrammarModel.AddProduction` | slr_parser2.cpp:104-111 | appends exactly the one production; nonterminals become the old ones plus `left`; terminals become the old ones plus exactly the terminal symbols of `right`; the start symbol is unchanged |
| `GrammarModel.AddProductionKeepsWellFormed` | slr_parser2.cpp:104-111 | after registration the nonterminals are exactly the left-hand sides and the terminals exactly the right-hand-side terminals |
| `GrammarModel.AddProductions` | slr_parser2.cpp:104-111 | registering a list of productions appends them in order and keeps the grammar well formed |
| `GrammarModel.IsNonTerminalIsLeft` | slr_parser2.cpp:115-117 | in a registered grammar a symbol is a nonterminal exactly when it is the left-hand side of some production |
| `GrammarModel.ProductionIndex` | slr_parser2.cpp:452-459 | the first index of `left -> right` among the productions, -1 exactly when it is absent |
| `GrammarModel.TerminalIndex` | slr_parser2.cpp:461-467 | the position of the terminal in the terminal set, -1 exactly when it is not a terminal |
| `GrammarModel.NonTerminalIndex` | slr_parser2.cpp:469-475 | the number of terminals, plus one, plus the position of the nonterminal, so it lands in the goto columns; -1 exactly when it is not a nonterminal |
| `FirstFollow.FirstPassQuiet` | slr_parser2.cpp:124-160 | a FIRST pass sets `updated` exactly when the sets do not yet solve every production's FIRST equation, and otherwise leaves them unchanged |
| `FirstFollow.ComputeFirstSets` | slr_parser2.cpp:124-160 | the loop ends; the result solves the FIRST equations; one more pass changes nothing; it lies below every other solution; it holds only `#` and right-hand-side terminals, under left-hand sides |
| `FirstFollow.FollowScanIsAdd` | slr_parser2.cpp:176-194 | the scan after an occurrence inserts exactly the declarative FOLLOW contribution of the rest of the right-hand side, and reports whether all of it vanishes |
| `FirstFollow.FollowPassFacts` | slr_parser2.cpp:166-202 | a FOLLOW pass only grows the sets and stays in the finite universe; it sets `updated` exactly when the FOLLOW equations do not yet hold, and otherwise changes nothing |
| `FirstFollow.ComputeFollowSets` | slr_parser2.cpp:164-204 | the loop ends; `$` is in FOLLOW(start); no FOLLOW set holds `#`; the result solves the FOLLOW equations; one more pass changes nothing; it is the least solution; its values are `$`, terminals and non-`#` FIRST members |
| `Items.IsComplete` | slr_parser2.cpp:26-28 | a complete item has no symbol after its dot; an incomplete one with the dot inside the right-hand side has the symbol under the dot next |
| `Items.NextSymbol` | slr_parser2.cpp:30-36 | the symbol after the dot, or the empty string when the dot is at the end |
| `Items.Closure` | slr_parser2.cpp:249-277 | the input is a prefix of the result; every added item is new and called for by an earlier item; the result is closed; the result equals the input exactly when the input is already closed |
| `Items.ClosureIdempotent` | slr_parser2.cpp:249-277 | closing a closure changes nothing |
| `Items.ClosureKeepsItems` | slr_parser2.cpp:249-277 | closure adds only items of the grammar and keeps a duplicate-free sequence duplicate free |
| `Items.GotoItems` | slr_parser2.cpp:280-293 | an item is in the goto sequence exactly when it is an item of the input that can move over `x`, with the dot advanced by one; the sequence is empty exactly when no item can move |
| `Items.GotoItemsDistinct` | slr_parser2.cpp:280-293 | advancing the dots of a duplicate-free item sequence keeps it duplicate free |
| `Items.ComputeGoto` | slr_parser2.cpp:280-293 | the map has no key but `x`; it is empty exactly when no item moves over `x`; otherwise `x` maps to the non-empty goto sequence |
| `Items.StartKernel` | slr_parser2.cpp:232-240 | the start item is the dot-0 item of the first production of the start symbol, or nothing when it has none |
| `Items.InitialItemSet` | slr_parser2.cpp:232-245 | starts with the start item, is closed, duplicate free and made of grammar items, and every later item is called for by an earlier one |
| `Automaton.GetOrCreateStateIndex` | slr_parser2.cpp:343-350 | the smallest index holding the state, or the number of states exactly when it is absent |
| `Automaton.ProcessSymbol` | slr_parser2.cpp:313-324 | one symbol of the worklist body: states are only appended; a new state shrinks the set of states not yet found; a non-empty goto records a transition; an empty goto changes nothing |
| `Automaton.ProcessState` | slr_parser2.cpp:308-339 | one dequeued state: the automaton invariant is kept, and the state now has a transition for every symbol with a non-empty goto |
| `Automaton.ConstructLR0Automaton` | slr_parser2.cpp:298-341 | the loop ends; state 0 is the initial item set; states are pairwise distinct closed item sets of the grammar; every transition goes to the closure of the goto set of its source; every non-empty goto has a transition; every state after the first is reached from an earlier one |
| `ParsingTable.ShiftPass` | slr_parser2.cpp:362-371 | a terminal column gets a shift to the transition target when there is a transition over that terminal, and is untouched otherwise |
| `ParsingTable.GotoPass` | slr_parser2.cpp:374-382 | a nonterminal column gets a goto to the transition target when there is a transition over that nonterminal, and is untouched otherwise |
| `ParsingTable.ConstructParsingTable` | slr_parser2.cpp:355 | one row per state, each one cell wider than the terminals and nonterminals together |
| `ParsingTable.ReducePassCell` | slr_parser2.cpp:384-407 | last write wins: after the item loop a cell holds what its last reducible writer wrote, or is unchanged when nothing writes it |
| `ParsingTable.TableCells` | slr_parser2.cpp:355-408 | every cell is the last reduce or accept write to it, else the shift or goto of a transition, else the error entry |
| `ParsingTable.AcceptCells` | slr_parser2.cpp:390-396 | accept appears only in the `$` column, and only where a reducible start-symbol item has `$` in its FOLLOW set |
| `ParsingTable.GotoCells` | slr_parser2.cpp:374-382 | a goto column holds the goto to the transition target, or the error entry when there is no transition |
| `ParsingTable.ShiftCells` | slr_parser2.cpp:362-407 | a cell holds a shift exactly when it is a terminal column with a transition and no reducible item writes it; `$` never holds a shift |
| `ParsingTable.ReduceCells` | slr_parser2.cpp:384-404 | a reduce entry names a production of the grammar that a reducible item of the state writes there |
| `ParsingTable.TargetsAreStates` | slr_parser2.cpp:362-382 | shift and goto entries name states of the automaton |
| `ParsingTable.ConflictFreeCells` | slr_parser2.cpp:384-407 | without conflicts every writer's action is the cell's, whatever the write order |
| `Parser.ParseInputAsWritten` | slr_parser2.cpp:479-548 | a run of parseInput from state 0 at the first token ends accepted, rejected, undefined or out of budget, never mid-step; each step is the as-written loop body |
| `Parser.Lookahead` | slr_parser2.cpp:493 | the token under the cursor, or `$` past the end |
| `Parser.InputColumn` | slr_parser2.cpp:512-513 | `$` reads the `$` column, a terminal reads its own column, and any other token gives -1 |
| `Parser.PopCount` | slr_parser2.cpp:522 | an epsilon production pops nothing, any other production pops one state per right-hand-side symbol |
| `Parser.ShiftStep` | slr_parser2.cpp:515-518 | a shift pushes the target state and consumes one token |
| `Parser.ReduceStep` | slr_parser2.cpp:519-529 | a reduce pops no state for an epsilon production and one per right-hand-side symbol otherwise, keeps the rest of the stack, pushes the goto entry of the uncovered state for the left-hand side, and leaves the cursor alone |
| `Parser.AsWrittenAccepts` | slr_parser2.cpp:503-508 | the source loop accepts exactly when the `$` cell of the top state holds accept, whatever the lookahead |
| `Parser.StepsAgree` | slr_parser2.cpp:491-543 | the source loop and the corrected loop take the same step unless the top state's `$` cell is accept and the lookahead is not `$` |
| `Parser.RunAcceptsAtEnd` | slr_parser2.cpp:491-543 | the corrected loop accepts only with `$` under the cursor |
| `Parser.CorrectedAcceptImpliesAsWritten` | slr_parser2.cpp:503-508 | the defect only adds acceptances: whatever the corrected loop accepts, the source loop accepts too |
| `AcceptExample.GIsBuilt` | slr_parser2.cpp:104-111 | registering the four expression-grammar productions with start symbol E' gives terminals `+ id` and nonterminals `E E' T` in string order |
| `AcceptExample.AsWrittenOnIdPlus` | slr_parser2.cpp:503-508 | on the table of the expression grammar the source loop accepts `id +` with `+` unread |
| `AcceptExample.CorrectedOnIdPlus` | slr_parser2.cpp:512-541 | the corrected loop shifts `+` and rejects `id +` at the end marker |
| `AcceptExample.TableReadCells` | slr_parser2.cpp:352-411 | the table built for the expression grammar holds the cells both parses read |
| `AcceptExample.EarlyAccept` | slr_parser2.cpp:479-548 | the grammar is the one the productions build; on the table built from the hand-written states, transitions and FOLLOW sets, parseInput as written accepts `id +` before reading `+`, and the corrected loop rejects it |
| `Pipeline.FollowHasColumns` | slr_parser2.cpp:398-402 | FOLLOW sets computed for a registered grammar hold only `$` and terminals, so the table never writes through column -1 |
| `Pipeline.TableOfAutomaton` | slr_parser2.cpp:352-411 | a table built from an automaton has accept only in the `$` column, and its shift and goto entries name states and its reduce entries name productions |
| `Pipeline.Analyse` | slr_parser2.cpp:598-665 | the analysis steps of `main` in order give a well-formed grammar and a sound table of one full-width row per state |
| `Pipeline.Drive` | slr_parser2.cpp:659-666 | `main` runs parseInput as written on the lexed tokens with `$` appended; every input the corrected loop accepts, it accepts too |
| `Pipeline.DriveCorrected` | slr_parser2.cpp:659-666 | with the corrected loop in place of parseInput, acceptance happens only at `$`, so input without `$` is read to its end |

## Left out

- `ParseGrammar` and the file reading of `main`: the grammar arrives as a start symbol and a sequence of productions.
- All output: `printFirstSets`, `printFollowSets`, `printParsingTable`, the trace inside `parseInput`, and the "Prodution Not found" message.
- The lexer (`lexer3.cpp`, `lexer.h`, `token.h`) and its symbol table: the token stream is an opaque sequence of strings with `$` appended.
- The order in which the table loop visits a FOLLOW set: each FOLLOW symbol has its own column, so the order cannot change the result.
- Undefined behaviour in `parseInput`: stepping into a state that is not a row, popping the whole stack, or indexing column -1. These end the run as `Undefined`.
- Non-termination of `parseInput` on an arbitrary table: runs take a step budget and end in `OutOfFuel` when it runs out.
- `item.rhs[0]` on an empty right-hand side (slr_parser2.cpp:387, 522) reads past the end in C++. The model reads an empty right-hand side as not an epsilon production.
- `isupper` is modelled for the ASCII letters `A`–`Z` only, as in the C locale.
- The first character of an empty symbol is its terminating NUL, which is not upper case, so the empty string classifies as a terminal.
- `constructParsingTable` requires every FOLLOW symbol other than `$` to be a terminal; otherwise the source writes through column -1. `Pipeline.FollowHasColumns` shows that FOLLOW sets computed for a registered grammar always meet this.
- The table is not required to be conflict free: later writes overwrite earlier ones. `ParsingTable.ConflictFree` states the absence of conflicts separately.
- A table conflict is overwritten, not reported (slr_parser2.cpp:362-407).
- `computeFirstSets` steps over a `#` in a right-hand side and keeps scanning (slr_parser2.cpp:134-136).
- `AcceptExample.TableReadCells`, `AcceptExample.EarlyAccept`: the six LR(0) states, their transitions and the FOLLOW sets are written out by hand. The model proves the cells the two parses read from the table built from them. It does not prove that `ConstructLR0Automaton` returns exactly these states, because evaluating closures on literal grammars is beyond the verifier's budget.
- `Parser.ParseInputAsWritten`, `Parser.Parse`: their only contract is that a run does not end mid-step. The lemmas above characterise what they do.

## Findings

| source | as written | input that shows it | evidently intended | confidence | as-written member | corrected member |
|---|---|---|---|---|---|---|
| slr_parser2.cpp:503-508 | before looking at the current token, the loop accepts as soon as the `$` cell of the top state is accept | grammar `E' -> E`, `E -> E + T`, `E -> T`, `T -> id`, tokens `id + $`: after reducing `id` to `E` the top state's `$` cell is accept, so `parseInput` returns true with `+` unread | accept only when the action for the current lookahead is accept, so that `id +` is rejected | not executed | `AcceptExample.AsWrittenOnIdPlus` (on `Parser.ParseInputAsWritten`, which `Pipeline.Drive` runs) | `AcceptExample.CorrectedOnIdPlus` and `Parser.RunAcceptsAtEnd` (on `Parser.Parse`, which `Pipeline.DriveCorrected` runs) |
