# LR(1) parser generator and its views, in Dafny

This project models the core of an LR(1) parser playground. A Flask backend
takes a grammar (a dictionary from non-terminal to a list of production
bodies, each body a space-separated string) and a start symbol. It does
five things:

- It splits the grammar's symbols into non-terminals and terminals.
- It computes FIRST sets by a "while changed" fixed point.
- It builds LR(1) closures and GOTO sets, the collection of item sets, and
  the ACTION/GOTO tables.
- It tokenizes an input string.
- It runs the shift/reduce stack machine and records every step.

A React frontend decodes the serialized table keys `"<state>_<symbol>"`
into a grid. It also renders every item as `A → α •β, a` and formats each
recorded step.

Modules:

- `Wrappers`: `Option` and `Result`.
- `Text`: ASCII character classes, Python `split()`, JavaScript
  `split(sep)`, `join`, `toUpperCase`, decimal printing and `parseInt`.
- `FirstSpec`: the reference definition of FIRST, the least closed
  assignment.
- `GrammarModel`: the `Grammar` class with `InitializeSymbols`,
  `ValidateGrammar` and `GetFirstSets`.
- `Items`: LR(1) items, the closure as a least fixed point, and the GOTO
  kernel.
- `ParseMachine`: one round of the driver loop, and the run with a bound on
  its rounds.
- `Tokenizer`: the reference token list, and the character-by-character
  `Tokenize`.
- `Lr1`: the `LR1Parser` class, holding `lr1Items`, `parsingTable` and
  `gotoTable`, with its methods.
- `TableView`, `ItemView` and `SimulationView`: the three frontend
  components.

`build_lr1_sets` starts the collection as `[∅, closure({S' → •S, $})]` and
marks index 1 processed before the loop. So the loop only visits the empty
set, whose GOTO on every symbol is empty. It therefore ends after one pass.
No set is ever added, and no shift or goto entry is ever written. The model
keeps that behaviour and proves it:

- `BuildLr1Sets` ends with exactly those two sets.
- `BuildParsingTable` writes ACTION entries for state 1 only.
- `ParseString`, which starts in state 0, always stops at its first step
  with a missing ACTION entry for the first symbol. That is the
  `ValueError` of lr1_parser.py:188-189.

The route calls `parse_string` at `backend/app/routes/api.py:30`. Its
handler at `backend/app/routes/api.py:62-64` turns the error into a 400
response that carries only the error message. So no sets, table or steps
reach the frontend. The three views are modelled on the data the route
would send.

## Model

| member | source | states |
|---|---|---|
| GrammarModel.Grammar.constructor | backend/app/parser/grammar.py:10-12 | Construction keeps the productions and start symbol and leaves the symbol sets classified, as `InitializeSymbols` does |
| GrammarModel.Grammar.InitializeSymbols | backend/app/parser/grammar.py:14-23 | `nonTerminals` becomes exactly the production keys, and `terminals` exactly the body symbols that are not keys; productions and start symbol are unchanged |
| GrammarModel.ClassifySymbols | backend/app/parser/grammar.py:16-23 | The nested loops over keys, bodies and `split()` symbols collect exactly the keys and exactly the non-key body symbols |
| GrammarModel.SymbolPartition | backend/app/parser/grammar.py:16-23 | Terminals and non-terminals are disjoint, and every body symbol lies in their union |
| GrammarModel.Grammar.ValidateGrammar | backend/app/parser/grammar.py:25-37 | The grammar is accepted if and only if the start symbol is a production key |
| GrammarModel.InitialFirst | backend/app/parser/grammar.py:41-45 | The dictionary comprehension and the terminal loop build exactly the starting map `Init`: every symbol is a key, with `{t}` for each terminal and `{}` for the rest |
| GrammarModel.BodyFirst | backend/app/parser/grammar.py:59-71 | The symbol loop with its early `break` computes FIRST of a non-empty body; the precondition that every body symbol has an entry is what makes `first[symbol]` safe |
| FirstSpec.SeqFirstMembers | backend/app/parser/grammar.py:59-71 | `''` is in FIRST of a body if and only if every symbol is nullable; a non-empty v is in it if and only if v is in FIRST of some symbol preceded only by nullable symbols |
| GrammarModel.UpdateFirst | backend/app/parser/grammar.py:51-74 | Treating one key's productions keeps the map between its old value and the least fixed point. Other keys are unchanged. A reported change strictly shrinks the set of missing pairs. No change means every body's FIRST is already included |
| GrammarModel.FirstPass | backend/app/parser/grammar.py:49-74 | One pass of the `while changed` body in any key order grows the map within the least fixed point. A change shrinks the missing pairs, which is the termination measure. No change means the map is closed |
| GrammarModel.Grammar.GetFirstSets | backend/app/parser/grammar.py:39-76 | The in-place loop returns exactly the least closed FIRST map above the start map, whatever order the dictionary is visited in |
| FirstSpec.FirstSets | backend/app/parser/grammar.py:39-76 | The result has every symbol as a key and is closed under every production. Every set lies within terminals ∪ {''}. FIRST(t) = {t} for every terminal |
| FirstSpec.FirstSetsLeast | backend/app/parser/grammar.py:47-74 | The FIRST map lies below every closed map above the start map |
| FirstSpec.FirstSetsJustified | backend/app/parser/grammar.py:59-74 | Every value FIRST(A) gains beyond its start value is contributed by some body of A |
| FirstSpec.NullableIff | backend/app/parser/grammar.py:53-57 | `''` is in FIRST(A) if and only if some body of A is all nullable; an empty body is one |
| FirstSpec.MissingShrinks | backend/app/parser/grammar.py:72-74 | Adding a value inside the bounded universe strictly shrinks the missing pairs, so the loop terminates |
| Items.GeneratedWithin | backend/app/parser/lr1_parser.py:48-84 | Everything closure derives stays inside a finite universe of items, so the closure loop terminates |
| Lr1.ComputeLookaheads | backend/app/parser/lr1_parser.py:62-74 | The loop over the remaining symbols and the lookahead, using `get(symbol, {symbol})`, computes the lookaheads of the derived items |
| Lr1.AddDerived | backend/app/parser/lr1_parser.py:76-82 | The double loop over productions and lookaheads adds exactly the derived items not yet in the closure |
| Lr1.NewItems | backend/app/parser/lr1_parser.py:50-83 | One round collects exactly the items derivable from the closure that it does not hold yet |
| Lr1.LR1Parser.ComputeClosure | backend/app/parser/lr1_parser.py:42-86 | The result is the closure: it contains the input, derives nothing new, and is contained in every such set |
| Items.ClosureAddsOnlyDerived | backend/app/parser/lr1_parser.py:77-81 | Every added item has dot 0 and a production of the grammar as body. Its left-hand side follows the dot of an item of the closure, with a lookahead computed for that item |
| Items.ClosureUnique | backend/app/parser/lr1_parser.py:42-86 | Two closures of the same items are equal |
| Items.KernelMembers | backend/app/parser/lr1_parser.py:92-97 | An item is in GOTO's kernel if and only if moving its dot back one place gives an item of the set whose next symbol is X |
| Items.KernelEmpty | backend/app/parser/lr1_parser.py:92-99 | When no item has X after its dot, both the kernel and its closure are empty |
| Lr1.LR1Parser.ComputeGoto | backend/app/parser/lr1_parser.py:88-99 | The result is the closure of the kernel: matching items with the dot advanced |
| Lr1.AugmentWellFormed | backend/app/parser/lr1_parser.py:108-110 | Adding S' → S keeps the symbol sets well formed for FIRST |
| Lr1.LR1Parser.AugmentGrammar | backend/app/parser/lr1_parser.py:104-110 | The productions gain exactly `S' → S`, and the non-terminals gain exactly S' |
| Lr1.IndexOf | backend/app/parser/lr1_parser.py:141 | For a set in the list, returns the first position holding it, as `list.index` does. Python raises `ValueError` for an absent set; the model returns -1 there, which the `not in` guard at line 133 makes unreachable |
| Lr1.LR1Parser.ProcessStates | backend/app/parser/lr1_parser.py:119-145 | One pass marks every index processed. When every unprocessed set is empty, it finds no new set and writes no entry |
| Lr1.LR1Parser.CollectStates | backend/app/parser/lr1_parser.py:115-150 | Starting from `[set(), initial]` with `{1}` processed, the loop ends with exactly those two sets and the tables unchanged |
| Lr1.LR1Parser.BuildLr1Sets | backend/app/parser/lr1_parser.py:101-150 | After it runs, the grammar is augmented, the collection is `[∅, closure({(S', S, 0, $)})]`, and the ACTION and GOTO tables are unchanged |
| Lr1.LR1Parser.AddReduceEntries | backend/app/parser/lr1_parser.py:158-167 | Every completed item of state i has an entry at (i, lookahead). Every new entry is `accept` for S' with `$` and `reduce (lhs, body)` otherwise, for some completed item |
| Lr1.LR1Parser.AddReduceActions | backend/app/parser/lr1_parser.py:157-167 | The same for every state of the collection; keys already in the table stay |
| Lr1.JustifiedAtOne | backend/app/parser/lr1_parser.py:115 | With the collection `[∅, I]`, every entry a completed item justifies is in state 1 |
| Lr1.LR1Parser.BuildParsingTable | backend/app/parser/lr1_parser.py:152-169 | Builds the sets, then writes an entry for every completed item, each justified by a completed item. Keys already in the table stay, and every new entry lies in state 1 |
| Lr1.LR1Parser.constructor | backend/app/parser/lr1_parser.py:36-40 | A new parser holds the grammar and empty sets and tables |
| ParseMachine.Drive | backend/app/parser/lr1_parser.py:178-213 | The stack/cursor loop returns exactly the bounded run from stack `[(0, '$')]` over the symbols |
| ParseMachine.MoveEffect | backend/app/parser/lr1_parser.py:184-209 | A step records the stack and remaining input before it acts. Shift pushes (target, symbol) and consumes one symbol. Reduce pops \|body\| pairs, pushes (goto[prev, A], A) and consumes nothing |
| ParseMachine.RunTrace | backend/app/parser/lr1_parser.py:183-213 | A successful run starts at the initial configuration and ends with the one `accept` step. Each earlier step leads to the configuration recorded by the next |
| ParseMachine.RunInputSuffix | backend/app/parser/lr1_parser.py:192-201 | Every recorded input is a suffix of the starting symbols |
| ParseMachine.RunFailsWithoutStateZero | backend/app/parser/lr1_parser.py:179-189 | With no ACTION entry for state 0, a run stops at once with a missing entry for the first symbol |
| Lr1.LR1Parser.ParseString | backend/app/parser/lr1_parser.py:171-222 | Builds the tables when the ACTION table is empty, leaving the collection `[∅, closure({(S', S, 0, $)})]`; otherwise it leaves the sets, tables and productions unchanged. It then runs the driver on `tokenize(s) + ['$']`. With the tables built here, the result is always the missing-entry error at state 0 |
| Tokenizer.Tokenize | backend/app/parser/lr1_parser.py:224-239 | The character loop returns exactly the reference token list |
| Tokenizer.PendingTokensCorrect | backend/app/parser/lr1_parser.py:228-238 | Finishing from a pending alphanumeric run gives the tokens of the run followed by the rest |
| Tokenizer.TokensProperties | backend/app/parser/lr1_parser.py:224-239 | Every token is non-empty and free of white space, and is an alphanumeric run or a single other character. The tokens concatenate to the input with white space removed |
| Tokenizer.MaximalRunIsToken | backend/app/parser/lr1_parser.py:229-234 | A maximal alphanumeric run is exactly one token, between the tokens of what precedes and follows it |
| Tokenizer.SymbolIsToken | backend/app/parser/lr1_parser.py:235-236 | Every non-space, non-alphanumeric character is a one-character token in place |
| Tokenizer.TokensAppend | backend/app/parser/lr1_parser.py:228-238 | Tokenizing splits at any point not inside an alphanumeric run |
| TableView.IntToStringNoUnderscore | backend/app/routes/api.py:49 | The state part of an encoded key holds no `_` |
| TableView.DecodeEncodedKey | frontend/src/components/ParsingTable.tsx:15-16 | Decoding `f"{state}_{symbol}"` gives back (state, symbol) for an underscore-free symbol; anything after a second `_` is dropped |
| Text.ParseIntOfString | frontend/src/components/ParsingTable.tsx:16 | `parseInt` reads a decimal-printed integer back |
| Text.ToUpperFixed | frontend/src/components/ParsingTable.tsx:17 | A symbol equals its upper-case form if and only if it has no lower-case letter |
| TableView.ClassifiedSymbols | frontend/src/components/ParsingTable.tsx:17-21 | A seen symbol goes to the non-terminal list if and only if it is upper case, and to the terminal list if and only if it is not |
| TableView.DistinctProperties | frontend/src/components/ParsingTable.tsx:10-12 | The `Set` contents hold every added element exactly once and nothing else |
| TableView.DistinctOrder | frontend/src/components/ParsingTable.tsx:11-12 | Columns keep the order in which symbols are first seen |
| TableView.DecodeAllError | frontend/src/components/ParsingTable.tsx:14-22 | The first key that cannot be decoded decides the outcome of the whole loop |
| TableView.DecodedAt | frontend/src/components/ParsingTable.tsx:14-16 | When all keys decode, the i-th decoded pair is the decoding of the i-th key |
| TableView.DecodeColumns | frontend/src/components/ParsingTable.tsx:9-25 | The `forEach` over the keys, followed by adding `$`, yields exactly the decoded columns, or the first key error |
| TableView.TerminalsNoDollar | frontend/src/components/ParsingTable.tsx:17-21 | The loop never puts `$` among the terminals, since `$` is upper case |
| TableView.StatesInMembers | frontend/src/components/ParsingTable.tsx:16 | A state is collected if and only if some key holds it |
| TableView.ColumnsProperties | frontend/src/components/ParsingTable.tsx:14-25 | Column membership holds in both directions for every seen symbol, as set out below the table |
| TableView.InsertProperties | frontend/src/components/ParsingTable.tsx:28 | Inserting into a sorted list keeps it sorted and adds exactly the element |
| TableView.SortStatesProperties | frontend/src/components/ParsingTable.tsx:28 | The sorted states are ascending and a permutation of the states |
| TableView.SortStatesStrict | frontend/src/components/ParsingTable.tsx:28 | Distinct states sort into strictly ascending order |
| TableView.CellDash | frontend/src/components/ParsingTable.tsx:85-91 | A cell shows `-` if and only if the table has no entry under `${state}_${symbol}` |
| TableView.Cells | frontend/src/components/ParsingTable.tsx:84-105 | One cell per column, each the entry's `action value` or `-` |
| TableView.GridShape | frontend/src/components/ParsingTable.tsx:79-105 | One row per distinct state, in strictly ascending order, each labelled with its state and as wide as both column lists |
| TableView.GridShowsEveryEntry | frontend/src/components/ParsingTable.tsx:84-105 | When the keys are those of the table, every entry encoded by the backend has its state among the rows and its symbol among the columns, and its cell shows `action value` |
| ItemView.SetsView | frontend/src/components/LR1SetsView.tsx:16-23 | One block per state in received order, titled `State <n>`, listing the items in received order. The view shows the received `state` field; the model titles each block by its position, which is the value api.py:34 sends (`"state": i` from `enumerate`) |
| ItemView.ItemLines | frontend/src/components/LR1SetsView.tsx:23 | One line per item, in order |
| ItemView.EveryItemShown | frontend/src/components/LR1SetsView.tsx:16-35 | Every item of state i is shown in the block titled `State i` |
| ItemView.MarkDotPieces | frontend/src/components/LR1SetsView.tsx:31-33 | Marking keeps the piece count. Only the piece at `dot_position` changes, by gaining a `•` prefix |
| Text.JoinSplitOn | frontend/src/components/LR1SetsView.tsx:29-34 | Splitting on a character and joining with it gives the text back |
| ItemView.DottedBodyBullets | frontend/src/components/LR1SetsView.tsx:29-34 | The rendered body holds one `•` more than the body when the dot lies inside the piece count, and none more otherwise |
| ItemView.DottedBodyErasesToBody | frontend/src/components/LR1SetsView.tsx:29-34 | Deleting every `•` from the rendered body gives back the body, with its own bullets deleted |
| ItemView.DottedBodyEnds | frontend/src/components/LR1SetsView.tsx:29-34 | A dot at or past the piece count leaves the body unchanged; an empty body with dot 0 renders as `•` alone |
| ItemView.SplitsAgree | frontend/src/components/LR1SetsView.tsx:29-30 | On words joined by single spaces, Python's `split()` and JavaScript's `split(" ")` agree |
| ItemView.CompletedItemUnmarked | frontend/src/components/LR1SetsView.tsx:29-34 | A completed item whose body is single-spaced words is rendered with no dot |
| ItemView.ItemTextExample | frontend/src/components/LR1SetsView.tsx:28-35 | ("A", "a A", 1, "$") renders as `A → a •A, $` |
| SimulationView.RecordKeepsAction | backend/app/parser/lr1_parser.py:192-197 | The recorded action names tell shift, reduce and accept apart, and a shift's value text reads back as its target state |
| SimulationView.StepsView | frontend/src/components/ParserSimulation.tsx:18-19 | Exactly one block per step, in order |
| SimulationView.StackTextPieces | frontend/src/components/ParserSimulation.tsx:24-29 | Splitting the stack text on spaces gives, bottom to top, each state followed by its symbol, then the empty piece after the trailing space |
| SimulationView.StackTextExample | frontend/src/components/ParserSimulation.tsx:24-29 | `[(0,"$"),(4,"a")]` is shown as `0$ 4a ` |
| SimulationView.InputTextPieces | frontend/src/components/ParserSimulation.tsx:35 | The input text splits back into the remaining symbols |
| SimulationView.InputTextExample | frontend/src/components/ParserSimulation.tsx:35 | `["a","b","$"]` is shown as `a b $` |
| SimulationView.ReduceTextExample | frontend/src/components/ParserSimulation.tsx:42 | The action text is `action + " " + value` with no interpretation; a reduce by E → E + T shows `reduce ('E', 'E + T')` |

`TableView.ColumnsProperties` states the following for every seen symbol:

- It is a non-terminal if and only if it has no lower-case letter.
- A symbol other than `$` is a terminal if and only if it has a lower-case
  letter.
- `$` is the last terminal.
- No column list holds duplicates.
- `$` is also a non-terminal if and only if some key mentions it.

## Left out

- Python's set and dictionary iteration order is not modelled. Loops over
  sets and dictionaries pick elements in any order. The models of
  `get_first_sets`, `compute_closure` and the collection are proved
  independent of that order.
- Lr1.LR1Parser.BuildParsingTable: when two completed items of a state
  share a lookahead, the entry that survives depends on set order. The
  contract leaves the winner unspecified: every entry is justified by
  some completed item.
- Lr1.LR1Parser.BuildLr1Sets: the transition-recording property (target
  index, and shift versus goto by `islower()` or `$`) is not stated
  separately. The model proves that the loop never records a transition
  at all, which makes the property hold vacuously. The branches at
  lr1_parser.py:133-145 are kept in `ProcessStates`.
- Lr1.LR1Parser.ParseString: the driver loop runs under a `fuel` bound on
  its rounds. A reduce cycle that would never end in Python ends here
  with `OutOfFuel`. The index and key errors of lr1_parser.py:185 and
  207-208 become the error outcomes `InputExhausted`, `StackUnderflow` and
  `MissingGoto`.
- Lr1.LR1Parser.ParseString, Lr1.LR1Parser.AugmentGrammar,
  Lr1.LR1Parser.BuildLr1Sets, Lr1.LR1Parser.BuildParsingTable: they require
  the start symbol's words to be grammar symbols (`ParseString` only when
  the table still has to be built). Otherwise Python
  raises `KeyError` in `get_first_sets` (grammar.py:63). The route calls
  `validate_grammar` first, which gives this precondition for any start
  symbol without white space.
- GrammarModel.Grammar.ValidateGrammar: the `isinstance` checks are not
  modelled. Productions are typed as lists of strings, so those checks
  always pass.
- TableView.DecodeColumns: a key whose state piece `parseInt` cannot read
  stops decoding with `NotANumber`. The view itself would add `NaN` to the
  states. JavaScript's 53-bit number precision is not modelled either:
  states are unbounded integers.
- SimulationView.ValueText: it writes a reduce value as `('lhs', 'body')`.
  Python's `repr` escaping of quotes and backslashes inside the strings is
  not modelled.
- Character classes are ASCII only. `isalnum`, `isspace`/`strip`/`split()`
  and `toUpperCase` follow their ASCII behaviour. Unicode letters, digits
  and case mappings are not modelled.
- Logging and the exception rethrow in `parse_string` are not modelled.
  The same goes for the Flask routing and JSON serialization in
  backend/app/routes/api.py and backend/app/main.py; only the key format
  at api.py:49 is used. The React state, `fetch` calls and markup of the
  frontend are left out as well.
- The `ParserState` stub and the field-only `Grammar` at lines 5-33 of
  lr1_parser.py are not part of this model. They have `pass` bodies and
  are never used.
