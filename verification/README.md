# magna in Dafny

magna is a GraphQL engine in Rust. This project models the parts of it whose correctness is decided by
its own code, and proves what those parts promise, for every input, every run and every interleaving.
`dafny verify dfyconfig.toml` checks all of it.

**Planning, optimizing, executing** (`Steps` to `ContextRaces`). Registered steps form a dependency
graph. `Semantics` says what such a graph means: one output per step, defined by recursion on the wires,
without any order, tiers, sharing or concurrency. The planner, the swap-removing graph, deduplication
with its remap, the edge rebuild, hoisting, the tier scheduler and the register/execute/read context are
written in the imperative form of the source, and every run of the context is proved to answer that meaning.
Topological sorting is a method that places any ready node next, and tasks of a tier finish in any
order, so the results hold for every order that petgraph or tokio could choose.

**Lexing, parsing, validating** (`Syntax` to `RulesOnTokens`). The lexer and the LL(1) arena parser are
proved against functions on texts and trees, and these against things said without them: tokens are those of a
lexical grammar, a source lexes exactly if they tile it, and every name stands in the source where the tree says. The
accepted language is exactly the printed well-formed trees, and its gap to the standard is exact; sources can be
rewritten from their trees without changing them; the arena's ranges partition it and stand for one tree only; and the
five operations-only rules are reported if and only if a document breaks them, with fragment cycles allowed, where
breaking them is a matter of the document's tokens.

**Data access** (`Decimal`, `Paging`, `PagingRuns`, `Sql`, `SelectBuilder`, `SqlWords`, `StatementReader`,
`Statements`, `PagingQuery`, `Batching`, `PgSelect`) and **the wasm allocator** (`Bump`). Keyset paging loses and
repeats nothing, also while rows come and go; SQL fragments render compositionally, a reader of SELECT text gets back
what was given to the builder, and the text of a page's statement asks for the rows of the page; batched loading gives each parent what its own query would, exactly when the
ids bind and the foreign key is selected; allocated blocks never overlap.

What is assumed:

- Step ids are unique, as `register` documents (crates/magna-core/src/planner.rs:115-116).
- Fingerprints are sound, as `fingerprint` documents (crates/magna-core/src/step.rs:105-108): steps with the
  same type and configuration behave alike. Where a result needs this it is the hypothesis
  `FingerprintSound`; not every shipped step meets it (below).
- A step's `execute`, a loader and the database are functions of what they are given.
- The key order of a table is some strict total order and its key column is unique.
- A column holds values of one kind, and nulls. The database compares it by value with ids of that kind
  (no `citext`, no blank padding) and refuses an id array of another kind.

Two promises of the source fail, and the exact conditions are proved:

- `PgSelectStep` promises each parent its matching children. The id array is bound by the kind of its first
  id (crates/magna-dataplan/src/codec.rs:339-390), and rows are partitioned by a column that may not have been
  selected. `PgSelect.SelectIsPerParent` says when the promise holds on all tables;
  `PgSelect.UnselectedKeyLosesRows` and `PgSelect.FloatKeyFailsTheStep` are inputs on which it fails.
- Equal fingerprints promise equal outputs, but the fingerprint of `PgSelectStep` leaves out the parent's key
  column (crates/magna-dataplan/src/steps/pg_select.rs:187-198). `PgSelect.KeyColumnMatters` says when two
  such steps agree. Insert, update and delete steps leave values out too
  (crates/magna-dataplan/src/steps/pg_insert.rs:86-93); they are not modelled.

Where the code and the GraphQL specification of October 2021 differ, the model follows the code.
`Standard.GapToStandard` lists the four liberties of the parser exactly. The rule that the code calls
UniqueOperationNames and documents as section 5.2.1.1 is that section together with 5.2.2.1
(`OperationRules.ReportedForAnotherSection`).

## Model

| member | source | states |
|---|---|---|
| `Semantics.MeaningUnfolds` | crates/magna-core/src/executor.rs:24-124 | The reference meaning of a step satisfies its equation: crash, skip, broadcast and error rules applied to the meanings of its dependencies, by position. |
| `Semantics.MeaningIsUnique` | crates/magna-core/src/executor.rs:24-124 | Any assignment that satisfies the equation everywhere is the meaning, so it depends on no order of evaluation. |
| `Outcomes.InputsArePositional` | crates/magna-core/src/executor.rs:76-85 | The k-th input of a step is the output of its k-th dependency. |
| `Outcomes.RunsWhen` | crates/magna-core/src/executor.rs:53-85 | A step runs exactly when all its dependencies have outputs and, in a batch that is not empty, some slot is neither null nor in error in any of them. |
| `Outcomes.RunFillsSlots` | crates/magna-core/src/executor.rs:98-120 | What a step that runs leaves in each slot: its own output; or, if it is unary with one value and the batch has more slots, that value and its flags in every slot; or, if it fails, the message and the error flag alone in every slot. A panic ends the execution. |
| `Outcomes.SkipFillsSlots` | crates/magna-core/src/executor.rs:59-66 | What a step that does not run leaves: no value in any slot, and in each slot the null and error flags of its dependencies and no other bit. |
| `Graphs.RemoveNodeEffect` | crates/magna-core/src/planner.rs:59-68 | Swap-removal drops one id and the edges at it and keeps every other edge, although slots move. |
| `Graphs.FindCycle` | crates/magna-core/src/planner.rs:152-157 | Among nodes that all wait for each other, a node on a cycle is found. |
| `Graphs.TopologicalSort` | crates/magna-core/src/optimizer.rs:65-70 | Any topological order can come out, or a node that lies on a cycle. |
| `Graphs.SortedHasNoCycle` | crates/magna-core/src/optimizer.rs:65-70 | A graph that can be sorted has no cycle: the two outcomes exclude each other. |
| `Graphs.SortedIsTopological` | crates/magna-core/src/optimizer.rs:65-70 | Sorting the graph is the same as ordering the program it represents. |
| `Planning.ExecutionPlan.RemoveStep` | crates/magna-core/src/planner.rs:59-68 | Removes the step, its node and its edges; all other steps, nodes and edges stay, and the node map is again the inverse of the slots. |
| `Planning.ExecutionPlan.RebuildNodeMap` | crates/magna-core/src/planner.rs:70-76 | The node map sends every id to its slot, and nothing else. |
| `Planning.ExecutionPlan.DependenciesOf` | crates/magna-core/src/planner.rs:79-90 | Lists exactly the sources of the edges into the step. |
| `Planning.Planner.Register` | crates/magna-core/src/planner.rs:117-119 | Appends the step. |
| `Planning.Planner.Build` | crates/magna-core/src/planner.rs:125-165 | Succeeds exactly on acyclic plans, with the graph of the registered dependencies; otherwise names the first missing dependency, or a step on a cycle. |
| `Planning.CheckCycle` | crates/magna-core/src/planner.rs:152-157 | A step on a cycle is named exactly when the program is cyclic. |
| `Planning.CycleIsNotRanked` | crates/magna-core/src/planner.rs:152-157 | A cycle in the graph refutes acyclicity of the program. |
| `Optimizing.SignaturesDecideTerms` | crates/magna-core/src/optimizer.rs:78-125 | If canonical ids agree exactly when remapped fingerprints do, they agree exactly when the whole unfolded terms do: sharing is sound and maximal. |
| `Optimizing.FindDuplicates` | crates/magna-core/src/optimizer.rs:78-113 | Over any topological order, two steps get one canonical id if and only if their unfolded terms are equal; absorbed steps come after the step that absorbs them. |
| `Optimizing.RebuildEdges` | crates/magna-core/src/optimizer.rs:130-146 | The edges are exactly the redirected dependencies of the surviving steps. |
| `Optimizing.Deduplicate` | crates/magna-core/src/optimizer.rs:78-125 | Leaves exactly the canonical steps, with the graph of the shared program, in place. |
| `Sharing.SurvivorsTopological` | crates/magna-core/src/optimizer.rs:23-31 | Survivors' remapped dependencies survive, and the old order without the absorbed steps is topological for the new graph, which is therefore acyclic. |
| `Sharing.EqualTermsEqualMeaning` | crates/magna-core/src/step.rs:105-108 | Under fingerprint soundness, steps with equal unfolded terms have equal meanings. |
| `Sharing.SharingPreservesMeaning` | crates/magna-core/src/optimizer.rs:41-59 | Every step, absorbed or not, means in the shared program at its canonical id what it means in the unoptimized one; survivors run in one exactly when they run in the other. |
| `Optimizing.HoistedIsTopological` | crates/magna-core/src/optimizer.rs:154-199 | Hoisting permutes a topological order into a topological order. |
| `Optimizing.HoistUnary` | crates/magna-core/src/optimizer.rs:154-199 | The prefix is exactly the unary steps all of whose transitive dependencies are unary; prefix and rest keep their relative order. |
| `Optimizing.Optimize` | crates/magna-core/src/optimizer.rs:41-59 | Both sorts succeed; the result is the shared program of the registered one, in a hoisted topological order, with every wire the step's own dependency followed through the remap. |
| `Executing.CheckPropagatingFlags` | crates/magna-core/src/executor.rs:132-187 | Skips exactly when the batch has a slot and every slot is null or in error in some dependency, with those flags slot by slot. |
| `Executing.ComputeTiers` | crates/magna-core/src/executor.rs:216-254 | The tiers split the order stably; each step sits one above its highest dependency; the last tier is not empty. |
| `Executing.TierIsLongestChain` | crates/magna-core/src/executor.rs:216-254 | A step's tier is the length of its longest dependency chain. |
| `Executing.TiersAreLowest` | crates/magna-core/src/executor.rs:216-254 | No level assignment that respects the wires puts a step lower, so none has fewer tiers. |
| `Executing.NoTierIsEmpty` | crates/magna-core/src/executor.rs:216-254 | Every tier up to the highest holds a step. |
| `Executing.AwaitTasks` | crates/magna-core/src/executor.rs:91-120 | Whatever order tasks finish in, the stored outputs are the same; a panic is the only error. |
| `Executing.GatherInputs` | crates/magna-core/src/executor.rs:76-85 | Inputs correspond to dependencies by position, or a dependency without output is named. |
| `Executing.LaunchStep` | crates/magna-core/src/executor.rs:53-96 | A step is skipped exactly when it is blocked, and otherwise given exactly the outputs of its remapped dependencies. |
| `Executing.RunTier` | crates/magna-core/src/executor.rs:35-121 | On a ready tier, exactly the steps that are not blocked run, all outputs are right, and only a panic fails. |
| `Executing.Execute` | crates/magna-core/src/executor.rs:24-124 | Outputs exist for exactly the surviving steps and are their meanings; each unblocked step runs once and no other does; the missing-dependency error cannot occur. |
| `Failures.OneInputBlocks` | crates/magna-core/src/executor.rs:132-187 | One dependency that is null or in error in every slot keeps a step from running and passes the flag on in every slot. |
| `Failures.FailurePropagates` | crates/magna-core/src/executor.rs:59-66 | After a failure no transitive dependent runs, and each is in error in every slot. |
| `Failures.NullPropagates` | crates/magna-core/src/executor.rs:59-66 | A full-length all-null output makes every transitive dependent null in every slot, unrun. |
| `PlanContexts.RunPlan` | crates/magna-build/src/plan_resolver.rs:67-93 | Build, optimize and execute together succeed exactly on acyclic plans without a panic, and then every registered id reads as its meaning in the unoptimized program; errors are only the planner's and a panic. |
| `PlanContexts.PlanContext.RegisterStep` | crates/magna-build/src/plan_resolver.rs:46-61 | Accepted until the planner is taken, refused after. |
| `PlanContexts.PlanContext.Execute` | crates/magna-build/src/plan_resolver.rs:67-93 | Only the first call can succeed; it publishes results exactly when the plan is acyclic and panics nowhere; later calls change nothing. |
| `PlanContexts.PlanContext.GetResult` | crates/magna-build/src/plan_resolver.rs:102-109 | Nothing before success; afterwards the unoptimized meaning of every registered id, also of absorbed ones, and nothing for unknown ids. |
| `PlanContexts.Serve` | crates/magna-build/src/plan_resolver.rs:46-109 | Each call of any run is answered as told by the calls alone. |
| `PlanContexts.Drive` | crates/magna-build/src/plan_resolver.rs:46-109 | In every run of register, execute and read calls, whose ids are unique up to the first execution, all replies are those of the specification: results never change once published. |
| `ContextRaces.FinishTaken` | crates/magna-build/src/plan_resolver.rs:67-93 | Under fingerprint soundness, what the thread that took the planner does next is an enabled step: it finishes exactly when the plan is acyclic and panics nowhere, and fails otherwise. |
| `ContextRaces.StepKeeps` | crates/magna-build/src/plan_resolver.rs:46-109 | The protocol's invariant holds after every atomic step of every thread, and published cells stay. |
| `ContextRaces.OneExecution` | crates/magna-build/src/plan_resolver.rs:67-93 | In every interleaving at most one execution succeeds. |
| `ContextRaces.PublishedStays` | crates/magna-build/src/plan_resolver.rs:80-90 | Cells keep what they hold in all later states. |
| `ContextRaces.ReadsLinearize` | crates/magna-build/src/plan_resolver.rs:80-109 | A read, whose two cell accesses other threads can interleave, answers what is due at its beginning or at its end; this rests on storing the remap first. |
| `ContextRaces.LateReadsAnswer` | crates/magna-build/src/plan_resolver.rs:96-109 | A read that begins after publication answers the unoptimized meaning. |
| `Lexing.LexLength` | crates/magna-gqlmin/src/lex.rs:118-167 | A token takes at least one character and stays in bounds. |
| `Lexing.LexIsLocal` | crates/magna-gqlmin/src/lex.rs:205-462 | A token cut out of its source is the same token before any separator or the end. |
| `LexicalGrammar.NumberIff` | crates/magna-gqlmin/src/lex.rs:239-345 | A number token is exactly the text of an integer (optional `-`, no leading zero) or of a float (an integer with a fraction, an exponent or both) that no digit, letter or dot follows. |
| `LexicalGrammar.NameIff` | crates/magna-gqlmin/src/lex.rs:222-237 | A name token is exactly a whole run of name characters that begins with no digit. |
| `LexicalGrammar.StringIff` | crates/magna-gqlmin/src/lex.rs:347-462 | A string token is exactly a quoted text of characters, the eight simple escapes and `\u` with four hexadecimal digits, on one line. |
| `LexicalGrammar.BlockIff` | crates/magna-gqlmin/src/lex.rs:347-462 | A block string token ends with the first three quotes that are not escaped. |
| `LexicalGrammar.LexIff` | crates/magna-gqlmin/src/lex.rs:118-462 | The lexer finds a token of a kind and length exactly when that much of the text is a token of that kind in a grammar written without the lexer, and what follows may follow it. |
| `LexicalGrammar.LexErrors` | crates/magna-gqlmin/src/lex.rs:118-462 | Where no token begins, the kind of the error and its extent follow from the characters. |
| `Lexers.Lexer.SkipInsignificant` | crates/magna-gqlmin/src/lex.rs:178-203 | Moves over exactly the blanks and comments at the cursor. |
| `Lexers.Lexer.LexName` | crates/magna-gqlmin/src/lex.rs:222-237 | The longest run of name characters. |
| `Lexers.Lexer.LexNumberToken` | crates/magna-gqlmin/src/lex.rs:239-345 | The number, or the error and its span, that the number grammar gives. |
| `Lexers.Lexer.LexStringToken` | crates/magna-gqlmin/src/lex.rs:347-462 | The string or block string, or the error and its span, that the string grammar gives. |
| `Lexers.Lexer.NextToken` | crates/magna-gqlmin/src/lex.rs:118-167 | The next token after a byte order mark and insignificant text; the cursor moves to its end, and the end comes again and again. |
| `SourceText.Tokenize` | crates/magna-gqlmin/src/lex.rs:88-167 | Calling the lexer until the end or an error gives the token stream of the source. |
| `SourceText.TokensTile` | crates/magna-gqlmin/src/lex.rs:118-203 | Tokens of every source are nonempty, in bounds, in order and disjoint, carry their own text, and only blanks and comments lie between them, up to the end or the error. |
| `SourceText.GapIsSkipped` | crates/magna-gqlmin/src/lex.rs:178-203 | A gap of blanks and comments that nothing continues is skipped, all of it and nothing more. |
| `SourceText.LexesIffTiled` | crates/magna-gqlmin/src/lex.rs:88-203 | A source lexes without error to given tokens if and only if these tile it: token texts of the grammar with gaps between them, no token inside a comment. There is no other tiling. |
| `SourceText.LexAgain` | crates/magna-gqlmin/src/lex.rs:222-462 | Tokens of any source written with spaces between them lex to the same kinds and lexemes. |
| `ArenaParser.Parser.PeekToken` | crates/magna-gqlmin/src/parse/mod.rs:571-578 | Looks at the next token without consuming it. |
| `ArenaParser.Parser.BumpToken` | crates/magna-gqlmin/src/parse/mod.rs:580-585 | Consumes the token that was looked at, or the next one. |
| `ArenaParser.Parser.CloseList` | crates/magna-gqlmin/src/parse/mod.rs:612-627 | Drains the list's elements into one piece of the arena and leaves the scratch stack below as it was. |
| `ArenaParser.Parser.ParseType` | crates/magna-gqlmin/src/parse/mod.rs:792-815 | The type, or the error, of the tree grammar. |
| `ArenaParser.Parser.ParseValue` | crates/magna-gqlmin/src/parse/mod.rs:946-1029 | Same value or same error as the tree grammar; the arena grows by exactly the layout of the value; scratch is balanced. |
| `ArenaParser.Parser.ParseOptArguments` | crates/magna-gqlmin/src/parse/mod.rs:832-850 | The same for an optional argument list. |
| `ArenaParser.Parser.ParseDirectives` | crates/magna-gqlmin/src/parse/mod.rs:817-830 | The same for directives. |
| `ArenaParser.Parser.ParseSelectionSet` | crates/magna-gqlmin/src/parse/mod.rs:852-877 | The same for a selection set, which must not be empty. |
| `ArenaParser.Parser.ParseSelection` | crates/magna-gqlmin/src/parse/mod.rs:879-944 | The same for a field, a spread or an inline fragment. |
| `ArenaParser.Parser.ParseVariables` | crates/magna-gqlmin/src/parse/mod.rs:757-790 | The same for variable definitions. |
| `ArenaParser.Parser.ParseOperation` | crates/magna-gqlmin/src/parse/mod.rs:687-720 | The same for an operation. |
| `ArenaParser.Parser.ParseFragment` | crates/magna-gqlmin/src/parse/mod.rs:722-743 | The same for a fragment definition. |
| `ArenaParser.Parser.ParseDefinition` | crates/magna-gqlmin/src/parse/mod.rs:654-670 | The same for any definition. |
| `ArenaParser.Parser.ParseDocument` | crates/magna-gqlmin/src/parse/mod.rs:631-652 | Succeeds exactly when the tree grammar does, with the tree's layout; fails with the same error kind and span; scratch ends empty. |
| `Reading.DocumentReads` | crates/magna-gqlmin/src/parse/mod.rs:407-527 | A laid-out document reads back as its tree through the accessors: every range is in bounds, every node has the projected kind, everything inside a list lies below the list. |
| `Decoding.DocumentReadsOnce` | crates/magna-gqlmin/src/parse/mod.rs:407-527 | Two trees that one document reads as are equal, up to `()` and no parentheses. |
| `Partition.RangesPartition` | crates/magna-gqlmin/src/parse/mod.rs:611-627 | Every arena index is in exactly one range, of the definitions or of one node, and no range reaches past the arena. |
| `Soundness.DocumentSound` | crates/magna-gqlmin/src/parse/mod.rs:631-1029 | Accepted tokens are the printed form of the resulting tree, and the tree is well formed. |
| `Roundtrip.DocumentReturns` | crates/magna-gqlmin/src/parse/mod.rs:631-1029 | Every well-formed tree, printed at any positions, parses back to itself up to positions. |
| `Roundtrip.AcceptedLanguage` | crates/magna-gqlmin/src/parse/mod.rs:631-1029 | A stream without lexical error is accepted if and only if it is the printed form of a well-formed document. |
| `Positions.DocumentPlaced` | crates/magna-gqlmin/src/parse/mod.rs:631-1029 | In every accepted document each name and string has the span of its own token, each selection set runs from its `{` to its `}`, and each definition from its first token to its last. |
| `Notation.FieldNotation` | crates/magna-gqlmin/src/parse/mod.rs:879-944 | A field reads alias, colon, name, arguments and directives in this order, whatever the names. |
| `Notation.ObjectNotation` | crates/magna-gqlmin/src/parse/mod.rs:946-1029 | An object of a list of two numbers, token by token. |
| `Notation.TypeNotation` | crates/magna-gqlmin/src/parse/mod.rs:792-815 | `[T]!` and `[T!]` are different types. |
| `Notation.SpreadNotation` | crates/magna-gqlmin/src/parse/mod.rs:879-944 | `...F` is a spread, and `... on C { n }` an inline fragment. |
| `Notation.SampleParses` | crates/magna-gqlmin/src/parse/mod.rs:631-1029 | A mutation with a name, a variable with a default, a spread and a fragment, written token by token, parses to exactly these definitions up to positions. |
| `ParseErrors.NothingDefined` | crates/magna-gqlmin/src/parse/mod.rs:631-652 | A source without definitions gets UnexpectedEof, from its start to its end. |
| `ParseErrors.NoDefinition` | crates/magna-gqlmin/src/parse/mod.rs:654-670 | Whatever begins no definition gets UnknownDefinition at its own span. |
| `ParseErrors.NothingSelected` | crates/magna-gqlmin/src/parse/mod.rs:852-877 | `{}` gets EmptySelectionSet from brace to brace. |
| `ParseErrors.NoSelection` | crates/magna-gqlmin/src/parse/mod.rs:852-889 | After `{`: UnclosedDelimiter at the end of the input, and ExpectedName at any other token that begins no selection. |
| `ParseErrors.NoSelectionSet` | crates/magna-gqlmin/src/parse/mod.rs:687-720 | After `query`: UnexpectedToken at whatever begins neither name, variables, directives nor selections. |
| `ParseErrors.NoVariable` | crates/magna-gqlmin/src/parse/mod.rs:757-790 | In a variable list: UnclosedDelimiter at the end of the input, and ExpectedDollar at any other token that begins no variable. |
| `ParseErrors.NoColon` | crates/magna-gqlmin/src/parse/mod.rs:757-790 | After the name of a variable: ExpectedColon. |
| `ParseErrors.NoType` | crates/magna-gqlmin/src/parse/mod.rs:792-815 | After the colon: ExpectedType at whatever begins no type. |
| `ParseErrors.TypeUnclosed` | crates/magna-gqlmin/src/parse/mod.rs:792-815 | A list type that goes on without `]` gets UnclosedDelimiter at the token in its place. |
| `ParseErrors.NoDefault` | crates/magna-gqlmin/src/parse/mod.rs:946-1029 | A default value that is none, or that is a variable, gets ExpectedValue. |
| `ParseErrors.NoOn` | crates/magna-gqlmin/src/parse/mod.rs:722-743 | A fragment without `on` gets ExpectedOnKeyword at the token in its place. |
| `ParseErrors.NoArgument` | crates/magna-gqlmin/src/parse/mod.rs:832-850 | In arguments: UnclosedDelimiter at the end of the input, ExpectedName at any other token that begins no argument. |
| `ParseErrors.NoArgumentValue` | crates/magna-gqlmin/src/parse/mod.rs:946-1029 | An argument without a value gets ExpectedValue at the token in its place. |
| `Standard.GapToStandard` | crates/magna-gqlmin/src/parse/mod.rs:631-1029 | The accepted documents are those of the standard, and beyond them exactly those with an empty argument list, an empty variable list, a variable in a variable definition's directives, or a fragment called `on`. |
| `Standard.EmptyArgumentsAccepted` | crates/magna-gqlmin/src/parse/mod.rs:832-850 | `{ a() }` is accepted and not standard. |
| `Standard.EmptyVariablesAccepted` | crates/magna-gqlmin/src/parse/mod.rs:757-790 | `query Q() { a }` is accepted and not standard. |
| `Standard.VariableInDirectiveAccepted` | crates/magna-gqlmin/src/parse/mod.rs:757-790 | A variable in the directives of a variable definition is accepted and not standard. |
| `Standard.FragmentOnAccepted` | crates/magna-gqlmin/src/parse/mod.rs:722-743 | `fragment on on T { a }` is accepted and not standard. |
| `Documents.ParseExecutableDocument` | crates/magna-gqlmin/src/parse/mod.rs:535-537 | The arena parser on any token stream: agreement with the grammar, reading through ranges as one tree only, every token at the position that the tree gives it, the partition and the accepted language together. |
| `Documents.ArenaRoundTrip` | crates/magna-gqlmin/src/parse/mod.rs:535-537 | A printed well-formed document comes back out of the arena. |
| `SourceText.ParseSource` | crates/magna-gqlmin/src/parse/mod.rs:535-537 | The same on source text, with the lexer in front; at the span of every name and string of the tree the source holds its text. |
| `SourceText.SourcePlaced` | crates/magna-gqlmin/src/parse/mod.rs:535-537 | In the source of an accepted document the text at the span of each name and string is that name or string, each selection set begins with `{` and ends with `}`, and each definition begins with its keyword. |
| `SourceText.SourceRoundTrip` | crates/magna-gqlmin/src/parse/mod.rs:535-537 | A well-formed document with valid names and literals, written as text, is parsed back up to positions. |
| `SourceText.RewritingKeepsTheTree` | crates/magna-gqlmin/src/parse/mod.rs:535-537 | Any source that parses can be rewritten from its tree alone, and the new source has the same tree up to positions. |
| `Validation.CollectInValue` | crates/magna-gqlmin/src/validate.rs:273-294 | Adds exactly the variables of the value, keeping the first position of each. |
| `Validation.CollectInDirectives` | crates/magna-gqlmin/src/validate.rs:261-271 | Adds exactly the variables of the directives. |
| `Validation.CollectInSelections` | crates/magna-gqlmin/src/validate.rs:208-259 | Terminates on every fragment graph; adds exactly the variables of the selections and of the fragments first visited; visits only reachable fragments and all that they spread. |
| `Validation.WalkVisitsReachable` | crates/magna-gqlmin/src/validate.rs:208-259 | A walk from nothing visits exactly the names reachable through spreads. |
| `Validation.CheckVariables` | crates/magna-gqlmin/src/validate.rs:155-206 | One finding for each name that is used and not declared, or declared and not used, and for no other; use counts everything reachable. |
| `TokenUses.ValueTells` | crates/magna-gqlmin/src/validate.rs:273-294 | The variables used in a value are exactly the words right after a `$` in its tokens. |
| `TokenUses.DirectivesTell` | crates/magna-gqlmin/src/validate.rs:261-271 | The same for directives. |
| `TokenUses.SelectionsTell` | crates/magna-gqlmin/src/validate.rs:208-259 | In well-formed selections the variables used are exactly the words after `$`, and the spread names are, in order, the words after `...` other than `on`. |
| `TokenUses.DefinitionTells` | crates/magna-gqlmin/src/validate.rs:155-206 | The same for whole definitions, where a `$` before a word and a colon at the start of a variable definition declares. |
| `OperationRules.CheckUniqueOperationNames` | crates/magna-gqlmin/src/validate.rs:123-151 | Findings at exactly the anonymous operations among several and the reused names. |
| `OperationRules.FaultlessNames` | crates/magna-gqlmin/src/validate.rs:123-151 | No name is reused exactly when section 5.2.1.1 is obeyed, no operation among several is anonymous exactly when section 5.2.2.1 is, and there is no finding exactly when both are. |
| `OperationRules.ReportedForAnotherSection` | crates/magna-gqlmin/src/validate.rs:123-151 | For `{ a } query Q { b }` the rule is reported although names are unique: only section 5.2.2.1 is broken. |
| `OperationRules.WalkFragmentSpreads` | crates/magna-gqlmin/src/validate.rs:298-341 | Counts every spread of a defined fragment and reports every spread of an undefined one, in order. |
| `OperationRules.ReportedIffBroken` | crates/magna-gqlmin/src/validate.rs:60-119 | For a complete list of findings, a rule is mentioned if and only if it is broken. |
| `RulesOnTokens.ReachOnTokens` | crates/magna-gqlmin/src/validate.rs:208-259 | A fragment is reachable from a definition exactly along the words after `...` in the tokens of the definitions. |
| `RulesOnTokens.UsesOnTokens` | crates/magna-gqlmin/src/validate.rs:155-259 | An operation uses a variable exactly when the variable stands after a `$`, declarations apart, in its tokens or in those of a reachable fragment. |
| `RulesOnTokens.DeclarationsOnTokens` | crates/magna-gqlmin/src/validate.rs:155-206 | It declares a variable exactly when its tokens do. |
| `RulesOnTokens.LastFragmentCounts` | crates/magna-gqlmin/src/validate.rs:60-119 | Of several fragments with one name the last counts. |
| `RulesOnTokens.RulesAreAboutTokens` | crates/magna-gqlmin/src/validate.rs:60-119 | Each rule is obeyed exactly when its counterpart on the tokens of the definitions is. |
| `OperationRules.ValidateOperations` | crates/magna-gqlmin/src/validate.rs:60-119 | Every finding points at a fault and every fault is reported: each of sections 5.8.3, 5.8.4, 5.5.1.4 and 5.5.2.1, and 5.2.1.1 together with 5.2.2.1, is mentioned under its rule if and only if the document breaks it. |
| `Decimal.ShowReads` | crates/magna-build/src/executor/sql_bridge.rs:26-28 | Every 64-bit integer key survives the trip through its decimal text. |
| `Paging.KeyOrder` | crates/magna-build/src/executor/mod.rs:166-168 | Ordering by a unique key yields the table's rows, ascending. |
| `Paging.WindowIs` | crates/magna-build/src/executor/mod.rs:111-164 | The window holds exactly the rows that meet every condition and come after the `after` cursor or, with `last` alone, before the `before` cursor, ascending; a cursor that cannot be decoded does not count. |
| `Paging.SelectConnection` | crates/magna-build/src/executor/mod.rs:105-245 | A page is the `first` or else the `last` rows of the window past the cursor, or its first 20 without either, ascending, with its end keys as cursors; the flag of the paging direction says whether the window has more; a limit below -1, or whose successor overflows, is a database error. |
| `PagingRuns.PageForward` | crates/magna-build/src/executor/mod.rs:111-245 | Following `end_cursor` with any page sizes of at least 1 visits every matching row once, in key order, and stops when there is no next page. |
| `PagingRuns.PageBackward` | crates/magna-build/src/executor/mod.rs:111-245 | The mirror image for `last` and `start_cursor`. |
| `PagingRuns.PageChangingTable` | crates/magna-build/src/executor/mod.rs:111-245 | While rows come and go between pages, nothing is visited twice or out of order, and no row that stays is missed. |
| `PagingRuns.CodecsAreFaithful` | crates/magna-build/src/executor/mod.rs:443-455 | Cursors of integer and text keys give the key back. |
| `PagingQuery.PagingText` | crates/magna-build/src/executor/mod.rs:122-183 | The text and the parameters of the statement behind a page, for every schema, table and key: forward past a cursor `SELECT * FROM "s"."t" WHERE ("k" > $1) ORDER BY "k" ASC LIMIT $2`, backward `<` and `DESC`, without a cursor no WHERE. |
| `PagingQuery.QueryIsReadable` | crates/magna-build/src/executor/mod.rs:122-183 | The statement reads back whatever the names, and whatever the other conditions as long as they are balanced. |
| `PagingQuery.QueryFetches` | crates/magna-build/src/executor/mod.rs:122-186 | What a database that reads the text answers is the rows from which the page is made: the next `limit + 1` of the window in paging direction; a negative limit is refused. |
| `Sql.Append` | crates/magna-sql/src/fragment.rs:119-125 | Shifting indices makes the result mean both fragments in sequence. |
| `Sql.Join` | crates/magna-sql/src/fragment.rs:107-116 | The same with a separator, unless one side is empty. |
| `Sql.RenderedConcat` | crates/magna-sql/src/fragment.rs:174-201 | Rendering is a homomorphism: the second part goes on numbering after the first one's values. |
| `Sql.Build` | crates/magna-sql/src/fragment.rs:139-145 | The text is the rendering from `$1`, and the parameters are the fragment's own, in order. |
| `Sql.PlaceholderAt` | crates/magna-sql/src/fragment.rs:174-201 | The n-th bound value stands in the text as `$n` and is the n-th parameter. |
| `Sql.QuotedReadsBack` | crates/magna-sql/src/fragment.rs:184-189 | A quoted identifier of any name reads back whole and ends exactly at its closing quote. |
| `SelectBuilder.BuildSelect` | crates/magna-sql/src/builder.rs:235-320 | The fragment means the clauses of the statement, in order, with separators and parentheses. |
| `SelectBuilder.SelectValues` | crates/magna-sql/src/builder.rs:235-320 | The bound values are those given to the builder: columns, joins, WHERE, ORDER BY, LIMIT, OFFSET, in this order. |
| `Statements.SelectReadsBack` | crates/magna-sql/src/builder.rs:235-320 | A reader with its own keywords, which cuts the text into words outside quotes and parentheses, gets back from a built statement what was given: columns and aliases, tables, kinds of joins, conditions, directions, and the values bound as limit and offset. Fragments must be closed and hold no word that ends their own clause. |
| `Statements.IdentKeeps` | crates/magna-sql/src/fragment.rs:184-189 | Identifiers, whatever their names, keep to every clause. |
| `Statements.BuildStatement` | crates/magna-sql/src/builder.rs:235-320 | Text and parameters of a built SELECT: each value is bound where it is used, and the text says what was given. |
| `SqlWords.QuotedIsWord` | crates/magna-sql/src/fragment.rs:184-189 | A quoted identifier is one word of the statement, whatever it contains. |
| `SqlWords.WrappedIsWord` | crates/magna-sql/src/builder.rs:277-290 | A balanced condition in parentheses is one word, so no condition reaches into another. |
| `Batching.ExecuteBatch` | crates/magna-core/src/batch.rs:154-217 | At most one load, on duplicate-free keys, and none without keys; parent i gets the loaded rows of its key in load order, also when parents share a key, and nothing if it has no key. |
| `Batching.DeduplicatedIs` | crates/magna-core/src/batch.rs:169-176 | The loaded keys are exactly the requested ones, without duplicates. |
| `Batching.KeysAre` | crates/magna-core/src/batch.rs:163-176 | The requested keys are exactly those of the parents that have one. |
| `Batching.RowsForAre` | crates/magna-core/src/batch.rs:186-215 | The rows of a key are all rows grouped under it, each once and in load order. |
| `Batching.BatchIsPerParent` | crates/magna-core/src/batch.rs:154-217 | Over a loader that answers from a table, a parent gets what a load for its key alone would give. |
| `PgSelect.ExecuteSelect` | crates/magna-dataplan/src/steps/pg_select.rs:240-327 | One slot per parent with the fetched rows that match its id, and the parents' flags; the whole step fails exactly when the query does. |
| `PgSelect.SelectOwnIs` | crates/magna-dataplan/src/steps/pg_select.rs:307-321 | A parent's own children are all rows whose foreign key is its id, each once and in table order, cut down to the selected columns. |
| `PgSelect.OutputIs` | crates/magna-dataplan/src/codec.rs:326-392 | The query succeeds exactly when there are no ids or the kind decided by the first id is the column's, and then brings back the rows of the ids that were kept. |
| `PgSelect.SelectIsPerParent` | crates/magna-dataplan/src/steps/pg_select.rs:240-347 | On all tables with a foreign key of the given kind a parent gets its own children, if and only if the ids bind as that kind and the foreign key is selected (the latter only if the parent's id is of that kind). |
| `PgSelect.UniformIdsBind` | crates/magna-dataplan/src/codec.rs:339-390 | Ids of the column's own kind bind exactly for integers, texts, uuids and booleans. |
| `PgSelect.UnselectedKeyLosesRows` | crates/magna-dataplan/src/steps/pg_select.rs:307-321 | An input on which a parent loses its row: the foreign key is not selected. |
| `PgSelect.FloatKeyFailsTheStep` | crates/magna-dataplan/src/codec.rs:378-388 | An input on which the whole step fails: float ids are bound as text. |
| `PgSelect.KeyColumnMatters` | crates/magna-dataplan/src/steps/pg_select.rs:187-198 | Two steps that differ only in the parent's key column agree on all inputs if and only if the columns are the same, and whenever both succeed if and only if they are the same or the foreign key is not selected. |
| `PgSelect.OneKeyFails` | crates/magna-dataplan/src/steps/pg_select.rs:187-198 | An input on which one of two such steps fails and the other does not. |
| `Bump.MaskIsRoundUp` | crates/magna-gqlmin/src/wasm.rs:55-58 | The mask form is arithmetic round-up for every power of two. |
| `Bump.RoundUpIsLeast` | crates/magna-gqlmin/src/wasm.rs:55-58 | Round-up is the least aligned offset not below the old one. |
| `Bump.BumpAllocator.Alloc` | crates/magna-gqlmin/src/wasm.rs:50-76 | Null exactly when the aligned block does not fit; otherwise a new block at the least aligned offset, disjoint from all earlier ones. |
| `Bump.AllocateAll` | crates/magna-gqlmin/src/wasm.rs:50-76 | In every run the blocks are aligned, inside the arena and disjoint, in order. |

## Left out

- Postgres, sqlx, tokio, axum, JWT and row-level security, websockets, LISTEN/NOTIFY: input and output, or code of other libraries.
- async-graphql schema registration and resolver closures: wrappers over a library.
- Text of error messages, log output and debug formatting.
- Base64 and JSON inside cursors: a cursor is text that gives its key back; per-edge placeholder cursors are not followed.
- Paging.SelectConnection: a custom `order_by`, composite keys and `total_count` are not modelled; the keyset condition looks at the first key column only, so the paging results are about the default order over one key column.
- PagingRuns.CodecsAreFaithful: uuid keys are covered by the hypothesis that their text gives them back, not by a proof about uuid syntax.
- Nested SQL fragments: no constructor builds one.
- Statements.SelectReadsBack: raw text that leaves quotes or parentheses open, or that holds a keyword of its own clause, is not read back; what such text means is up to its author, as for `SqlFragment::raw`.
- PagingQuery.QueryFetches: what the database makes of conditions other than the one on the key is a parameter.
- INSERT, UPDATE and DELETE builders and filter conditions: they repeat what is proved for SELECT.
- PgSelect.ExecuteSelect: root mode and runtime tweaks are not modelled, and rows come back in table order, which the database does not promise without ORDER BY; the debug text of a value is a parameter.
- Hash collisions: the configuration hash stands for the configuration.
- Executing.Execute: an output of a step has as many flags as values; cancellation of a running execution is not modelled.
- Planning.ExecutionPlan.DependenciesOf: the order in which petgraph lists neighbours is not modelled; no result depends on it.
- Lexers.Lexer.NextToken: spans are unbounded naturals, not 32-bit words, and what a second call after a lexical error does is not stated, because the parser makes none.
- UTF-8 validity of slices: a character of the model is one byte.
- Validation.CheckVariables: the sorted order of undefined-variable findings is not modelled; their set and number are.
- OperationRules.ValidateOperations: walks the tree that the document reads as (`Reading.DocumentReads`), not the ranges themselves; messages are left out.
- The SDL parser and the schema-aware rules: structural repeats of the operations parser.
- The plan cache, the introspection cache, naming, smart tags, type maps and presets: easy or one-branch facts.
- Bump.BumpAllocator.Alloc: alignment is that of offsets in the arena, not of absolute addresses.
