# nornrune: verified models

nornrune compiles compliance policies into a flat instruction program and evaluates it over
batches of request facts. This project models its core in Dafny and proves what each stage
promises, from source text to evaluated truth.

Truth is four-valued: a positive and a negative plane per row, with reasons for uncertainty.
A comparison with a missing fact is undecided, conjunction and disjunction act plane by plane,
and negation swaps the planes.

The main results:

* **Compiler correctness.** For every accepted document and every fact row, the instruction of
  every source node has the four-valued truth of the node's recursive meaning, through constant
  interning, flattening, hash-consing, dead-code removal, scheduling and slot reuse
  (`Compiler.CompilationPreservesMeaning`, `Compiler.Evaluate`). The slot plan is optimal
  (`Slots.AllocateSlots`, `Slots.WidthIsNecessary`).
* **Evaluation of a batch.** Executing a compiled policy over the columns of a batch, whichever of
  the index, vector and scalar paths evaluates a leaf, gives in every row the meaning of the source
  root under the facts of that row, and a requirement that the applicability index skips means false
  there (`BatchEvaluation.EvaluateBatch`, `BatchEvaluation.SkippedIsFalse`).
* **Exact validators.** Graph validation and the symbol-table validator accept exactly what they
  should, in both directions.
* **Refinement.** The vector and fact-index evaluators produce bit for bit the planes of the
  scalar one, over every row count and aligned shard.
* **Diff.** A completed comparison decides the whole closed domain, with least counterexamples, and
  its outcome, its counts and whether it is forbidden are those of the risk matrix
  (`Verdicts.CompletedVerdict`).
* **From source to decisions.** A SQL expression or a list of CREATE POLICY statements that the
  frontend takes becomes, unless it is too large, a policy document that the compiler's validator
  accepts and the executor admits, and evaluating it over a batch decides every row as the source
  does: positive exactly where the expression is true, or where the statements let the request
  through, and for an expression negative exactly where it is false (`PolicyEvaluation.CompileSql`,
  `PolicyEvaluation.EvaluateSql`, `PolicyEvaluation.CompileRlsPolicy`, `PolicyEvaluation.EvaluateRls`).
* **Protocols.** Safety of the span processor over all interleavings, and where every span of a run
  goes (`SpanFates.EverySpanIsAccountedFor`). In every run of the debugger
  each command is answered once, and nothing that is taken during a run changes where the run would
  stop; when clients wait for their replies, the replies and the session are a function of the
  commands (`DebugActor.EveryCommandAnsweredOnce`, `DebugActor.PendingStopIsFixed`,
  `DebugActor.RepliesFollowCommands`).
* **Frontends.** SQL expressions keep their three-valued truth; row-level security admits exactly
  the requests that some permissive policy of the phase grants and no restrictive one forbids, with
  the code's defaults for missing clauses and role names compared for equality. Which sources compile
  is said of their text, for expressions and for CREATE POLICY statements: how every keyword, sign,
  name, number and parameter is written, what may stand between them, and where each ends
  (`SqlSpellings.LexesExactly`, `SqlTexts.WordsExactly`, `RlsTexts.SlotsExactly`).
* **Templates.** A text is accepted exactly when it is the print of allowed tokens; the stored
  columns determine the operations; and rendering a stored template puts into its text the values
  that the names of its placeholders promise.

Four properties that one might expect are not true of the code. Each has a concrete run and an
exact condition:

* A document the validator accepts need not execute: the executor refuses groups with fewer than
  two operands. It is admitted exactly when no group that keeps an instruction of its own, as a root
  or under a parent that does not absorb it, flattens to fewer than two
  (`ExecutorGate.CompileAndAdmit`, `ExecutorGate.LonelyIsRefused`).
* `quiesced` need not close: a rejected producer's transient increment can hide the last
  decrement. The last producer closes it exactly when no such increment is in flight, and a missed
  close is final (`SpanProcessor.LastLeaveDecides`, `MissedIsForever`, `QuiescedNeedNotClose`).
* The diff result is not independent of the batch size: an unsupported decision, or a batch whose
  evidence records exceed 2^18, ends the search at the start of its batch. All accepted sizes, 1 to
  4096, give the same result exactly when the first candidate alone is over the budget, or every
  decision is supported and no batch of any accepted size is over it, or already the first decision
  is not supported and the first 4096 candidates fit (`Verdicts.EveryBatchSizeAgrees`,
  `Verdicts.BatchIndependence`, `Verdicts.BudgetShows`, `Verdicts.LargeTotalAgrees`,
  `Verdicts.BatchSizeShows`).
* The replies of a debug session are not a function of the commands alone: a pause can be taken
  before or after an instruction of the run it interrupts. While no context ends, the commands decide
  the replies and the session exactly when nothing is asked after a Continue that has something to
  run (`DebugActor.PauseRaces`, `DebugRaces.CommandsDecideExactly`).

## Layout

One file per component, each a module. `Truth`, `Document` and `Program` hold the shared values;
`Compiler` composes the compiler stages, `BatchEvaluation` the evaluators, `SqlFrontend` and
`RlsFrontend` the SQL stages, and `PolicyEvaluation` all of them. Code that updates columns, stacks
or tables step by step is modelled by methods with loops, and by classes where an object carries the
state; the methods are proved against specification functions, and the properties are lemmas about
those.

`dafny verify dfyconfig.toml` checks everything.

## Model

| member | source | states |
|---|---|---|
| `GraphValidator.Validator.WalkGraph` | internal/compile/validate.go:1446-1497 | One depth-first walk from a root finishes that root with an empty stack, only adds visited nodes, sets the reachable bit exactly as asked, and only adds reports of edges from whose target a path leads back to their source. |
| `GraphValidator.Validator.FollowEdge` | internal/compile/validate.go:1466-1491 | Following one edge reports exactly that edge when its target is grey and nothing otherwise, and keeps the walk invariant: grey nodes are the stack, every passed edge leads to a visited node, and a cycle has been reported exactly when one was closed. |
| `GraphValidator.Validator.FinishTop` | internal/compile/validate.go:1492-1494 | Popping a node whose edges are exhausted blackens it and keeps the walk invariant, with finish times ranking the finished nodes while no cycle was seen. |
| `GraphValidator.GrayTargetIsCycle` | internal/compile/validate.go:1477-1480 | An edge to a grey node always closes a real cycle through the stack. |
| `GraphValidator.BitsExact` | internal/compile/validate.go:1394-1417 | After the root walks a node carries the reachable bit if and only if a path from a semantic root reaches it. |
| `GraphValidator.CyclesExact` | internal/compile/validate.go:1386-1432 | Once every readable node is finished, a cycle was reported if and only if the child graph has one; otherwise the graph has a ranking. |
| `GraphValidator.UnreachedExact` | internal/compile/validate.go:1425-1430 | The final scan reports exactly the readable nodes without the reachable bit. |
| `GraphValidator.Validator.ValidateGraph` | internal/compile/validate.go:1386-1432 | For every document: the walk ends with an empty stack, a cycle is reported iff one exists, every cycle report is an edge that closes a cycle, an unreachable report for u is present iff u is readable and not reachable from the semantic roots, cycle reports come first and unreachable reports follow in NodeID order. |
| `Lowerers.GraphPhaseAccepts` | internal/compile/validate.go:1386-1432 | On structurally clean documents the graph phase is silent if and only if the document is acyclic and fully reachable. |
| `OpenAddress.Lookup` | internal/compile/normalize.go:86-124 | For any hash function, linear probing of a seated table with a free slot finds a key iff it is stored, returns its identifier, and otherwise stops at an empty slot where inserting keeps every key findable. |
| `OpenAddress.FindVacant` | internal/compile/normalize.go:355-366 | Probing from a home reaches an empty slot iff the table has one, wraparound included. |
| `OpenAddress.AddKeeps` | internal/compile/normalize.go:111-123 | Entering a new key at the vacant slot keeps every key reachable from its home without crossing an empty slot. |
| `OpenAddress.SlotSize` | internal/compile/normalize.go:28-37 | The table size is the least power of two that is at least 4 and at least twice the number of keys. |
| `SymbolTables.Freeze` | internal/compile/normalize.go:338-372 | Freezing succeeds iff there are fewer symbols than 32 bits count, and every symbol is then reachable by probing from its hash home. |
| `SymbolTables.ClusterDecidesSeat` | internal/eval/builder.go:125-160 | Scanning from an empty slot, a key is seated iff its home lies between the start of the current cluster and its slot: the cluster cursor decides reachability. |
| `SymbolTables.ScanSlots` | internal/eval/builder.go:115-162 | One cyclic scan accepts iff every stored hash is right, no symbol repeats, and every symbol is reachable from its home. |
| `SymbolTables.Validate` | internal/eval/builder.go:79-163 | For every table: the validator accepts iff the table is a well-formed frozen table (or both sides are empty); so a frozen table is always accepted and an accepted table is always searchable. |
| `SymbolTables.LookupSymbol` | internal/program/program.go:328-351 | On a frozen table, a lookup succeeds iff the bytes are a symbol, and returns that symbol. |
| `Constants.ConstantStage.InternSymbol` | internal/compile/normalize.go:86-124 | Interning succeeds iff the bytes are known or the 32-bit limits leave room; equal bytes share an identifier and new bytes get the next one. |
| `Constants.ConstantStage.InternValue` | internal/compile/normalize.go:132-167 | The same for values: kind and payload decide identity, for any hash. |
| `Constants.KeysSpellDistinctly` | internal/compile/normalize.go:178-193 | Two interned value keys are equal iff the literals they spell are equal. |
| `Constants.CanonicalizeValues` | internal/compile/normalize.go:236-290 | Every source literal is remapped to a canonical value (and symbol) that spells it; sizes within 32 bits always suffice. |
| `Constants.SharedExactly` | internal/compile/normalize.go:236-290 | Two source values share a canonical ValueID if and only if kind and payload are equal. |
| `Constants.LowerConstants` | internal/compile/lower.go:229-273 | The whole constant stage yields a canonical table for the field names and literals, and succeeds whenever they fit. |
| `Meanings.FlatteningPreservesMeaning` | internal/compile/normalize_instructions.go:182-223 | Merging nested groups of the same kind, to any depth and over shared nodes, leaves the four-valued truth and the reasons of the group unchanged. |
| `Meanings.FlattenedBelow` | internal/compile/normalize_instructions.go:182-223 | Flattening only lists strictly lower nodes, none of which could be merged further, and never fewer than the children. |
| `Candidates.AtomRoundTrip` | internal/compile/normalize_instructions.go:225-290 | The payload of a leaf candidate, read back through the canonical constants, is the leaf of the source document. |
| `Candidates.LoweringPreservesMeaning` | internal/compile/normalize_instructions.go:120-329 | In any table of lowered nodes, the value of the instruction a node was lowered to equals the recursive meaning of the node, for every fact row. |
| `Emission.AppendGroupOperands` | internal/compile/normalize_instructions.go:182-223 | The operands appended for a group are the instructions of its flattened children in order; it fails iff the 16-bit count or the 32-bit slab would overflow. |
| `Emission.Prepare` | internal/compile/normalize_instructions.go:225-329 | A candidate payload and its operands are the key the node denotes; it fails iff the node does not fit. |
| `Emission.AppendCandidate` | internal/compile/normalize_instructions.go:120-158 | Hash-consing: an equal candidate is reused and its root roles are united, otherwise one row is appended; program order and the probe table are kept; it fails iff the row count is exhausted. |
| `Lowering.InternInstructionCandidate` | internal/compile/normalize_instructions.go:225-329 | Lowering a node whose children are lowered keeps the whole emission invariant; a size failure only happens on a document that cannot fit. |
| `Lowering.OverflowBreaksFit` | internal/compile/normalize_instructions.go:182-223 | A node that overflows a limit at its turn shows that the document as a whole exceeds it. |
| `Roots.MarkRootFlags` | internal/compile/lower.go:645-665 | Every node gets exactly the roles in which requirements and clauses name it; it fails iff some root is out of the table. |
| `Roots.SortIds` | internal/compile/lower.go:677-685 | The in-place insertion sort returns an ascending permutation. |
| `Roots.CollectRoots` | internal/compile/lower.go:672-695 | The traversal roots are the distinct semantic roots in ascending order. |
| `Lowerers.NoGrayTarget` | internal/compile/lower.go:608-624 | On a clean document the iterative traversal never meets a node that is still on its stack. |
| `Lowerers.Lowerer.LowerRoot` | internal/compile/lower.go:594-632 | One traversal lowers everything under its root in post-order, keeps what was lowered before, and fails only on documents that do not fit. |
| `Lowerers.LowerCandidates` | internal/compile/lower.go:566-637 | On every accepted document the stage succeeds iff the document fits, and every node is then lowered with its root roles. |
| `Compaction.MarkLive` | internal/compile/normalize_instructions.go:331-356 | One reverse pass marks exactly the rows from which a rooted row is reachable through readers, and never fails on an ordered program. |
| `Compaction.LiveRowsPlaceable` | internal/compile/normalize_instructions.go:358-430 | Operands of a live row are live and renumbered before it. |
| `Compaction.Compact` | internal/compile/normalize_instructions.go:358-430 | Compaction never fails on ordered input and keeps exactly the needed rows, in order, computing the same values. |
| `NodeMaps.EveryNodeAccounted` | internal/compile/normalize_instructions.go:453-506 | Every node of an accepted document is either needed itself or is a merged group all of whose flattened operands are needed. |
| `NodeMaps.EveryNodeMaps` | internal/compile/normalize_instructions.go:453-506 | Every source node maps to its one live instruction or, if it was flattened away, to operands that are all live; only groups are ever flattened away. |
| `NodeMaps.RootNeeded` | internal/compile/normalize_instructions.go:331-356 | Every semantic root stays a live instruction of its own. |
| `NodeMaps.BuildNodeInstructionMap` | internal/compile/normalize_instructions.go:453-506 | The two passes build exactly these lists; the only failure is the 32-bit total. |
| `Users.BuildScheduleUsers` | internal/compile/schedule.go:73-110 | Counting, prefix sums and filling give operand counts and, per row, its readers in ascending order, once per reading. |
| `Users.ListCount` | internal/compile/schedule.go:73-110 | A reader occurs in a row's user list as often as the row occurs among its operands. |
| `Schedule.SomeRowIsReady` | internal/compile/schedule.go:138-148 | While a row is unscheduled some row is ready, so the scheduler never gets stuck. |
| `Schedule.NotifyUsers` | internal/compile/schedule.go:158-169 | Releasing the users of a scheduled row keeps counters and ready sets exact, and only makes later rows ready. |
| `Schedule.DrainRun` | internal/compile/schedule.go:149-170 | The ready cursor never passes a ready row: draining an opcode takes all its ready rows, those that become ready meanwhile included, in strictly ascending source order. |
| `Schedule.BuildScheduleOrder` | internal/compile/schedule.go:120-176 | On every topologically numbered program the loop succeeds and schedules every row with operands before users; the runs tile the order, each of the lowest opcode that some ready row had when it began, in ascending source order, until no ready row has that opcode. |
| `Schedulers.CompleteOrderPermutes` | internal/compile/schedule.go:149-174 | The complete order and its inverse are a permutation of the rows. |
| `Relayouts.Relayout` | internal/compile/schedule.go:178-274 | Rewriting the columns in a new order with renamed operands places every row and never meets an unplaced operand. |
| `Relayouts.RelayoutSimulates` | internal/compile/schedule.go:178-274 | The rewritten program is topological and computes in every row what its source row computed. |
| `Schedulers.ScheduleInstructions` | internal/compile/schedule.go:276-296 | Scheduling never fails on a topological program and yields a permuted, renamed program that simulates it, tiled by runs. |
| `Slots.ComputeLastUses` | internal/compile/liveness.go:55-77 | The last-use table: n for roots, the last reader otherwise, the row itself when nothing reads it. |
| `Slots.MarkSlotFree` | internal/compile/liveness.go:87-105 | A slot is refused iff it is zero, past the words, or already free. |
| `Slots.BuildReleaseLists` | internal/compile/liveness.go:146-159 | The intrusive lists thread exactly the live rows onto their last use; refused iff a last use is out of range. |
| `Slots.ReleaseRow` | internal/compile/liveness.go:165-172 | The releases of a row never fail and leave owned exactly the slots of values still to be read. |
| `Slots.AssignRow` | internal/compile/liveness.go:176-189 | A row gets the lowest free slot or a new one, and its slot goes straight back when nothing reads it. |
| `Slots.AllocateSlots` | internal/compile/liveness.go:126-192 | The plan has no clash, gives slots exactly to live rows, and with reuse its peak equals the largest number of values that must coexist. |
| `Slots.WidthIsNecessary` | internal/compile/liveness.go:126-192 | Every clash-free plan for the same last uses needs at least that many slots: the allocation is optimal. |
| `Machine.ReduceGroup` | internal/eval/executor.go:233-277 | Reducing a group in place is right even when the destination slot is one or several of the operands, and writes nothing else. |
| `Machine.RowKeepsHolding` | internal/eval/executor.go:193-231 | Running a row on reused slots keeps the value of every row that is still to be read. |
| `Machine.Execute` | internal/eval/executor.go:187-231 | Running the reused-slot program leaves every root slot holding the value that unlimited slots would give. |
| `Compiler.AssignSlots` | internal/compile/liveness.go:194-245 | Truth and reason slots are both runnable plans with the optimal peak, because every scheduled row is needed by a root. |
| `Compiler.RewritingPreservesValue` | internal/compile/normalize_instructions.go:358-430 | Through compaction and scheduling every kept candidate keeps its value. |
| `Compiler.CompilationPreservesMeaning` | internal/compile/normalize_instructions.go:120-430 | For every accepted document, node and fact row: the instruction a node maps to, or the group of the instructions it was flattened into, has the four-valued truth of the recursive meaning of the node. |
| `Compiler.RootStaysKept` | internal/compile/lower_semantics.go:56-77 | Every semantic root maps to exactly one instruction, and that instruction carries the root's role. |
| `Compiler.MapTotalBound` | internal/compile/normalize_instructions.go:453-506 | The node map is never longer than the nodes and the flattened slab together, so it cannot overflow within those limits. |
| `Compiler.Compile` | internal/compile/lower.go:150-157 | Within size limits every accepted document compiles, and whatever compiles preserves meaning, keeps its roots, is runnable on its slots, and uses the least possible number of truth slots. |
| `Compiler.RootInstruction` | internal/compile/lower_semantics.go:56-77 | A root resolves iff it is in the table and maps to one instruction in range; an out-of-table node is told apart. |
| `Compiler.Evaluate` | internal/compile/lower_semantics.go:56-77 | Resolving a root of a compiled program and executing the slot-allocated program gives exactly the meaning of the source root. |
| `Compiler.EvaluateWith` | internal/eval/executor.go:183-231 | The same for any way of evaluating leaf rows that gives the truth of their atoms. |
| `ExecutorGate.ValidExecutionSchedule` | internal/eval/executor.go:91-140 | The executor admits a program iff its columns agree, slots are in range and every row is well-formed, groups having at least two operands. |
| `ExecutorGate.NarrowSurvives` | internal/eval/executor.go:91-140 | The final program has a row that the executor refuses iff some needed candidate is a group with a single operand. |
| `ExecutorGate.AcceptedExactly` | internal/eval/executor.go:91-140 | Every row of the compiled program passes the executor iff no group of the document that keeps an instruction of its own flattens to fewer than two operands. |
| `ExecutorGate.CompileAndAdmit` | internal/eval/executor.go:38-61 | Within the size limits an accepted document compiles, and what compiles is admitted by the executor if and only if it has no such narrow group. |
| `ExecutorGate.LonelyIsRefused` | internal/eval/executor.go:118-122 | A concrete document, a group with a single child, that the validator accepts and that compiles whatever the hashes, and whose program the executor refuses. |
| `Applicability.SearchFindsAll` | internal/compile/index.go:308-338 | The stack search visits every row that is conjoined to the root through All instructions. |
| `Applicability.ExtractConstraints` | internal/compile/index.go:273-367 | The walk fails iff the values it collects, those of the first selector of every field in its order, exceed 32 bits; otherwise the rows visited are exactly the conjoined ones, and the per-field states are exactly those of their selectors. |
| `Applicability.AppendSelectorValues` | internal/compile/index.go:221-268 | A selector row contributes its symbols to its field state, or nothing, as its opcode and field kind say; it fails iff the collected values pass 32 bits. |
| `Applicability.ConjoinedTest` | internal/compile/index.go:221-367 | A true root forces every conjoined selector to hold, and a failing selector makes the root exactly false. |
| `PolicyIndex.EmitConstraints` | internal/compile/index.go:340-358 | Appends one constraint for every field with a single selector, in field order, and fails iff the constraints or their values then exceed 32 bits. |
| `PolicyIndex.EmittedIsJustified` | internal/compile/index.go:340-358 | The emitted constraints are justified by the conjoined selectors, in ascending field order and never empty. |
| `PolicyIndex.SingleIsEmitted` | internal/compile/index.go:340-358 | No field with a single selector is left out. |
| `PolicyIndex.ExactStates` | internal/compile/index.go:305-338 | The states that the walk leaves are those that the conjoined selectors dictate, whatever its order. |
| `PolicyIndex.ExtractApplicability` | internal/compile/index.go:273-367 | For every DAG the constraints are exactly those of the fields with one conjoined selector, a valid set, each justified; it fails iff some walk collects too many values or the columns exceed 32 bits. |
| `PolicyIndex.JustifiedIsNecessary` | internal/compile/index.go:273-367 | Whenever a requirement's root is true the constrained field is present with its symbol among the emitted values; a present other symbol makes the root exactly false. |
| `PolicyIndex.Build` | internal/index/policy.go:103-214 | The index builds iff the constraints are valid, and then holds exactly their masks and wildcards. |
| `PolicyIndex.Candidates` | internal/index/policy.go:261-295 | A requirement is a candidate iff every queried present fact is admitted by its constraints. |
| `PolicyIndex.FilteredIsFalse` | internal/eval/executor.go:711-727 | A requirement that the index filters out has an exactly false root, so skipping it changes no result. |
| `FactIndex.LowerFactIndexSpec` | internal/compile/index.go:66-196 | The spec lists exactly the symbol fields with at least 96 comparisons, in order, each with the sorted distinct symbols asked of it; it fails iff the comparisons of those fields exceed 32 bits. |
| `FactIndex.CompiledQueriesCovered` | internal/eval/batch_index.go:35-80 | Every symbol asked of a selected field is in its list, so an absent mask means no match. |
| `FactIndex.BuildMasks` | internal/index/batch.go:150-214 | Each listed symbol gets the mask of exactly the rows whose column holds it; absent rows are masked out when the word is combined. |
| `FactIndex.IndexMatches` | internal/eval/batch_index.go:146-196 | Masks from the index are the match words of the scalar comparison. |
| `FactIndex.EvalIndex` | internal/eval/batch_index.go:115-202 | The index path is taken exactly for equality, inequality and membership, and produces the reference planes. |
| `FactIndex.EvalLeaf` | internal/eval/executor.go:203-210 | Whichever of the three evaluators runs, the planes are the one correct answer. |
| `FactIndex.ShardsAgree` | internal/eval/executor.go:340-388 | Evaluating a 64-aligned shard gives the bits that evaluating the whole batch gives. |
| `Facts.TypedPayload` | internal/compile/validate.go:248-342 | Lowering a comparison that the validator accepts keeps its arity and the kinds of its operands. |
| `Facts.TestMeans` | internal/eval/predicate.go:128-255 | The test of a predicate row holds of a present column entry iff the comparison of the source atom holds of the value the entry stands for; symbols of the batch and of the program are told apart by their bytes. |
| `Facts.LeafBits` | internal/eval/predicate.go:128-255 | The reference planes of a predicate row are, row by row, the four-valued truth of its source atom under the facts of the row. |
| `BatchEvaluation.CompiledTyped` | internal/compile/validate.go:248-342 | Every row of a compiled policy is typed as its source leaf was. |
| `BatchEvaluation.CompiledQueries` | internal/compile/index.go:66-268 | What applicability extraction and the fact index ask of a program holds of every compiled policy. |
| `BatchEvaluation.CompiledReadsFacts` | internal/eval/predicate.go:128-255 | Selectors of a compiled policy read the symbols of a row as the applicability index assumes. |
| `BatchEvaluation.LowerIndex` | internal/compile/index.go:66-196 | Every compiled policy has a fact index, unless its comparisons exceed 32 bits. |
| `BatchEvaluation.EvaluateLeaves` | internal/eval/executor.go:193-211 | Evaluating the predicate rows over a batch, each by whatever path applies, gives the reference planes of every row. |
| `BatchEvaluation.EvaluateBatch` | internal/eval/executor.go:183-231 | Executing a compiled policy over a batch gives, for every root and every row, the meaning of the source node under the facts of that row. |
| `BatchEvaluation.SkippedIsFalse` | internal/eval/executor.go:711-727 | A requirement that the applicability index leaves out for the symbols of a row has an applicability root that means exactly false under the facts of the row. |
| `Predicates.PlanesAreDetermined` | internal/eval/predicate.go:128-259 | Positive, negative and missing planes, tail bits included, are determined by the row values alone. |
| `Predicates.FillInMatches` | internal/eval/predicate.go:88-126 | The match plane of a membership holds exactly the rows whose value is listed. |
| `Predicates.EvalScalar` | internal/eval/predicate.go:128-259 | The scalar evaluator produces the reference planes for every test, kind, row count and aligned shard. |
| `Predicates.CompareLanes` | internal/eval/simd.go:119-127 | The lane comparison decides every row as the scalar comparison does. |
| `Predicates.VectorPlanes` | internal/eval/simd.go:98-132 | Word-wise combination with tail masking turns match words into the reference planes. |
| `Predicates.MaskTailExact` | internal/eval/simd.go:151-160 | Tail masking clears exactly the bits past the last row. |
| `Predicates.EvalVector` | internal/eval/simd.go:61-133 | The vector path is taken exactly for scalar comparisons and produces the reference planes. |
| `Enumeration.DigitsOfEncode` | internal/diff/search.go:97-127 | Encoding options and decoding the index gives the options back, and the index is below the cardinality. |
| `Enumeration.EnumerationIsBijective` | internal/diff/search.go:97-127 | Decoding an index below the cardinality gives options in range that encode to that index: every combination occurs exactly once. |
| `Enumeration.BuildStrides` | internal/diff/search.go:29-77 | Strides are the partial products; the plan is refused iff the cardinality exceeds the candidate limit or 32 bits, and no product overflows unnoticed. |
| `Enumeration.Generate` | internal/diff/search.go:97-127 | A batch of indices decodes to exactly their options; refused iff the range is empty or past the end. |
| `Witnesses.CandidateIndex` | internal/diff/compare.go:184-237 | A witness is accepted iff its names match and some options spell it, and the index returned is one that generate decodes to the witness. |
| `Verdicts.CounterexamplesAreLeast` | internal/diff/compare.go:269-325 | The counterexample and the forbidden counterexample are the least-index differing and forbidden candidates. |
| `Verdicts.OutcomeIsSummary` | internal/diff/compare.go:255-340 | The running outcome is the summary of the set of classes seen, whatever their order. |
| `Verdicts.TransitionsCount` | internal/diff/compare.go:296-322 | Each transition cell counts exactly the candidates with that pair of decisions. |
| `Verdicts.TransitionsSumToCandidates` | internal/diff/compare.go:296-297 | The transition counts sum to the number of candidates compared. |
| `Verdicts.CompareResultBatch` | internal/diff/compare.go:269-325 | Folding a batch onto the result of the rows before gives the result of all rows; it fails iff a decision is unsupported. |
| `Verdicts.Compare` | internal/diff/compare.go:100-149 | For every accepted batch size the main loop returns the folded verdict of the whole enumeration, or stops at the first batch whose evidence exceeds the budget or that has an unsupported decision, with that reason and the start of that batch. What the folded verdict says is `Verdicts.CompletedVerdict`. |
| `Verdicts.CompletedVerdict` | internal/diff/compare.go:255-325 | Read off the matrix directly: a completed search says widened iff some candidate differs and every differing one moves to another decision by a move that the matrix calls widened, narrowed likewise, equivalent (inconclusive when the domain is not complete) iff none differs, and changed otherwise; it is forbidden iff some differing candidate moves between decisions that the matrix does not allow; and each transition cell is the number of candidates, or of forbidden ones, with its two decisions. |
| `Verdicts.CompletedCounterexamples` | internal/diff/compare.go:300-322 | The two counterexamples of a completed search are its first differing candidate and the first one that moves where the matrix does not allow it; either is missing iff there is none. |
| `Verdicts.BatchIndependence` | internal/diff/compare.go:100-149 | Two batch sizes give the same result if and only if both searches visit every candidate, or both stop at the same candidate for the same reason. |
| `Verdicts.PrepareEvidenceShape` | internal/diff/batch.go:219-251 | The records of a batch are laid out iff their total is at most 2^18, although the loop stops at the first excess. |
| `Verdicts.CompletesExactly` | internal/diff/compare.go:100-149 | A search visits every candidate iff every decision is supported and every batch is within the evidence budget; otherwise it is inconclusive with fewer candidates. |
| `Verdicts.EveryBatchSizeAgrees` | internal/diff/compare.go:100-149 | All batch sizes from 1 to 4096 give the same result iff the first candidate alone exceeds the budget, or all decisions are supported and no batch of any of these sizes exceeds it, or the first decision is unsupported and the first 4096 candidates fit. |
| `Verdicts.AgreeingIsFree` | internal/diff/domain.go:93 | Sizes that agree leave only these cases: a common stop past the first candidate would be a multiple of 4096, 4095 and 4093 below 2^32. |
| `Verdicts.BudgetShows` | internal/diff/compare.go:109-118 | A concrete enumeration of supported decisions that completes in batches of two and exhausts the evidence budget in one batch of three. |
| `Verdicts.LargeTotalAgrees` | internal/diff/domain.go:10-11 | A concrete enumeration of 10000 candidates whose records are over the budget in total, although every accepted batch size completes with the same result. |
| `Verdicts.BatchSizeShows` | internal/diff/compare.go:100-149 | A concrete run where the reported number of candidates depends on the batch size. |
| `Comparison.IndistinctRequests` | internal/diff/prune.go:68-74 | Requests that agree on the referenced fields give equal truths to every instruction. |
| `Comparison.CollectDependencies` | internal/diff/prune.go:11-56 | The pruned fields are exactly those some instruction of either program reads, in order and once. |
| `Comparison.RequestIsEvaluated` | internal/diff/search.go:79-86 | Every request of the closed domain is evaluated by some candidate of the pruned enumeration. |
| `Comparison.VerdictDecides` | internal/diff/compare.go:100-149 | A completed loop with no difference decides the whole closed domain, and a reported counterexample is a real difference. |
| `Comparison.DomainFits` | internal/diff/batch.go:219-240 | Every batch is within the evidence budget if no scenario of the domain has more recognised records than a row of a batch may expand to. |
| `SpanProcessor.GateKeeps` | telemetry/span_processor.go:60-78 | Every atomic step of producers and shutdown keeps the admission word equal to the calls in flight and the closing bit sealed. |
| `SpanProcessor.ConservationStep` | telemetry/span_processor.go:146-251 | Every step keeps every sampled span in exactly one of queue, batch, handed to the exporter or dropped; where each goes is `SpanFates.EverySpanIsAccountedFor`. |
| `SpanProcessor.InvariantRuns` | telemetry/span_processor.go:60-251 | The whole invariant holds in every state of every interleaving. |
| `SpanProcessor.Safety` | telemetry/span_processor.go:60-251 | Over all interleavings: quiesced closes at most once and never with an admitted producer in flight; spans are conserved; when the worker is done queue and batch are empty; the drop counter never runs ahead of drops and failed exports, and equals them once nobody has a drop left to count. |
| `SpanFates.EverySpanIsAccountedFor` | telemetry/span_processor.go:60-251 | Over every run, told from its actions: what was handed to the exporter, left over, batched and queued are, in this order, the accepted spans in the order of their offers; a span is dropped only because it was refused, was offered to a full queue, or was left over after the deadline of the final drain had passed; the failed exports counted are those of non-empty batches; and when the worker is done all accepted spans were handed over or left over. |
| `SpanFates.NothingIsLost` | telemetry/span_processor.go:60-251 | A run without refusals, full queues and deadlines drops nothing, and when the worker is done the exporter has had every span offered, in order. |
| `SpanProcessor.NothingEntersAfterQuiesced` | telemetry/span_processor.go:60-78 | After quiesced closes the queue is only ever a suffix of itself. |
| `SpanProcessor.LastLeaveDecides` | telemetry/span_processor.go:64-77 | The last admitted producer closes quiesced if and only if no rejected producer's transient increment is in flight. |
| `SpanProcessor.MissedIsForever` | telemetry/span_processor.go:146-251 | Once missed, quiesced never closes in any continuation and a worker that waits for it waits forever. |
| `SpanProcessor.QuiescedNeedNotClose` | telemetry/span_processor.go:60-78 | A concrete interleaving in which all producers have returned and quiesced stays open. |
| `Debugger.RetainedExecutor.Begin` | internal/eval/debug.go:35-67 | Begins at row zero iff the program is non-empty, in range and prepared. |
| `Debugger.RetainedExecutor.Step` | internal/eval/debug.go:70-87 | One step extends the retained planes of the straight run by one row; completion holds iff the cursor is at the end. |
| `Debugger.RetainedExecutor.Rewind` | internal/eval/debug.go:91-108 | Rewinding keeps the planes below the cursor and is refused iff it would move forward. |
| `Debugger.CheckpointSet.Record` | internal/debug/replay.go:21-36 | A due cursor is appended, a full set forgetting exactly its first; otherwise nothing changes; checkpoints stay strictly ascending, bounded and not above the cursor. |
| `Debugger.CheckpointSet.Nearest` | internal/debug/replay.go:38-50 | The nearest checkpoint is the greatest one not above the target. |
| `Debugger.CheckpointSet.Truncate` | internal/debug/replay.go:52-61 | Exactly the checkpoints above the target are dropped. |
| `Debugger.SessionState.AdvanceOne` | internal/debug/session.go:415-428 | One instruction, a checkpoint where one is due, and the stop reason that the first breakpoint standing there and the end dictate. |
| `Debugger.SessionState.MatchingBreakpoint` | internal/debug/breakpoint.go:73-100 | The first entry of the list whose breakpoint stands at the instruction; zero iff none does. |
| `Debugger.SessionState.AddBreakpoint` | internal/debug/session.go:560-571 | A well-formed breakpoint is appended under a fresh identifier, unless the list or the identifiers are exhausted; nothing else changes. |
| `Debugger.SessionState.RemoveBreakpoint` | internal/debug/session.go:573-582 | Exactly the entry of the identifier is removed; an unknown identifier is refused. |
| `Debugger.SessionState.StepNode` | internal/debug/session.go:430-447 | The loop makes the move that stepping a node is defined to make. |
| `DebugSessions.NodeStops` | internal/debug/session.go:430-447 | Stepping a node passes rows of that node at which no breakpoint stands, and stops at the first breakpoint, at the end, or where another node begins, and says which, naming the first breakpoint of the list that stands there. |
| `Debugger.SessionState.StepOver` | internal/debug/session.go:449-479 | The loops make the move to the last instruction of the current node. |
| `DebugSessions.OverStops` | internal/debug/session.go:473-479 | Stepping over reaches its target, and stops earlier exactly where a breakpoint stands or at the end, and says which. |
| `Debugger.SessionState.Run` | internal/debug/session.go:315-327 | Repeated single steps make the move that a run to a stop is defined to make. |
| `DebugSessions.RunStops` | internal/debug/session.go:315-327 | A run ends at the first instruction after its start where a breakpoint stands, or else at the end, and says which. |
| `DebugSessions.FirstMatchIs` | internal/debug/breakpoint.go:73-100 | With positive identifiers, the matching identifier is zero iff no breakpoint of the list stands at the instruction, and otherwise that of the first that does. |
| `DebugSessions.WithoutIsOthers` | internal/debug/session.go:573-582 | Removing an identifier leaves exactly the entries with another one, still numbered in ascending order. |
| `DebugSessions.StraightRunRemembers` | internal/debug/replay.go:21-36 | After running straight to a cursor the checkpoints are the last of the boundaries passed that are multiples of the interval or the end, as many as there is room for. |
| `DebugSessions.CommandsDo` | internal/debug/session.go:332-413 | What each command does at rest and is answered: the snapshot shows where the session then stands, complete is said only at the end and running never, failures change nothing, and steps, restart, replay, result and close do what they are named for. |
| `DebugSessions.CommandsSay` | internal/debug/session.go:332-413 | The reason each command gives, and the breakpoint commands: adding succeeds iff the breakpoint is acceptable and neither the list nor the identifiers are exhausted, and appends it under an identifier above all others; removing succeeds iff some entry has the identifier; refusals change nothing. |
| `DebugSessions.AcceptedCanStand` | internal/debug/breakpoint.go:45-67 | A breakpoint on an instruction or a node is acceptable iff it stands at some instruction of the program. |
| `Debugger.SessionState.Replay` | internal/debug/session.go:481-502 | Replay reaches any target in range, going back from the nearest checkpoint and forward from where it stands, with the checkpoints that passing each boundary records, and refuses others without moving. |
| `DebugSessions.OriginIsNearest` | internal/debug/replay.go:38-50 | Going back starts at the greatest checkpoint not above the target, or at the start. |
| `Debugger.SessionState.Restart` | internal/debug/session.go:378-383 | Restart returns to row zero with no checkpoints and keeps the breakpoints. |
| `Debugger.SessionState.HandlePaused` | internal/debug/session.go:332-413 | Every command at rest changes the session and is answered exactly as the response function of the protocol says, errors included. |
| `Debugger.SameBoundarySameState` | internal/debug/session.go:415-502 | Two sessions over the same program and facts at the same cursor retain the same planes and result, whatever commands led there. |
| `DebugActor.RunsKeep` | internal/debug/session.go:267-413 | The actor's bookkeeping of owed replies holds over every run, and a run is only on before the end of the program. |
| `DebugActor.EveryCommandAnsweredOnce` | internal/debug/session.go:267-413 | Over every run a command is answered at most once, every taken command is answered by the time the actor stops, and a command that is queued, before or after the end, is not answered. |
| `DebugActor.StepTellsTruth` | internal/debug/session.go:267-413 | Whatever the actor does, every reply it sends shows where the session then stands, says running iff a run is then on and closed iff the session is then closed; a failure has changed nothing; a run that ends answers its Continue first; one that is interrupted says so; and a request taken during a run leaves the session where it is. |
| `DebugActor.RepliesFollowCommands` | internal/debug/session.go:267-413 | In every run whose clients wait for their replies, the replies in order, the position, the checkpoints and the breakpoints are those of the commands taken one after the other, however the instructions of a Continue are scheduled. |
| `DebugActor.PendingStopIsFixed` | internal/debug/session.go:278-327 | In any state, whatever is taken while a Continue runs leaves where it would stop as it is; a run that stops by itself is there and its reply says so. |
| `DebugActor.InterruptedOnItsPath` | internal/debug/session.go:278-327 | Over any part of any run in which one Continue stays on, the session is on the way to the stop it had at first. |
| `DebugActor.ReachRacing` | internal/debug/session.go:340-373 | A run that reaches a Continue in progress with a Pause waiting. |
| `DebugActor.PauseRaces` | internal/debug/session.go:286-303 | From there the same two commands get different replies, as the Pause is taken before or after an instruction. |
| `DebugRaces.CommandsDecideExactly` | internal/debug/session.go:267-413 | All runs with live contexts that take a given list of requests and come to rest give the same replies and the same session iff nothing in the list follows a Continue that has something to run. |
| `DebugRaces.NextReplyDiffers` | internal/debug/session.go:286-327 | Whichever request waits for a running Continue, the next reply differs as it is taken now or after the stop. |
| `DebugRaces.Finish` | internal/debug/session.go:267-330 | From every state the actor can answer all requests in its inbox and come to rest. |
| `Templates.FindPlaceholder` | internal/ast/template.go:74-102 | A name is known iff some operation has it, and names are distinct; which value a name stands for is `TemplateRendering.NameKeepsPromise`. |
| `Templates.AllowedIsProvided` | internal/ast/template.go:104-118 | A placeholder is allowed in a context iff the context provides the value of its name: the policy and request always, the decision from a decision on, the reason when unresolved, the kind of evidence when it is missing, its state and identity when it is present. |
| `Templates.Builder.AppendTemplateOp` | internal/ast/template.go:132-139 | Appends one operation; refused iff the template already has 32. |
| `Templates.Builder.AppendTemplateLiteral` | internal/ast/template.go:141-156 | Text extends a literal that ends the template so far and otherwise starts a new one; the columns hold the resulting list. |
| `Templates.Builder.Rollback` | internal/ast/template.go:126-130 | The columns return to their lengths at the mark. |
| `Templates.Builder.ParseTemplate` | internal/ast/template.go:177-222 | The parser either reads the whole text into its only reading or stops with a status that every reading of the text bears out. |
| `Templates.Builder.AddTemplate` | internal/ast/template.go:160-231 | A template is accepted iff the limits leave room and the text is the print of allowed tokens; the columns then hold exactly its grouped operations; a refused template leaves every column unchanged, and its status is true of every reading. |
| `Templates.PrintInjective` | internal/ast/template.go:177-222 | A text has at most one reading. |
| `Templates.FlattenGroup` | internal/ast/template.go:141-156 | Grouping characters into literals loses nothing. |
| `Templates.NormalExactly` | internal/ast/template.go:141-156 | The lists that grouping can produce are exactly those without empty or adjacent literals. |
| `Templates.PrintedTemplateParses` | internal/ast/template.go:160-231 | Any list of known operations without empty or adjacent literals survives printing and parsing, and its print is acceptable iff the list is allowed and within limits. |
| `TemplateRendering.DecodingIsUnique` | internal/ast/template.go:141-156 | The literal bytes, operations and arguments of a template determine its list of operations. |
| `TemplateRendering.AddKeepsTable` | internal/ast/template.go:225-231 | A row added as the builder adds it keeps the table: the columns are the operations of all texts read, and every row lies behind the ones before it. |
| `TemplateRendering.StoredTemplate` | internal/result/templates.go:164-179 | Every stored template is handed out as exactly the operations of its own text, up to the next row of literals, as long as its operations start within 32 bits. |
| `TemplateRendering.AppendRenderedTemplate` | internal/result/explain.go:925-962 | Appends the literals and bindings of the operations in order. |
| `TemplateRendering.NameKeepsPromise` | internal/result/explain.go:925-962 | What the renderer appends for the operation that a name was parsed to is the value of that name, with the letter of its namespace. |
| `TemplateRendering.RenderStored` | internal/result/explain.go:925-962 | Rendering a stored template gives its text with doubled braces undone and, for every placeholder, the value that its name promises. |
| `SemanticBuilders.StoresOne` | frontend/builder.go:314-363 | A row of the flat columns stores at most one node: what was added can be read back. |
| `SemanticBuilders.Builder.CheckAppend` | frontend/builder.go:289-301 | The limit check passes iff one more node keeps every total within its limit. |
| `SemanticBuilders.Builder.AppendLiteral` | frontend/builder.go:314-337 | The new entry spells the literal, its bytes are counted, and nothing stored before it changes. |
| `SemanticBuilders.Builder.AppendNode` | frontend/builder.go:339-363 | Appends one row and its depth; the table then stores the longer list of nodes. |
| `SemanticBuilders.Builder.AddBoolean` | frontend/builder.go:116-123 | Appends exactly this node iff it fits; otherwise nothing changes. |
| `SemanticBuilders.Builder.AddDefined` | frontend/builder.go:126-134 | Appends exactly this node iff the field is declared and it fits; otherwise nothing changes. |
| `SemanticBuilders.Builder.AddExists` | frontend/builder.go:137-145 | Appends exactly this node iff the field is declared and it fits; otherwise nothing changes. |
| `SemanticBuilders.Builder.AddCompare` | frontend/builder.go:148-168 | Appends exactly this node iff field, literal kind and ordering agree and it fits; otherwise nothing changes. |
| `SemanticBuilders.Builder.AddIn` | frontend/builder.go:171-197 | Appends exactly this node iff the list is non-empty, bounded and homogeneous and it fits; otherwise nothing changes. |
| `SemanticBuilders.Builder.AddGroup` | frontend/builder.go:209-230 | Appends exactly this group iff it has two or more existing children and its depth and edges fit; otherwise nothing changes. |
| `SemanticBuilders.Builder.AddNot` | frontend/builder.go:233-245 | Appends exactly this negation iff its child exists and it fits; otherwise nothing changes. |
| `TableShapes.ValidateReachability` | internal/frontend/semantic.go:321-355 | The search from the root leaves no row unreached iff every other row has a parent. |
| `SemanticTables.FitsInTotal` | frontend/builder.go:289-301 | Passing the check at every append is the same as keeping the node, literal, edge, byte and depth limits in total. |
| `SemanticTables.MeaningStable` | frontend/builder.go:339-363 | Later rows never change what a row means. |
| `SqlLexers.ScanInteger` | frontend/sql/lexer.go:233-248 | A run of digits is read to its end, gives its exact decimal value, and overflows iff that value exceeds the bound. |
| `SqlLexers.NegatedIsExact` | frontend/sql/parser.go:236-248 | A minus sign and any magnitude up to 2^63 give exactly the negative integer. |
| `SqlLexers.ScanQuoted` | frontend/sql/lexer.go:219-231 | The scan ends where the reference reading of doubled quotes ends. |
| `SqlLexers.QuoteEnds` | frontend/sql/lexer.go:219-231 | The spelling of any text in doubled quotes is scanned to exactly its end. |
| `SqlTokenSpellings.KeywordIs` | frontend/sql/lexer.go:271-341 | A word is a given keyword iff it is the word of that keyword in any case. |
| `SqlTokenSpellings.DenotesDecimal` | frontend/sql/lexer.go:233-248 | Digits denote a number, leading zeros allowed, iff that is their decimal value. |
| `SqlTokenSpellings.SignStands` | frontend/sql/lexer.go:130-174 | Comparisons and marks are read iff one of their signs stands there and the next character does not make it another. |
| `SqlTokenSpellings.StepStands` | frontend/sql/lexer.go:74-200 | At any offset the lexer reads a token of a kind iff a text of that kind stands there, by a vocabulary that is said of the characters alone, and cannot go on. |
| `SqlSpellings.LexesExactly` | frontend/sql/lexer.go:12-206 | A source lexes to given tokens iff it is cut into texts of their kinds, each as long as it can be, with nothing but blanks and comments between them, and they are not too many. |
| `SqlSpellings.Lex` | frontend/sql/lexer.go:12-206 | The loop computes the step-by-step tokenisation, which is the one the source is cut into. |
| `SqlTexts.SaysWrites` | frontend/sql/parser.go:203-278 | A token that the grammar takes for a word has a text for that word: AND, OR and the other keywords in any case, the comparison signs, literals in quotes, digits, names by their declaration and parameters by their value. |
| `SqlTexts.WritesSays` | frontend/sql/parser.go:203-278 | Every text for a word is a token that the grammar takes for that word. |
| `SqlTexts.WordsExactly` | frontend/sql/lexer.go:12-206 | The parser is given certain words iff the source is cut into texts for these words: names in quotes or, in any case, of the case the dialect folds to; the n-th question mark for the n-th unnamed parameter; numbers below 2^63, or 2^63 after a minus sign. |
| `SqlTokens.AppendDecodedQuote` | frontend/sql/parser.go:493-505 | Decoding gives back the text that doubling quotes encoded. |
| `SqlTokens.FoldedIdentifierEqual` | frontend/sql/parser.go:507-529 | An unquoted name matches a declaration iff its case-folding by dialect equals it. |
| `SqlTokens.FindField` | frontend/sql/parser.go:328-349 | The first declaration with the name a token denotes, or none. |
| `SqlTokens.FindParameter` | frontend/sql/parser.go:351-374 | A named marker takes its declaration, and the n-th positional marker the n-th positional declaration. |
| `SqlRoundTrip.PrintedSqlParses` | frontend/sql/parser.go:45-278 | The print of every expression tree parses to that tree. |
| `SqlRoundTrip.ParsesExactly` | frontend/sql/parser.go:45-278 | A source parses to a tree iff it is the print of the tree: NOT binds over AND over OR, and no source has two trees. |
| `SqlMeaning.ReverseSwaps` | frontend/sql/parser.go:463-476 | Reversing the operator of a literal-first comparison keeps its truth. |
| `SqlMeaning.MembershipIsElement` | frontend/sql/parser.go:161-201 | Membership equals the SQL disjunction of equalities, null included. |
| `SqlMeaning.OrsLowered` | frontend/sql/parser.go:45-317 | The rows an expression lowers to have its SQL three-valued truth on every row of facts. |
| `SqlParsers.Parser.ParseOr` | frontend/sql/parser.go:45-53 | Succeeds iff the reference parser finds a tree that is typed, nested within the limit and fits; it then stands at the tree's end and has appended exactly its rows. |
| `SqlParsers.Parser.ParseAnd` | frontend/sql/parser.go:55-63 | The same for conjunctions. |
| `SqlParsers.Parser.ParseNot` | frontend/sql/parser.go:65-82 | The same for negations, with the nesting limit. |
| `SqlParsers.Parser.ParseComparison` | frontend/sql/parser.go:84-131 | The same for tests, by the word after the first operand; NOT IN is refused. |
| `SqlParsers.Parser.ParseNullTest` | frontend/sql/parser.go:133-159 | IS NULL and IS NOT NULL over fields only. |
| `SqlParsers.Parser.ParseMembership` | frontend/sql/parser.go:161-201 | Membership over fields with a non-empty list of literals only. |
| `SqlParsers.Parser.ParsePrimaryOperand` | frontend/sql/parser.go:203-278 | Succeeds iff a primary can be read, tells what it is, and appends rows only for parentheses. |
| `SqlParsers.Parser.EnsureNode` | frontend/sql/parser.go:280-299 | A bare operand is accepted iff it is a truth value. |
| `SqlFrontend.CompileExpression` | frontend/sql/expression.go:7-44 | A source compiles iff it is cut into texts for the words of an expression that is typed and within limits; its root then has the expression's three-valued truth on every row of facts, its rows are typed, and all of them hang below the root. |
| `ExpressionShapes.ExpressionIsWhole` | frontend/sql/parser.go:45-326 | Every row that parsing an expression appends, but its root, is the child of another. |
| `RlsParsers.NormalizeIdentifier` | frontend/sql/rls_parser.go:281-292 | Quoted names are decoded, others folded to lower case. |
| `RlsParsers.RlsParser.ParseHeading` | frontend/sql/rls_parser.go:61-88 | Reads the heading iff the tokens have its form. |
| `RlsParsers.RlsParser.ParseCommand` | frontend/sql/rls_parser.go:230-249 | Reads the command selector iff the tokens have its form, all commands by default. |
| `RlsParsers.RlsParser.ParseRoles` | frontend/sql/rls_parser.go:120-137 | Reads the list of roles iff the tokens have its form, everyone by default; session roles are refused. |
| `RlsParsers.RlsParser.ParseClauses` | frontend/sql/rls_parser.go:144-160 | Both clauses are read and lowered iff they have their form, are typed, fit, and the command takes them. |
| `RlsParsers.RlsParser.DefaultClauses` | frontend/sql/rls_parser.go:170-179 | Missing clauses take exactly their defaults; refused iff the extra row does not fit. |
| `RlsParsers.RlsParser.ParseStatement` | frontend/sql/rls_parser.go:61-200 | A statement is taken iff it is readable, new, of the same table and within every limit; the state is then exactly the next one. |
| `RlsSyntax.StatementExactly` | frontend/sql/rls_parser.go:61-200 | A statement is read iff the source shows the print of a syntax that denotes it, from that position to that end. |
| `RlsTexts.SlotFills` | frontend/sql/rls_parser.go:202-292 | A token fills a part of the print iff its text stands for it: keywords in any case, marks, names in quotes or folded to lower case, roles other than the session's, and words of expressions. |
| `RlsTexts.SlotsExactly` | frontend/sql/rls_parser.go:12-59 | A source shows a print to its end iff it is cut into texts for the parts of the print, and they are not too many. |
| `RlsAcceptance.StepsExactly` | frontend/sql/rls_parser.go:61-200 | Taking the statements one by one, with every limit checked on the way, is the same as the list having distinct names, one table, typed clauses and totals within the limits. |
| `RlsAcceptance.CollectedIsWritten` | frontend/sql/rls_parser.go:40-48 | What is collected is the print of the source, statement by statement, and is suitable as a list. |
| `RlsAcceptance.WrittenIsCollected` | frontend/sql/rls_parser.go:40-48 | A source that is the print of a suitable list of statements is collected as that list. |
| `RlsStatements.StatementMeans` | frontend/sql/rls_parser.go:144-179 | A policy's two roots are worth its clauses with USING defaulting to true (to the check for an insert) and WITH CHECK to USING. |
| `RlsStatements.CollectingIsFaithful` | frontend/sql/rls_parser.go:40-48 | Whatever is collected to the end is the policies of the statements read, with distinct names, in order. |
| `RlsComposers.Composer.Fold` | frontend/sql/rls_parser.go:396-405 | Appends exactly the left fold of its rows; fails iff that does not fit. |
| `RlsComposers.Composer.ComposeRole` | frontend/sql/rls_parser.go:368-394 | Appends exactly the rows of a policy's role test; fails iff they do not fit. |
| `RlsComposers.Composer.ComposeModes` | frontend/sql/rls_parser.go:332-348 | Appends exactly the rows of the covering policies of a phase, by mode; fails iff they do not fit. |
| `RlsComposers.Composer.Compose` | frontend/sql/rls_parser.go:315-366 | Appends exactly the composed rows; fails iff they do not fit the limits. |
| `RlsComposition.RoleDecides` | frontend/sql/rls_parser.go:368-394 | With the role known, a policy's role test is true iff it is public or names the role, and never unknown. |
| `RlsComposition.PhaseDecides` | frontend/sql/rls_parser.go:331-358 | A phase is true iff the command names it, some covering permissive policy matches role and predicate, and no covering restrictive policy matches the role with a predicate that is not true. |
| `RlsComposition.RootDecides` | frontend/sql/rls_parser.go:315-366 | The root is true iff the role is present, the command is one of the five phases, and that phase is allowed; unknown counts as not true. |
| `RlsMeaning.ComposedRootDecides` | frontend/sql/rls_parser.go:315-366 | The rows that composition appends have exactly that truth, whatever the facts. |
| `RlsAdmission.PhaseIsCommand` | frontend/sql/rls_parser.go:440-456 | Policies decide a phase as the statements decide its command: a statement concerns the commands it is written for, and its condition is WITH CHECK for rows written and USING for rows read, with the defaults. |
| `RlsAdmission.AllowedIsLetThrough` | frontend/sql/rls_parser.go:315-394 | The composed decision is the one said of the statements and the text of the command alone: the role is known, the command is one of the five, some permissive statement for it and the role has a true condition, and every restrictive one for them has. |
| `RlsFrontend.CompileRls` | frontend/sql/rls_parser.go:12-59 | A source compiles iff its fields are declared and it is cut into texts for the print of statements that are suitable as a list and whose composed rows fit; the root is then true exactly for the facts that these statements let through; its rows are typed, and all of them hang below the root. |
| `RlsShapes.CollectingCollects` | frontend/sql/rls_parser.go:144-193 | Reading statements leaves no loose row but the predicates of the policies, and a policy for one kind of row has a single predicate. |
| `RlsShapes.PoliciesUsed` | frontend/sql/rls_parser.go:330-349 | Composing uses the role and both predicates of every policy in some phase. |
| `RlsShapes.RootIsWhole` | frontend/sql/rls_parser.go:315-366 | Every row of composed statements, but the root, is the child of another. |
| `PolicyLowering.AstBuilder.AddValue` | internal/ast/value.go:92-143 | Appends exactly this literal iff there is an identifier left and its bytes fit; otherwise nothing changes. |
| `PolicyLowering.AstBuilder.AddValues` | internal/frontend/lower.go:105-141 | Literals added one by one get ascending identifiers; it fails iff their number or bytes do not fit. |
| `PolicyLowering.AstBuilder.AddBoolean` | internal/ast/builder.go:285-301 | Appends a constant and a literal of its own iff both have an identifier left; otherwise nothing changes. |
| `PolicyLowering.AstBuilder.AddCompare` | internal/ast/builder.go:249-282 | Appends exactly this comparison iff the field is named, the operation is scalar and has a literal iff it needs one, and there is room. |
| `PolicyLowering.AstBuilder.AddIn` | internal/ast/builder.go:304-328 | Appends exactly this membership iff the field and every literal are named and the list fits. |
| `PolicyLowering.AstBuilder.AddGroup` | internal/ast/builder.go:332-353 | Appends exactly this group iff every child is named and the edges fit. |
| `PolicyLowering.AstBuilder.AddNot` | internal/ast/builder.go:356-366 | Appends exactly this negation iff its child is named and there is room. |
| `PolicyLowering.LowerRow` | internal/frontend/lower.go:143-186 | The document node of a row says what the row says, and the rows before keep theirs; it fails iff the rows so far exceed 32 bits. |
| `PolicyLowering.LowerPolicy` | internal/frontend/lower.go:84-222 | A table is lowered iff its literals, names, rows and edges fit 32 bits; every node of the document then says what its row says, and the one requirement asserts the root where the root or its negation holds. |
| `PolicyMeanings.AcceptedIsWhole` | internal/frontend/semantic.go:321-355 | The compiler's validator accepts the document iff the frontend's reachability check accepts the table. |
| `PolicyMeanings.LowersClean` | internal/frontend/lower.go:143-222 | The document of a typed table is structurally clean, acyclic and typed. |
| `PolicyMeanings.NoGroupIsNarrow` | internal/frontend/lower.go:192-195 | No group of the document is one that the executor refuses. |
| `PolicyMeanings.TableMeaningKept` | internal/frontend/lower.go:143-186 | For every request the document decides every node, positively and negatively, as the table decides its row. |
| `PolicyMeanings.AppliesWhereDecided` | internal/frontend/lower.go:188-195 | The requirement applies exactly to the requests on which the root is decided. |
| `PolicyEvaluation.CompilePolicy` | internal/frontend/lower.go:70-222 | A table is refused iff a row is off its root, and too large iff it cannot be lowered; what is published is the compiled form of its root, and the executor admits it. |
| `PolicyEvaluation.EvaluatePolicy` | internal/eval/executor.go:183-231 | Evaluating a published policy over a batch decides every row as its table decides the request that the row holds. |
| `PolicyEvaluation.EveryRowSays` | internal/frontend/lower.go:94-103 | Every row of a batch whose symbols are byte strings holds a request. |
| `PolicyEvaluation.CompileSql` | frontend/sql/expression.go:7-44 | A source compiles iff it is cut into texts for some expression; its table is never refused, and the published policy is that of a root with the expression's truth. |
| `PolicyEvaluation.EvaluateSql` | internal/frontend/lower.go:84-222 | Evaluating a compiled expression over a batch is positive in exactly the rows where the expression is true and negative in exactly those where it is false. |
| `PolicyEvaluation.CompileRlsPolicy` | internal/frontend/sql/lower.go:26-52 | A source compiles iff it is cut into texts for suitable statements; its table is never refused, and the published policy is that of a root that lets through what they do. |
| `PolicyEvaluation.EvaluateRls` | internal/frontend/sql/lower.go:26-52 | Evaluating compiled statements over a batch is positive in exactly the rows whose request they let through. |

## Left out

* Hash functions are arbitrary functions, and hash masks are remainders by the table size.
* Symbol slabs are lists of byte strings, list literals are sequences in the payload, bit words
  are 64 booleans and slot masks are sets; parallel columns are sequences of records.
* I/O, clocks and contexts: exporters, cancellation and socket transport are not modelled. Fact
  readers and the debugger's result reduction are arbitrary functions.
* Reason planes at All and Any are the union of the operands' reasons, as the executor reduces
  them; explanation, remediation and outcome tables are not modelled.
* Per-row structural diagnostics of the validator are summarised by `Lowerers.StructurallyClean`.
* The admission counter of the span processor is unbounded, so its 63-bit overflow is not
  modelled; a producer's decrement and its closing test are one atomic step.
* UTF-8 validation, source spans and diagnostic codes of the SQL frontend: sources are sequences
  of characters, letters and digits beyond ASCII are arbitrary predicates, and a refusal is one
  outcome. Schema validation beyond the two special fields is taken as done.
* The CEL, Rego, Cedar and protobuf frontends.
* The resolution of a clause into outcomes, its explanations, and source spans of documents.
* Prover callbacks, digests, approval tokens, and the domain validator of the diff apart from its
  bound on the batch size.
* How an evidence instruction matches the records of a request is an arbitrary function, and
  batches are given as finished columns.
* The evidence index that precedes the comparison loop, whose own budget exit does not depend on
  the batch size.
- OpenAddress.SlotSize: the overflow of the platform integer at 2^62 slots is not modelled.
- SymbolTables.Validate: symbols are a list of byte strings, so the slab ranges of their columns are not checked.
- Constants.LowerConstants: success is stated from size bounds that suffice, because sharing can make larger inputs fit; catalogue names are not interned.
- Compiler.Compile: success is stated from size bounds that suffice, for the same reason; semantic tables and freezing are not part of it.
- ExecutorGate.ValidExecutionSchedule: only the instruction and slot columns; node, span, root-flag and optional columns are not modelled.
- PolicyIndex.Build: the refusal of an index with too many words is not modelled.
- Comparison.CollectDependencies: the refusal of a domain that does not offer a pruned field is not modelled, nor how the plan orders changed fields.
- Users.BuildScheduleUsers: the refusal of more use edges than 32 bits is not modelled.
- SpanProcessor.Safety: a safety statement; nothing is claimed about progress of the worker.
- Debugger.RetainedExecutor.Begin: whether the executor accepts program and batch is an input.
- Debugger.SessionState.HandlePaused: watches, which only project what a boundary holds, are not modelled.
- DebugSessions.NodeStops: what a truth, evidence or outcome breakpoint sees at an instruction is an arbitrary function of both.
- DebugActor.EveryCommandAnsweredOnce: a safety statement; that the actor's goroutine keeps running is not modelled.
- TemplateRendering.RenderStored: identifiers are given as their decimal digits.
- SemanticBuilders.Builder.CheckAppend: source spans are not modelled, so neither is their refusal.
- SemanticBuilders.Builder.AddBoolean: source spans are not modelled, so neither is their refusal.
- SemanticBuilders.Builder.AddDefined: source spans are not modelled, so neither is their refusal.
- SemanticBuilders.Builder.AddExists: source spans are not modelled, so neither is their refusal.
- SemanticBuilders.Builder.AddCompare: neither spans nor malformed literals, which the datatype excludes, are refused.
- SemanticBuilders.Builder.AddIn: neither spans nor malformed literals, which the datatype excludes, are refused.
- SemanticBuilders.Builder.AddGroup: source spans are not modelled, so neither is their refusal.
- SemanticBuilders.Builder.AddNot: source spans are not modelled, so neither is their refusal.
- SqlSpellings.Lex: the limit on the source size and the validation of its encoding come before it.
- TableShapes.ValidateReachability: the rest of the table validator, its limits, metadata and column checks, comes before it; tables of the builder keep the columns it checks.
- PolicyLowering.LowerPolicy: source spans, the outcome table and the resolution are not modelled.
- PolicyEvaluation.CompilePolicy: when compilation or the fact index fail, only that they do is stated, with the sizes that suffice.
- RlsParsers.RlsParser.ParseHeading: the checks for a repeated name and another table come after it.
- SqlFrontend.CompileExpression: schema validation and the checks of size and encoding come before it.
- RlsFrontend.CompileRls: schema validation beyond the two special fields and the checks of size and encoding come before it.
