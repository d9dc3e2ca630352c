# Varn: verified cores

A Dafny model of the algorithmic cores of the Varn compiler and runtime, with
proofs of what each is for. Every module models one source file or one concern
of it; code that updates state in place is a method over a mutable class or a
loop, proved against a specification function, and the properties are lemmas
about that function.

- **Formatter.** `SourceText`, `LineSpacing`, `SourceFormatter`: the token
  spacer reads each line through a small scanner (`Scan`), and `Formatted` is
  the whole text. Formatting twice is formatting once, for every text; only
  whitespace changes. `SourceLayout` says of the lines themselves which are
  shown and how far each is indented, `LineTokens` of the characters where a
  quoted run ends and where a space is put in.
- **Module discovery.** `ImportGraph`, `ModuleDiscovery` (sorting in
  `LexOrder`): a `Project` says what every path resolves to and imports.
  Discovery succeeds exactly when everything reachable loads and no import walk
  closes; a printed cycle is a real one. What is reachable is said by the imports
  of the sources, and the order found takes what was ready first, and of modules
  ready at once the lesser name.
- **Global promotion.** `Tir`, `ModuleLocals`, `PromotionSoundness`,
  `PromotionLimits`: a fuel-bounded semantics of the typed intermediate
  representation with frames, closures, exceptions, classes and an arbitrary
  primitive action on an arbitrary world. The pass preserves it, by a
  step-for-step simulation, where no class definition uses a new local, and
  need not where one does.
- **Tensor arena.** `TensorOps`, `TensorArena`, `ArenaResolution`,
  `ArenaHistory`, `TensorBufs`: generational handles, a free list and the lazy
  graph. `Eval` is the recursive meaning of a handle.
- **Type-argument inference.** `TypeTerms`, `TypeInference`: inference undoes
  the checker's own substitution, including the packing and spreading of rest
  parameters. Object and conditional types are substituted into, and inference
  sees nothing inside them. A parameter that meets several arguments offers the
  alternatives of each.
- **Definite assignment.** `ConstructorRuns` is an operational semantics of
  constructor bodies in which every test may go either way and every evaluation
  may throw, with `switch` and `try` as they are lowered
  (`crates/varn-emit/src/body/stmt_switch.rs:7-67`, `stmt_try.rs:69-161`); `AssignmentPaths` is an analysis proved exact for it;
  `DefiniteAssignment` is the source's walk and the exact extent of its
  guarantee. The semantics says by itself what a store assigns.
- **Codecs.** `NumberText`, `TypeDescCodec`, `TypeDescRoundTrip`,
  `TypeDescCursor`: the descriptor text code. `ByteCode`, `Artifact`,
  `StdImage`, `StdImageRoundTrip`, `Standalone`: the image inside the envelope
  inside the executable. `WireFormats` gives them byte by byte and tag by tag.
- **Runtime tables and arithmetic.** `StackRoots`: what is located and which
  slots a walk visits, over any series of registrations and any stack laid out
  in memory. `DecimalRounding`,
  `DecimalPower`. `AtomInterner`: the two tiers with shared bases as one table,
  and what its recorded collisions tell, over any history of interning, copying
  and absorbing.

Seven statements one would like to make of this code are false of it; each is
given here with an input that shows it, and with the condition under which it
holds:

- Promotion can change what a program does. The emitter numbers the temporaries
  of a class definition from zero in a table of its own, they are built in the
  top level's variables, and promotion hands out the same numbers:
  `TemporaryOverwritesVariable` prints 5 before and 1 after.
  `SafetyIsDecidedByClasses` for when it cannot happen, under
  `PromotionPreservesMeaning`.
- `resolve` in the arena can fail on a graph whose every node has a value:
  `DiamondDoesNotResolve`, reached from the empty arena by four calls, and
  `ResolveSucceeds` for when it does not.
- The walk that finds assigned fields ignores `return`: `EarlyReturnEscapes`,
  and `GuaranteeIsExact`.
- A descriptor with `;` in a class name does not survive its text:
  `TerminatorCutsName`, and `SurvivesIffClean`.
- The cycle report can end without a path although there is a cycle:
  `DiscoverTangled` (entry `b`, which imports `c`; `c` imports `b` and `a`), and
  the `TrailEnds` clause of `Reports`, which `Discover` ensures.
- A power of a whole decimal need not keep scale times exponent fractional
  digits, although its value is exact: `OneTimesHundred`, and
  `ScaleIsKeptExactly`.
- An interner without recorded collisions can hold texts that do not resolve to
  themselves, because absorbing returns early from a shared base before it takes
  the other's collisions over: `CollisionIsLost`, `LossHappens` and, on the
  objects, `LoseCollision`; `CollisionsAreExact` for when it does not, and
  `OwnTextsResolve` for the texts that always do.

Two branches of the source are never reached, and have no counterpart in the
methods: in inference, the arm that pairs a union parameter with a union
argument (`checker_type_inferences.rs:118-119`; the argument has been taken
apart before), and in `pow_decimal` the division by a zero power. `artifact.rs`
guards slice conversions that cannot fail, likewise.

## Model

| member | source | states |
|---|---|---|
| SourceText.TrimIsMiddle | crates/varn-core/src/fmt.rs:7-7 | trimming takes white space off both ends and leaves none there |
| SourceText.LinesRejoin | crates/varn-core/src/fmt.rs:6-6 | the lines of a text without carriage returns are the text cut behind every newline |
| LineSpacing.FormatLineTokens | crates/varn-core/src/fmt.rs:127-214 | the character loop computes the spacing function `FormatLine`, about which the lemmas below speak |
| LineSpacing.RespaceAgain | crates/varn-core/src/fmt.rs:131-213 | spacing the trimmed result of spacing, from any scanner state, gives it again and reads as the same tokens |
| LineSpacing.FormatLineAgain | crates/varn-core/src/fmt.rs:127-214 | a formatted line, trimmed and formatted again, is unchanged, stays (or stays not) a comment line and keeps its tokens |
| LineSpacing.RespaceSqueeze | crates/varn-core/src/fmt.rs:131-213 | spacing a line changes nothing but whitespace |
| LineSpacing.WellSpacedIsFixed | crates/varn-core/src/fmt.rs:147-210 | the spacer leaves a line alone if and only if it obeys every spacing rule |
| LineSpacing.FormatLineKeepsRules | crates/varn-core/src/fmt.rs:147-210 | every formatted code line obeys the spacing rules around commas, colons, comments, pipes and arrows |
| LineTokens.CommentLinesAreCopied | crates/varn-core/src/fmt.rs:127-130 | a line that begins like a comment is copied, any other is spaced |
| LineTokens.FirstToken | crates/varn-core/src/fmt.rs:147-210 | outside quoted runs, which characters make the first token a comment, a pair, a mark, a quote or itself |
| LineTokens.RunEnds | crates/varn-core/src/fmt.rs:136-161 | a quoted run reaches from a quote to the next like it before which an even number of backslashes stands, and code goes on behind it |
| LineTokens.RunGoesOn | crates/varn-core/src/fmt.rs:136-161 | without such a quote the run reaches to the end of the line |
| LineTokens.OneSpaceEach | crates/varn-core/src/fmt.rs:147-210 | between two characters and a comma, colon, arrow, pipe or trailing comment just one space is put in, and none around a path separator |
| SourceFormatter.CountLeadingClosers | crates/varn-core/src/fmt.rs:83-95 | the loop counts the closers before the first other visible character |
| SourceFormatter.CountBracesOutsideStrings | crates/varn-core/src/fmt.rs:97-125 | the loop counts braces and brackets outside quotes and before a line comment |
| SourceFormatter.ClosersByTokens | crates/varn-core/src/fmt.rs:83-95 | the leading closers depend only on the tokens of the line, so spacing cannot change them |
| SourceFormatter.BracesByTokens | crates/varn-core/src/fmt.rs:97-125 | the brace counts depend only on the tokens of the line, so spacing cannot change them |
| SourceFormatter.FormatSource | crates/varn-core/src/fmt.rs:1-50 | the line loop, with its indent, blank and comment state, computes `Formatted`, of which `LinesArePlaced` and the lemmas below speak |
| SourceLayout.InComment | crates/varn-core/src/fmt.rs:18-35 | a line is taken for part of a block comment exactly when one begins before it that no line in between ends |
| SourceLayout.IndentIsDepth | crates/varn-core/src/fmt.rs:43-44 | the indent before a line is the greatest sum of brackets opened less closed over the code lines from some line up to it: the running sum that never goes below zero |
| SourceLayout.LinesArePlaced | crates/varn-core/src/fmt.rs:1-50 | shown are the lines that say something and the first blank one behind such a line outside comments, in order; code stands formatted behind four spaces for every bracket open, less those it closes at its start, comment lines are copied behind four for each |
| SourceFormatter.FormatTwice | crates/varn-core/src/fmt.rs:1-50 | formatting is idempotent for every source text |
| SourceFormatter.FormatConservesContent | crates/varn-core/src/fmt.rs:6-45 | with whitespace deleted, output and input are the same text |
| SourceFormatter.FormatKeepsContents | crates/varn-core/src/fmt.rs:6-45 | line by line, comment lines are copied and code lines keep their tokens, quoted runs verbatim |
| SourceFormatter.BlankRunsCollapse | crates/varn-core/src/fmt.rs:8-16 | no two blank lines in a row are written, and none before the first text |
| ImportGraph.OrderedIsAcyclic | crates/varn-pipeline/src/module_precompile.rs:131-150 | an order with every importer before its imports rules out every closed import walk |
| ImportGraph.StuckHasCycle | crates/varn-pipeline/src/module_precompile.rs:152-160 | modules each imported by another of them contain a cycle, by pigeonhole |
| ImportGraph.StuckIsLeftover | crates/varn-pipeline/src/module_precompile.rs:131-156 | the modules that sorting leaves over are exactly those on a closed import walk or behind one |
| ModuleDiscovery.ResolveImports | crates/varn-pipeline/src/module_precompile.rs:56-64 | resolving collects the paths of the module imports, in order and as often as they occur, and fails exactly when one does not resolve |
| ModuleDiscovery.ClosureIsComplete | crates/varn-pipeline/src/module_precompile.rs:67-109 | a set that holds the entry and is closed under imports holds every reachable module |
| ModuleDiscovery.Explore | crates/varn-pipeline/src/module_precompile.rs:65-109 | the worklist builds the graph of exactly the reachable modules, or names a reachable one that does not load and why |
| ModuleDiscovery.InDegrees | crates/varn-pipeline/src/module_precompile.rs:111-119 | the counters are the numbers of import edges into each module |
| ModuleDiscovery.Release | crates/varn-pipeline/src/module_precompile.rs:135-144 | taking a module off lowers its imports' counters by their multiplicity and reports once each that reaches zero |
| ModuleDiscovery.TopologicalSort | crates/varn-pipeline/src/module_precompile.rs:121-150 | importers come first, no module twice, left over are exactly the modules on or behind a closed import walk; what was ready first comes first, and of modules ready at once the lesser name |
| ModuleDiscovery.TraceCycle | crates/varn-pipeline/src/module_precompile.rs:161-184 | the path search takes at most one step more than there are unsorted modules; it finds the first loop of the trail of first imports, a closed walk with distinct interior, unless the trail ends |
| ModuleDiscovery.TrailMayEnd | crates/varn-pipeline/src/module_precompile.rs:161-192 | whatever report the project of `DiscoverTangled` can be given lists `a`, `b` and `c` without a path, although `b` and `c` import each other |
| ModuleDiscovery.DiscoverTangled | crates/varn-pipeline/src/module_precompile.rs:32-207 | discovery of that project fails with the fallback message |
| ModuleDiscovery.ReportCycle | crates/varn-pipeline/src/module_precompile.rs:152-198 | the report follows the trail from the least module left over: a loop it closes, which is a genuine cycle of reachable modules, or else all that is left over, sorted |
| ModuleDiscovery.Discover | crates/varn-pipeline/src/module_precompile.rs:32-207 | success exactly when everything reachable loads and the import graph has no cycle; then the graph holds every module that a reachable one imports, each with its imports as written, and all are listed once, importers first; otherwise a reachable module that does not load is blamed, or the cycle is reported as `Reports` says, over exactly the modules on or behind a cycle |
| ModuleDiscovery.CompileOrder | crates/varn-pipeline/src/module_precompile.rs:288-294 | the reversed order compiles exactly the reachable parsed modules other than the entry, each after everything it imports |
| LexOrder.BelowIsLexicographic | crates/varn-pipeline/src/module_precompile.rs:127-145 | names compare by the first character in which they differ, a prefix first |
| ModuleLocals.TopLevelVariables | crates/varn-emit/src/module_locals.rs:7-36 | the names found are exactly those a non-ambient top-level variable binds to something other than a class expression |
| ModuleLocals.TirModule.Escaping | crates/varn-emit/src/module_locals.rs:62-73 | the slots found are exactly those that a function or class definition mentions |
| ModuleLocals.MentionedInStmts | crates/varn-emit/src/module_locals.rs:62-80 | a slot counts as mentioned by some code only if promoting it would change that code |
| ModuleLocals.TirModule.Candidates | crates/varn-emit/src/module_locals.rs:45-60 | the candidates are exactly the slots of unexported top-level variables, ascending |
| ModuleLocals.TirModule.Promote | crates/varn-emit/src/module_locals.rs:38-88 | exactly the candidate slots that do not escape get fresh locals, and the top level is rewritten at exactly their uses |
| PromotionSoundness.PromotionIsClosed | crates/varn-emit/src/module_locals.rs:62-80 | no function, closure or class definition can reach a promoted slot, nor any but a class definition a new local: the class definitions are the one condition left, in both directions |
| PromotionSoundness.PromotionPreservesMeaning | crates/varn-emit/src/module_locals.rs:38-88 | where no class definition mentions a new local, for every primitive action, world and step bound: same outcome, same world, same unpromoted globals; a promoted slot's value is its local's |
| PromotionLimits.TemporaryOverwritesVariable | crates/varn-emit/src/functions.rs:121-150 | a module whose class definition hoists an operand into local 0, to which promotion also moves a variable: the original prints 5, the promoted module 1 |
| PromotionLimits.SafetyIsDecidedByClasses | crates/varn-compiler/src/from_tir/build/class_def.rs:8-16 | over class definitions that set their temporaries before using them, promotion is safe for every top level if and only if none of them mentions a new local |
| TensorOps.ProductEntry | crates/varn-gpu/src/graph.rs:43-52 | entry (i, j) of the row-major product is row i times column j, summed left to right |
| TensorOps.MultiplyMatrices | crates/varn-gpu/src/graph.rs:43-53 | the triple loop writes the product |
| TensorOps.RunOp | crates/varn-gpu/src/graph.rs:11-56 | each operation gives its elementwise or matrix result, or the error of the first failing shape check |
| TensorOps.ApplyEntries | crates/varn-gpu/src/graph.rs:11-56 | an operation succeeds on exactly the shapes it accepts, and each entry of what it gives is a sum, a product, a multiple, or the products of row and column added up from the left |
| TensorArena.PackUnpack | crates/varn-gpu/src/arena.rs:35-44 | below epoch 2^31 a packed handle is positive and unpacks to what was packed |
| TensorArena.LateHandlesAreNegative | crates/varn-gpu/src/arena.rs:35-44 | a packed handle unpacks if and only if its epoch is below 2^31 |
| TensorArena.LiveHandlesAreDistinct | crates/varn-gpu/src/arena.rs:46-57 | no two live handles share a slot |
| TensorArena.PlaceKeeps | crates/varn-gpu/src/arena.rs:72-140 | a creation keeps the free list exactly the empty slots without repeats, gives a new handle its own slot and leaves every other handle as it was |
| TensorArena.ResolveIsSound | crates/varn-gpu/src/arena.rs:170-218 | a value that `resolve` returns is the recursive value before the call; whether it succeeds or fails midway, no handle's value changes |
| ArenaResolution.ResolveSucceeds | crates/varn-gpu/src/arena.rs:170-218 | `resolve` succeeds if and only if the handle has a value and every pending input comes after its consumer in the search order, which a handle with a value always has |
| ArenaResolution.TreesResolve | crates/varn-gpu/src/arena.rs:170-218 | if each reachable pending node has at most one pending consumer, `resolve` gives the handle's value |
| ArenaHistory.DestroyKeeps | crates/varn-gpu/src/arena.rs:142-147 | destroying kills one handle, keeps the free list exact and leaves every other handle as it was |
| ArenaHistory.CallRespects | crates/varn-gpu/src/arena.rs:72-218 | every call keeps the arena valid and what each handle issued before it denotes |
| ArenaHistory.CreationsMake | crates/varn-gpu/src/arena.rs:72-140 | what each creation puts under the handle it returns, in the slot freed last or a new one |
| ArenaHistory.FreedIsReused | crates/varn-gpu/src/arena.rs:72-147 | after a destruction the next creation takes the freed slot under a handle of its own; the old handle stays dead |
| ArenaHistory.FirstDeadIsFirst | crates/varn-gpu/src/arena.rs:113-125 | a lazy creation with dead inputs fails with the error of the first |
| ArenaHistory.HandlesOverHistory | crates/varn-gpu/src/arena.rs:35-218 | over any calls with fewer than 2^31 creations a handle is live exactly until it is destroyed, on its own slot, and never again after |
| ArenaHistory.UploadedIsReadBack | crates/varn-gpu/src/arena.rs:92-111 | an uploaded tensor is read back, and older handles keep their values |
| TensorBufs.Bufs.Get | crates/varn-gpu/src/arena.rs:46-57 | bad, destroyed and stale handles fail as such, others find their slot |
| TensorBufs.Bufs.Create | crates/varn-gpu/src/arena.rs:72-90 | a zeroed tensor is placed in the slot freed last, or a new one |
| TensorBufs.Bufs.Upload | crates/varn-gpu/src/arena.rs:92-111 | the given tensor is placed likewise |
| TensorBufs.Bufs.Lazy | crates/varn-gpu/src/arena.rs:113-140 | a pending node is placed if all its inputs are live; otherwise the first failure is returned and nothing changes |
| TensorBufs.Bufs.Destroy | crates/varn-gpu/src/arena.rs:142-147 | a live handle's slot is emptied and freed; otherwise the lookup's error and no change |
| TensorBufs.Bufs.Reshape | crates/varn-gpu/src/arena.rs:157-164 | dimensions are replaced exactly when the handle is live and their product is its length |
| TensorArena.VolumeOfJoin | crates/varn-gpu/src/arena.rs:157-164 | the number of entries is multiplicative over the dimensions |
| TensorBufs.Bufs.Resolve | crates/varn-gpu/src/arena.rs:170-218 | the worklist and evaluation loops, in place, compute `Resolve`; success is the recursive value and no handle's value changes |
| TensorBufs.DiamondDoesNotResolve | crates/varn-gpu/src/arena.rs:170-217 | four calls on an empty arena lead to a pending node shared by two consumers whose sum has a value but is not resolved |
| TypeTerms.SubstituteDependsOnOccurring | crates/varn-sem/src/types/type_algebra.rs:194-325 | substitution, into object members and through conditional types too, depends only on the names that occur in the type |
| TypeTerms.SubstituteRemoves | crates/varn-sem/src/types/type_algebra.rs:194-325 | no substituted name is left, wherever it stood: every name of the result stood there unsubstituted or came in with a substituted type |
| TypeTerms.UnionOffersAll | crates/varn-sem/src/types/type_impl.rs:188-264 | a union offers the alternatives of all its members and no others, and the error type absorbs the rest |
| TypeInference.NothingToInfer | crates/varn-checker/src/checker_type_inferences.rs:6-151 | a type without parameters binds nothing, whatever the argument |
| TypeInference.SecondBindingWidens | crates/varn-checker/src/checker_type_inferences.rs:33-39 | a bound parameter that meets another type offers the alternatives of both, and every other binding stays |
| TypeInference.ParameterOffersAll | crates/varn-checker/src/checker_type_inferences.rs:33-39 | a parameter that meets several arguments in turn offers the alternatives of each, the error type if one is |
| TypeInference.EachAlternativeCounts | crates/varn-checker/src/checker_type_inferences.rs:14-29 | of a union argument each alternative counts as an argument of its own |
| TypeInference.NothingIsLost | crates/varn-checker/src/checker_type_inferences.rs:6-151 | where no rest parameter is packed, matching never takes an alternative away from a bound parameter |
| TypeInference.PackUndoesSpread | crates/varn-checker/src/checker_type_inferences.rs:72-84 | a rest parameter that substitution spread into slots is packed back into the same tuple, and the other slots stay aligned |
| TypeInference.InferenceUndoesSubstitution | crates/varn-checker/src/checker_type_inferences.rs:6-151 | matching a type with its own instance adds exactly the seen parameters, each bound to what was substituted for it |
| TypeInference.InferenceRecoversSubstitution | crates/varn-checker/src/checker_type_inferences.rs:6-151 | from no bindings the substitution is recovered on all parameters that occur if and only if all are seen, and the bindings instantiate the type to the argument again |
| TypeInference.PlainInferenceIsExact | crates/varn-checker/src/checker_type_inferences.rs:40-108 | parameters only under arrays, generic arguments and functions without a pack: inference is exactly the substitution on those that occur |
| TypeInference.TupleHidesParameter | crates/varn-checker/src/checker_type_inferences.rs:134-150 | a parameter inside a tuple is substituted but never inferred |
| TypeInference.LaterAlternativesUnmatched | crates/varn-checker/src/checker_type_inferences.rs:14-29 | of a union parameter's alternatives only the first other than null can bind anything |
| TypeInference.PairingIsFirst | crates/varn-checker/src/checker_type_inferences.rs:109-133 | pairing the present alternatives with a lone argument is matching the first of them |
| TypeInference.Inferences.AddMissing | crates/varn-checker/src/checker_type_inferences.rs:85-98 | in whatever order a contravariant table is walked, its bindings are added where none stood |
| TypeInference.Inferences.CollectTypeInferences | crates/varn-checker/src/checker_type_inferences.rs:6-151 | the recursive walk that fills the table in place computes `Collect`, of which the lemmas above speak, and terminates although unions are distributed |
| TypeInference.Inferences.CollectFunction | crates/varn-checker/src/checker_type_inferences.rs:68-108 | function types: the pack, the paired parameters in fresh tables, then the return type |
| ConstructorRuns.JumpsLeave | crates/varn-core/src/ast/stmt.rs:29-99 | a jump without operands ends as such and assigns nothing |
| ConstructorRuns.LabelsCatch | crates/varn-core/src/ast/stmt.rs:29-99 | a labelled statement ends normally for breaks to its label and as its body does for everything else |
| ConstructorRuns.LoopsEnd | crates/varn-core/src/ast/stmt.rs:29-99 | a break ends the loop normally; any other way out of the body is handed on |
| ConstructorRuns.LoopsCatch | crates/varn-core/src/ast/stmt.rs:29-99 | no loop ends with a break or continue that was meant for it |
| ConstructorRuns.CasesDropBreak | crates/varn-emit/src/body/stmt_switch.rs:7-67 | a case runs its statements without the break that closes them |
| AssignmentPaths.EvalsSound | crates/varn-core/src/ast/destructure.rs:69-119 | every evaluation keeps what is assigned and, if it does not throw, assigns every field it must |
| AssignmentPaths.EvalsWithout | crates/varn-core/src/ast/destructure.rs:69-119 | an expression that need not assign a field has an evaluation that does not |
| AssignmentPaths.RunsAreForeseen | crates/varn-core/src/ast/stmt.rs:29-99 | a run that leaves a field unassigned ends in an outcome the analysis lists |
| AssignmentPaths.RunWithout | crates/varn-core/src/ast/stmt.rs:29-99 | every outcome listed has a run that leaves the field unassigned |
| DefiniteAssignment.AvoidIsExact | crates/varn-core/src/ast/stmt.rs:29-99 | the analysis lists an outcome if and only if some run ends so without the field |
| DefiniteAssignment.AssignedFields.WalkExpr | crates/varn-binder/src/definite_field_assignment.rs:127-145 | plain assignments add the fields among their targets, destructured or not |
| DefiniteAssignment.AssignedFields.WalkStmt | crates/varn-binder/src/definite_field_assignment.rs:147-192 | the walk adds exactly `Walked`: blocks join, branches intersect, other statements add nothing |
| DefiniteAssignment.ThisFieldIsWrittenSo | crates/varn-binder/src/definite_field_assignment.rs:19-30 | the targets recognised are exactly those written `this.f`, and what a run stores to them is that field |
| DefiniteAssignment.FoundIsWritten | crates/varn-binder/src/definite_field_assignment.rs:127-192 | a field is found only where `this.f` itself is a target, and in both branches of an `if` |
| DefiniteAssignment.FieldsAssignedOnEveryPath | crates/varn-binder/src/definite_field_assignment.rs:8-16 | every field returned is assigned at the end of every run that reaches the end of the body |
| DefiniteAssignment.AssignedAtNormalEnd | crates/varn-binder/src/definite_field_assignment.rs:8-16 | through branches, loops, switches, throws, catches and breaks, a run that ends normally has assigned every field of the walk |
| DefiniteAssignment.WalkIsExactWhenPlain | crates/varn-binder/src/definite_field_assignment.rs:147-172 | over blocks and branches of plain, possibly destructuring, assignments the walk finds exactly the fields that every run to the end assigns |
| DefiniteAssignment.GuaranteeIsExact | crates/varn-binder/src/definite_field_assignment.rs:147-192 | every completed run, returning early or not, assigns the fields found if and only if no `return` is reached before one of them |
| DefiniteAssignment.EarlyReturnEscapes | crates/varn-binder/src/definite_field_assignment.rs:173-190 | `if (c) { return; } this.x = ...` is said to assign `x` and may complete without |
| DefiniteAssignment.BodiesWithoutReturn | crates/varn-binder/src/definite_field_assignment.rs:8-16 | a body without `return` assigns the fields found on every completed run |
| NumberText.UnsignedReadsBack | crates/varn-core/src/type_desc.rs:102-102 | a number's decimal digits parse to it below the limit |
| NumberText.IntReadsBack | crates/varn-core/src/type_desc/literal.rs:7-11 | a 64-bit integer's text parses to it |
| NumberText.NoLeadingZero | crates/varn-core/src/type_desc.rs:102-102 | a number other than zero is written without leading zeros |
| TypeDescRoundTrip.LiteralRoundTrip | crates/varn-core/src/type_desc/literal.rs:4-46 | a literal is read back off the front of any text |
| TypeDescRoundTrip.RoundTrip | crates/varn-core/src/type_desc.rs:62-261 | a clean descriptor is read back off the front of any text, and the rest is left |
| TypeDescRoundTrip.ReadIsClean | crates/varn-core/src/type_desc.rs:174-261 | whatever is read holds no `;` in a class, enum or enclosing name |
| TypeDescRoundTrip.SurvivesIffClean | crates/varn-core/src/type_desc.rs:56-164 | `decode(encode(t))` is `t` if and only if no class, enum or enclosing name holds `;`; field names are arbitrary |
| TypeDescRoundTrip.RewritingIsStable | crates/varn-core/src/type_desc.rs:160-261 | any text that decodes is re-encoded to one that decodes to the same |
| TypeDescRoundTrip.PrefixFree | crates/varn-core/src/type_desc.rs:62-158 | no encoding is a prefix of another, and none stands for two descriptors |
| TypeDescRoundTrip.TerminatorCutsName | crates/varn-core/src/type_desc.rs:100-106 | a class name with `;` is read back up to it, leaving the rest as trailing text |
| TypeDescCursor.Writer.EncodeInto | crates/varn-core/src/type_desc.rs:62-158 | pushing onto the string appends exactly the encoding |
| TypeDescCursor.Reader.Until | crates/varn-core/src/type_desc.rs:167-172 | the cursor passes the first stop character and gives what stood before it |
| TypeDescCursor.Reader.ReadLiteral | crates/varn-core/src/type_desc/literal.rs:26-46 | the cursor reads a literal as the parsing function does |
| TypeDescCursor.Reader.ReadOne | crates/varn-core/src/type_desc.rs:174-261 | the cursor, with its counted loops, reads a descriptor as the parsing function does |
| TypeDescCursor.WriteThenRead | crates/varn-core/src/type_desc.rs:56-164 | writing and reading with the string and the cursor gives the descriptor back exactly when it is clean |
| WireFormats.LeafTexts | crates/varn-core/src/type_desc.rs:62-75 | the texts of the ten descriptors without parts |
| WireFormats.WrapperTags | crates/varn-core/src/type_desc.rs:75-117 | the letter of each descriptor with one part |
| WireFormats.OpeningTags | crates/varn-core/src/type_desc.rs:79-139 | the letters of maps and of named descriptors, and how number and name stand behind them |
| WireFormats.DescriptorParts | crates/varn-core/src/type_desc.rs:92-131 | counted parts, with and without the rest of an argument list |
| WireFormats.FieldFlags | crates/varn-core/src/type_desc.rs:140-158 | a field, its length in bytes and the character for its two flags |
| WireFormats.LiteralTexts | crates/varn-core/src/type_desc/literal.rs:4-24 | the texts of the four kinds of literal |
| ByteCode.LeReadsBack | crates/varn-modules/src/artifact.rs:252-263 | a little-endian word of sufficient width reads back |
| ByteCode.FromLeWritesBack | crates/varn-modules/src/artifact.rs:272-303 | the bytes of a word are those its value is written as |
| Artifact.WriteArtifact | crates/varn-modules/src/artifact.rs:252-263 | appending the header fields and the payload gives the envelope |
| Artifact.ReadsEnvelope | crates/varn-modules/src/artifact.rs:265-314 | an envelope of any build opens with the first mismatch of kind, schema, producer and checksum, or its payload |
| Artifact.ReadExactlyWritten | crates/varn-modules/src/artifact.rs:265-314 | reading succeeds on exactly the byte strings this build writes for that kind, with their payload |
| Artifact.ReadWritten | crates/varn-modules/src/artifact.rs:252-321 | a written artifact reads back, and its identity is the payload's fingerprint |
| Artifact.OtherBuild | crates/varn-modules/src/artifact.rs:140-145 | another build accepts an artifact if and only if the schema agrees and, for a cached one, the producer |
| StdImage.WriteImage | crates/varn-modules/src/std_image.rs:98-142 | sorting, placing and table writing give the layout `Payload` in an envelope, with words truncated to 32 bits |
| StdImageRoundTrip.ParseImage | crates/varn-modules/src/std_image.rs:23-55 | the cursor loops read the table, the sections and the order check as the parsing function does |
| StdImageRoundTrip.PayloadReadsBack | crates/varn-modules/src/std_image.rs:26-54 | every offset and length of a written payload locates its section |
| StdImageRoundTrip.SortedIsAscending | crates/varn-modules/src/std_image.rs:46-48 | the sorted table is strictly ascending if and only if the ids are distinct |
| StdImageRoundTrip.ParsesWhatWasWritten | crates/varn-modules/src/std_image.rs:23-142 | below 2^32 bytes a written image parses to its version, host number and sorted modules if the ids are distinct, and is rejected as unsorted otherwise |
| StdImageRoundTrip.Lookup | crates/varn-modules/src/std_image.rs:57-62 | binary search agrees with a linear search |
| StdImageRoundTrip.FindsEveryModule | crates/varn-modules/src/std_image.rs:57-62 | every module written is found under its id |
| Standalone.WriteExecutable | crates/varn-cli/src/standalone.rs:73-95 | runtime, image, envelope, both lengths and magic, in this order |
| Standalone.DetectsWhatWasWritten | crates/varn-cli/src/standalone.rs:18-52 | whatever the runtime's bytes, a written executable finds its image and its graph |
| Standalone.DetectedWasSealed | crates/varn-cli/src/standalone.rs:18-52 | anything detected was sealed: the file is some bytes, that image, an envelope reading as that graph, and the trailer |
| Standalone.EmbeddedImageParses | crates/varn-cli/src/standalone.rs:34-52 | the image found in an executable parses to the modules it was written from |
| WireFormats.LeAt | crates/varn-modules/src/artifact.rs:252-263 | the bytes of a word stand least significant first |
| WireFormats.EnvelopeBytes | crates/varn-modules/src/artifact.rs:252-263 | every byte of an envelope: letters, version, kind, class, schema, stamp, checksum, payload |
| WireFormats.ImageTable | crates/varn-modules/src/std_image.rs:98-142 | every word of an image table, and that it says where the section stands |
| WireFormats.ExecutableBytes | crates/varn-cli/src/standalone.rs:73-95 | every byte that sealing adds behind runtime, image and envelope |
| StackRoots.FloorIsScan | crates/varn-jit/src/stack_roots.rs:46-51 | with disjoint nonempty ranges, the greatest start up to an address and its end decide membership in any range |
| StackRoots.ScanSorted | crates/varn-jit/src/stack_roots.rs:28-29 | sorting the location table does not change what a scan for the last entry up to an offset finds |
| StackRoots.ScanAtPartition | crates/varn-jit/src/stack_roots.rs:52-54 | on a sorted table the entry before the partition point is what the scan finds |
| StackRoots.PartitionPoint | crates/varn-jit/src/stack_roots.rs:53-53 | binary search splits a sorted table at the offset |
| StackRoots.SitesSorted | crates/varn-jit/src/stack_roots.rs:28-28 | sorting the safepoints keeps what they record for every return offset |
| StackRoots.SlotsFor | crates/varn-jit/src/stack_roots.rs:88-94 | binary search finds slots recorded for a return offset, and none when there are none |
| StackRoots.CodeRegistry.Register | crates/varn-jit/src/stack_roots.rs:21-39 | a range with sorted tables is stored at its start, replacing what stood there |
| StackRoots.CodeRegistry.Unregister | crates/varn-jit/src/stack_roots.rs:62-64 | the range at a start is removed |
| StackRoots.CodeRegistry.Locate | crates/varn-jit/src/stack_roots.rs:46-59 | range and table lookups compute `Locating` |
| StackRoots.CodeRegistry.ForEachSlot | crates/varn-jit/src/stack_roots.rs:73-101 | visits exactly the slots recorded for the compiled frames, in their frames, up to the first other return address, and stops there |
| StackRoots.LocateIsLinearScan | crates/varn-jit/src/stack_roots.rs:46-59 | inside a range, locating is a linear scan of the locations as they were registered |
| StackRoots.FrameRecordsRegistered | crates/varn-jit/src/stack_roots.rs:86-96 | a frame's slots are those its code was registered with for the return offset, wherever the record stood, and none without a record |
| StackRoots.CompiledIffContained | crates/varn-jit/src/stack_roots.rs:82-87 | over disjoint ranges a return address is taken for compiled code exactly when some range holds it |
| StackRoots.WalkIsDetermined | crates/varn-jit/src/stack_roots.rs:81-100 | where the walk stops is determined by the frame chain, and what it visits too when no return offset has two records |
| StackRoots.HistoryStaysDisjoint | crates/varn-jit/src/stack_roots.rs:21-64 | after any calls that register code where no other live code lies, the ranges are disjoint |
| StackRoots.LocateOverHistory | crates/varn-jit/src/stack_roots.rs:21-64 | after any such calls, locating scans the locations of the registration in force |
| StackRoots.NothingElsewhere | crates/varn-jit/src/stack_roots.rs:46-51 | away from all code in force nothing is located |
| StackRoots.RootsOverHistory | crates/varn-jit/src/stack_roots.rs:21-101 | after any such calls a walk visits exactly the slots that the code in force at each return address was registered with, none where it has no record, up to the first return address without code in force |
| StackRoots.WalkMeetsStack | crates/varn-jit/src/stack_roots.rs:73-101 | over a stack laid out in memory, with each saved frame pointer, return address and caller in its place, a walk meets exactly its activations and visits each recorded slot above the stack pointer of its own |
| DecimalRounding.Increment | crates/varn-core/src/numeric.rs:53-68 | the carry loop computes the incremented digits, growing a leading one when all are nines |
| DecimalRounding.IncrementedAddsOne | crates/varn-core/src/numeric.rs:53-68 | the carry adds exactly one unit in the last place |
| DecimalRounding.FloatToFixed | crates/varn-core/src/numeric.rs:45-81 | the text reads back as the magnitude rounded to the nearest last-place unit, ties away from zero, with the sign of a value that is not zero |
| DecimalRounding.RoundedIsNearest | crates/varn-core/src/numeric.rs:49-68 | for every exact expansion the digits are the nearest number of last-place units, a tie going away from zero |
| DecimalRounding.WrittenReadsBack | crates/varn-core/src/numeric.rs:69-80 | the text denotes the rounded magnitude with exactly the digits asked for |
| DecimalPower.MulEquals | crates/varn-core/src/numeric_big.rs:38-46 | of factors that are not zero the product is exact whatever fractional digits were dropped |
| DecimalPower.MulKeepsDigits | crates/varn-core/src/numeric_big.rs:38-46 | if the scales add up to more than zero, the product keeps all fractional digits of both factors |
| DecimalPower.PowerBySquaring | crates/varn-core/src/numeric_big.rs:110-121 | squaring computes the exact power, and keeps scale times exponent digits if the base has a fractional digit or is whole and does not end in zero |
| DecimalPower.OneTimesHundred | crates/varn-core/src/numeric_big.rs:38-46 | with a product that drops trailing zeros when a factor is one, 1 times 100 and 100 to the first power come out as 1 at scale -2 |
| DecimalPower.ScaleIsKeptExactly | crates/varn-core/src/numeric_big.rs:110-121 | with that product, and with every exact one, a base without negative scale keeps the power's digits if and only if it has a fractional digit or does not end in zero |
| DecimalPower.UnitPowerAgrees | crates/varn-core/src/numeric_big.rs:93-107 | for plus and minus one the shortcut gives the value, sign and scale that squaring gives |
| DecimalPower.PowDecimal | crates/varn-core/src/numeric_big.rs:74-127 | each fault exactly when its check fails; otherwise the exact power, with its digits where the base keeps them, or its quotient into one |
| DecimalPower.ToIntegerIsExact | crates/varn-core/src/numeric_big.rs:75-78 | the exponent is the integer that the decimal denotes, and it is refused exactly when it denotes none |
| DecimalPower.OversizedCounts | crates/varn-core/src/numeric_big.rs:91-109 | a power is refused as too large exactly when the decimal digits of the base, or the scale of a unit, times the exponent pass 2^22 |
| AtomInterner.Interner.Freeze | crates/varn-core/src/atom.rs:50-57 | the delta moves into a new base, unless it is empty, and nothing that can be seen changes |
| AtomInterner.Interner.Clone | crates/varn-core/src/atom.rs:31-36 | a copy holds the same and shares the base |
| AtomInterner.Interner.Insert | crates/varn-core/src/atom.rs:59-73 | the first text of an atom stays, another is recorded at the end; a new atom goes to the delta, which is frozen into a new base when full |
| AtomInterner.Interner.Intern | crates/varn-core/src/atom.rs:75-79 | afterwards the atom resolves to the text, or the pair is recorded as a collision |
| AtomInterner.Interner.Get | crates/varn-core/src/atom.rs:81-84 | a text is known exactly when its atom resolves to it |
| AtomInterner.Interner.Len | crates/varn-core/src/atom.rs:127-129 | the sizes of the tiers add up to the size of the flat table |
| AtomInterner.Interner.Absorb | crates/varn-core/src/atom.rs:98-121 | a left-biased union through both shortcuts and whatever order the merge takes; the collisions, tiers and base afterwards, with nothing taken over when there is nothing to add to a shared base |
| AtomInterner.ResolvedForGood | crates/varn-core/src/atom.rs:59-121 | through interning, copying and absorbing, an atom once resolvable keeps its text and recorded collisions stay in place |
| AtomInterner.PutAllMeans | crates/varn-core/src/atom.rs:116-118 | entries put in turn, in whatever order, add those of new atoms and record exactly the clashing ones |
| AtomInterner.OriginHoldsBase | crates/varn-core/src/atom.rs:99-104 | bases made at the same point of a history hold the same, so that sharing one means holding what it holds |
| AtomInterner.TiersAreFlat | crates/varn-core/src/atom.rs:43-121 | over any history the tiers, shared bases and shortcuts hold what one flat table would in which the first text of an atom stays |
| AtomInterner.CollisionsAreExact | crates/varn-core/src/atom.rs:59-121 | over any history: no collision is recorded and none was lost if and only if no two texts share an atom; and while none is recorded, every text resolves to itself if and only if no absorbing returned early from an interner that had recorded one |
| AtomInterner.OwnTextsResolve | crates/varn-core/src/atom.rs:75-121 | while no collision is recorded, the texts an interner was given itself resolve to themselves, whatever it absorbed |
| AtomInterner.CollisionIsLost | crates/varn-core/src/atom.rs:98-102 | for any hash: an interner with a full base absorbs a copy of itself that met a colliding text; nothing is recorded and the text does not resolve to itself |
| AtomInterner.LossHappens | crates/varn-core/src/atom.rs:98-102 | a hash and texts for which it happens |
| AtomInterner.LoseCollision | crates/varn-core/src/atom.rs:98-102 | the same on the objects: copying, interning the clashing text and absorbing the copy leave the interner as it was, and the text unknown |
| AtomInterner.ResolvesIffInjective | crates/varn-core/src/atom.rs:59-121 | over any history every text resolves to itself if and only if no two of them share an atom |

## Left out

- File system, processes, environment and network: reading modules, package lookup, pruning, atomic rename, permissions. A `Project` stands for what reading and resolving give; executables and images are byte sequences.
- `apply_indent_style` and `doc.rs`.
- `try_gpu` and the GPU backend, taken as declining; element arithmetic is uninterpreted, so IEEE rounding is not modelled, only the order of operations.
- Products and sums of tensor dimensions are unbounded; the source's wrap on 64-bit overflow is not modelled.
- Promotion: names that resolve dynamically are part of the primitive action, since they are never module globals (`crates/varn-emit/src/body/name_resolution.rs:76-104`); `async`, generators and coercion of typed locals are not modelled; fresh locals and fresh globals start with the same value; runs are bounded by an arbitrary step count.
- `walk::function_exprs_mut` and `class_def_exprs_mut`, whose bodies are assumed to visit every expression.
- Discovery: the hash iteration order over the graph is fixed where it cannot be observed; source hashes and package nodes are not kept.
- Types: what a conditional type comes to when the type it tests has changed is an arbitrary function of its four parts (`Evaluate`); the kinds that neither substitution nor inference looks into are one. Defaults of type parameters are not part of a function type.
- Definite assignment: getters, setters and calls that assign fields behind the walk's back; `super` calls; disposal at the end of `using`. Which tests can really go both ways is not decided: the exactness is over runs in which each may. `crates/varn-checker/src/checker/definite_assignment/ctor_flow.rs` is another analysis and not part of this model.
- The memory that `decode_one` reserves for an announced count.
- Image strings are byte sequences with UTF-8 validity as a parameter; the hash, the build's fingerprints and the graph's own encoding are parameters.
- Stack roots: locking, and the contents of frames; memory is a function from addresses to words, and addresses do not wrap.
- `float_to_fixed` of values that are not finite, and the correctness of the exact expansion it starts from.
- DecimalPower.PowDecimal: the quotient for negative exponents is a parameter, because `div_decimal` rounds in the decimal library.
- StackRoots.SlotsFor: of several safepoints for one return offset finds one, because which of them a binary search meets is not specified.
- StackRoots.LocateIsLinearScan: is stated for ranges that hold code; an empty range inside another would hide what lies behind it, as `FloorIffNothingBetween` in `StackRoots` shows.
- Atoms: the hash is an arbitrary function. `resolve`, which panics where `try_resolve` finds nothing, is not a member of its own.
- PromotionLimits.SafetyIsDecidedByClasses: the direction from safety to the class definitions takes each of them that mentions a new local to set it before using it, which is how the emitter uses a temporary; where one only read a local that nothing sets, the two modules may agree by chance.
- DecimalPower.ScaleIsKeptExactly: is stated for bases without negative scale; below zero the value is exact by `PowerBySquaring`, and the digits are the library's.
- TensorArena.LiveHandlesAreDistinct: holds of valid arenas, which histories of fewer than 2^31 creations keep; later ones hand out handles that do not unpack.
