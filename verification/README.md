# The Kconfig expression engine and the kernel scheduler, in Dafny

The repository holds a small operating system and the Kconfig program that configures it. This
project models their two hardest parts and proves what they promise. `dafny verify dfyconfig.toml`
checks all of it.

**The Kconfig expression engine and the passes built on it** (`kconfig/`). Dependency conditions are
expressions over n < m < y with &&, ||, ! and string comparison. A well-formed environment gives
boolean symbols n or y, tristate symbols n, m or y (never m with modules off), every other symbol
the tristate value n and any text, and quoted constants pairwise different texts that are not "n",
"m" or "y". `Val` is `expr_calc_value`, and every rewrite is measured against it.

| file | what it holds |
|---|---|
| `Expr`, `Transform`, `EliminateEq`, `Joins`, `Compare` | the meaning of expressions and the rewrites as functions, with their theorems |
| `Equality` | which expressions expr_eq calls equal |
| `Spine`, `Dups`, `DupsNormal`, `DupsDone`, `DupsTwice` | duplicate elimination as functions: slots of one chain as paths, the two passes and the rounds, what they do to the normal form, what is left when they are done, and a chain combined with itself |
| `InPlace`, `InPlaceEq`, `InPlaceSlots`, `InPlaceDups`, `InPlaceDeps` | the rewrites on linked nodes, changed in place, each proved equal to its function; two slots of one chain alias parts of the same tree |
| `Property`, `MenuDeps`, `MenuEntry`, `MenuForest` | what an entry's block says and the entry it becomes, what the literal m means there, and the tree of linked entries |
| `MenuConditions`, `Dependencies`, `MenuNarrow` | the conditions handed down the tree, and the direct and reverse dependencies gathered on the way |
| `MenuNesting`, `MenuShape`, `MenuFinished` | nesting and hoisting as functions on trees, and what the finished menu looks like |
| `MenuHoist`, `MenuFinalize`, `MenuWalk` | the same on linked entries, and the loop that writes the entries out |
| `MenuExact` | what the finished conditions are worth, with modules and without |
| `SymbolValue`, `Evaluator`, `SymbolTable` | the equations that define the values, the memoising evaluator as functions, and the table of symbols it runs on |
| `DepCheck`, `CheckedEvaluation`, `MenuGraph` | the search for recursive dependencies, evaluation after it, and the graph of a finished menu |
| `MenuMeaning`, `Configure` | the values of a menu in terms of its entries alone, and all of it from the menu as read to the values |
| `Printer`, `Escape` | printing against the grammar of `zconf.y`, and escaping against unescaping in a buffer |

**The kernel scheduler** (`kernel/`, `include/list.h`, `driver/timer/`).

| file | what it holds |
|---|---|
| `Ring`, `ThreadRings` | the doubly linked rings of list nodes, and the scheduler's queues as such rings with one node for each thread |
| `Timer`, `TimerTick` | the sorted queue of timers, and the tick that fires those that are due while their callbacks cancel and set others |
| `PlatformTimer` | the fixed-point arithmetic of the hardware tick |
| `SchedulerState`, `SchedulerOps`, `SchedulerSteps`, `SchedulerTick` | every operation as a function from state to state; each keeps the global invariant |
| `SchedulerRuns`, `SchedulerRest`, `SchedulerTime`, `SchedulerWait`, `SchedulerJoin`, `SchedulerTurn`, `SchedulerQuantum` | all operations as one step system, and what holds over whole runs: the invariant, sleeps, timed waits, joins, turns, quanta |
| `SchedulerOutcomes`, `SchedulerEffects`, `SchedulerWaking`, `SchedulerAsks` | what each operation comes to: who runs after it, what becomes of the threads it is about, and when a tick asks for rescheduling |
| `SchedulerLimits` | who must not call the operations |
| `Scheduler` | the scheduler as it runs: a class whose fields and rings the entry points change step by step, each proved equal to its function |

`Common` holds what both parts use.

## Which rewrites are exact

* In all three values: `EliminateYn`, `Transform`, `EliminateEq` (it reflects the order both ways),
  the joins, the first duplicate pass, and `CheckDep`, which makes m mean m && MODULES.
* Wherever the value is not m: the second duplicate pass. (A || B) && (!A && !B) with A and B at m is
  m and becomes n; the rule that does this is right exactly when the chain's value is not m
  (`ContradictionRuleExactness`, `ContradictionRuleLosesMod`). With every symbol n or y and without
  the literal m this is every expression (`SharpensIsExactInTwoValues`).
* `TransCompare` is exact for expressions without negation, and for all expressions in two values;
  under one negation exactly when the operand is not m (`NegationComparedExactlyWhen`).
* `TransBool` never raises a value and keeps n, on the normal form; below a negation it never lowers one
  and keeps y (`TransBoolBelowNegation`). A test t != n keeps its value exactly when t is not m, below a
  negation or not (`TransBoolOfTest`).

## Where the code differs from its names and comments

The model follows the code.

* `list_add_head` appends, like `list_add_tail` (include/list.h:41-57), so "insert at the head of the
  run queue" puts a thread behind all others of its priority: a preempted thread that still has time
  left gives way like one that yields (`ParkedGivesWay`).
* The scheduler looks for the lowest set bit (kernel/thread.c:178-207), so priority 0 runs before
  priority 31, which is called HIGHEST_PRIORITY (`PicksLowestPriority`).
* `expr_eq` pairs operands greedily and then compares what is left after removing constants. Without constant
  operands it decides equality up to order and grouping (`ExprEqExactlyWhen`). With them it is not transitive,
  and two parts of a chain may not change places (`ChainsWithConstants`, `SwappedPartsUnequal`), unless neither is
  itself a chain of that connective (`SwappedOperandsEqual`).
* In `expr_eliminate_dups2` the branch that splits the second operand does not return
  (kconfig/expr.c:573-576): the whole chain is then tried as the second operand.
* The boot thread is what `get_new_thread` falls back on from the start, before it is marked idle. It
  passes the assertions of thread_sleep and thread_exit, and wait_queue_block has none, yet these
  three keep the invariant exactly if the caller is not that thread (`SchedulerLimits`).
* `sym_check_deps` returns a symbol only to callers on its own stack: the frame of that symbol turns it
  into NULL. So `conf_parse`, which counts what comes back (kconfig/zconf.y:510-513), always counts 0: a
  recursion outside choices is printed and never refused (`CheckAll`).
* `sym_check_deps` does not look at `dir_dep`, which the evaluator uses. It misses nothing: every
  definition of a symbol comes with a property of kind P_SYMBOL, to which `menu_finalize` gives the
  condition of the entry, and the check does follow that (`DirectIsEdge`).
* `thread_join` takes only a negative code for a failure (kernel/thread.c:409-413), but the codes of
  `wait_queue_block` are positive. A join whose time is up, or whose thread is detached meanwhile, frees
  the thread it waited for as if that were dead; with a timeout of zero it does so at once
  (`JoinAtOnceKeepsInvExactlyWhen`). A second joiner frees the slot again: that changes nothing while the
  slot is still free (`SecondJoinerChangesNothing`), and does harm if `thread_create` has used it again,
  exactly as `FreeingKeepsInvExactlyWhen` says of the thread that has it then.
* `wait_queue_wake_one` queues the caller before it wakes another, also when that is the idle thread, which
  no other operation queues; the invariant survives exactly if the idle thread is then the next to run
  (`WakeByIdleKeepsInvExactlyWhen`).
* Setting the value a symbol already shows succeeds without the range check (kconfig/symbol.c:493-501).
  Such a value survives the next recomputation exactly under the condition of
  `SettingShownValueKeptExactlyWhen`; a default above the visibility of the prompt is one that does not
  (`ShownValueIsLost`).

## Model

| member | source | states |
|---|---|---|
| KconfigExpr.AllocAnd | kconfig/expr.c:54-59 | conjunction of two possibly absent expressions has the minimum of their values, an absent one counting as y |
| KconfigTransform.EliminateYnExact | kconfig/expr.c:237-318 | removing constant operands keeps the value in every environment |
| KconfigTransform.EliminateYnProgress | kconfig/expr.c:237-318 | it leaves no constant operand outside negations, shrinks the tree strictly if there was one, and otherwise changes nothing: the fact that ends the fixpoint loop |
| KconfigTransform.Transform | kconfig/expr.c:642-777 | the transformation terminates by a weight that counts negations double, and yields the normal form: negation only over a non-constant symbol, no boolean symbol compared with y, m or n |
| KconfigTransform.TransformExact | kconfig/expr.c:642-777 | it keeps the value in every well-formed three-valued environment |
| KconfigTransform.TransformIdempotent | kconfig/expr.c:642-777 | a second run changes nothing |
| KconfigTransform.TransformKeepsNoMod | kconfig/expr.c:642-777 | it introduces no literal m |
| KconfigTransform.TransBoolKeepsVisible | kconfig/expr.c:323-347 | on the normal form, the value after dropping "!= n" is n exactly when it was, and never higher |
| KconfigTransform.TransBoolBelowNegation | kconfig/expr.c:323-347 | below a negation it is the other way round: y stays y, no value falls, and the value is kept exactly where it is kept without the negation |
| KconfigTransform.TransBoolOfTest | kconfig/expr.c:331-335 | a single test t != n keeps its value exactly when t is not m, below a negation or not |
| KconfigTransform.TransBoolDropsTests | kconfig/expr.c:323-347 | it leaves no such test anywhere, and changes nothing if there is none |
| KconfigTransform.TransBoolExact | kconfig/expr.c:323-347 | with every symbol n or y the value is kept for every expression |
| KconfigEliminateEq.Cancel | kconfig/expr.c:136-168 | the mutual recursion with expr_eq terminates, no side grows, and a chain stays a chain |
| KconfigEliminateEq.CancelSound | kconfig/expr.c:136-168 | what is cancelled has one common value, which both results combine with to give both inputs |
| KconfigEliminateEq.EliminateEqReflectsOrder | kconfig/expr.c:170-190 | the order of the two results' values, either way round, is that of the inputs in every environment |
| KconfigEliminateEq.ExprEqSound | kconfig/expr.c:195-235 | expressions that expr_eq calls equal have equal values in every environment |
| KconfigEliminateEq.CancelledToYesMeansImplied | kconfig/menu.c:352-361 | if cancelling leaves y of the second expression, the first implies it in every environment |
| KconfigEliminateEq.ExtractCommonExact | kconfig/expr.c:832-881 | the extracted common part combined with each remainder gives back each input |
| KconfigEquality.ExprEqReflexive | kconfig/expr.c:195-235 | every expression is equal to itself, constants or not |
| KconfigEquality.ExprEqSymmetric | kconfig/expr.c:195-235 | the answer is the same either way round |
| KconfigEquality.ExprEqTransitive | kconfig/expr.c:195-235 | without constant operands, expressions that equal the same one are equal |
| KconfigEquality.ExprEqExactlyWhen | kconfig/expr.c:195-235 | without constant operands, two chains are equal exactly if they have every operand equally often, in whatever order and grouping |
| KconfigEquality.SwappedPartsEqual | kconfig/expr.c:195-235 | so any two parts of a chain may change places |
| KconfigEquality.RegroupedEqual | kconfig/expr.c:195-235 | and may be grouped either way |
| KconfigEquality.SwappedOperandsEqual | kconfig/expr.c:195-235 | two operands that are no chains of the connective may change places with or without constants |
| KconfigEquality.SwappedPartsUnequal | kconfig/expr.c:195-235 | with constants, two parts of a chain that may not: which operands are paired depends on the order |
| KconfigJoins.JoinOrExact | kconfig/expr.c:352-414 | every join of two operands of an or-chain has the maximum of their values, in all three values |
| KconfigJoins.JoinAndExact | kconfig/expr.c:416-508 | every join of two operands of an and-chain has the minimum of their values, in all three values |
| KconfigJoins.ComparisonsJoin | kconfig/expr.c:352-508 | of two comparisons of a tristate symbol with constants, two equalities of an or-chain are joined, and in an and-chain any two that are not both equalities |
| KconfigJoins.SymbolAndTestJoin | kconfig/expr.c:352-508 | so are a symbol and a test that it is y, not n or not m in an and-chain, and a boolean symbol and its negation in an or-chain |
| KconfigDups.MergeExact | kconfig/expr.c:534-556 | putting the join in one operand's place and the unit in the other's keeps the meaning of the whole chain, wherever the two stand |
| KconfigDups.Dups1Exact | kconfig/expr.c:510-560 | the first pass keeps the meaning in every three-valued environment; a constant operand is left behind if it rewrote anything, and otherwise no two of the operands compared can be joined |
| KconfigDups.Dups2Exact | kconfig/expr.c:562-616 | the second pass keeps the meaning wherever the value is n or y; a constant operand is left behind if it rewrote anything, and otherwise nothing changes |
| KconfigDups.EliminateDupsExact | kconfig/expr.c:618-640 | the rounds end, keep every definite value, never grow the tree, and leave no two operands of one chain that can be joined |
| KconfigDups.CleanHasNoEqualOperands | kconfig/expr.c:618-640 | on the result no two operands of one chain are equal by expr_eq |
| KconfigDupsDone.NoOperandTwice | kconfig/expr.c:618-640 | nor are two of them the same tree |
| KconfigDupsDone.NoOperandSwapped | kconfig/expr.c:618-640 | nor the same but for the order of their own two parts |
| KconfigDupsDone.EliminateDupsQuiet | kconfig/expr.c:562-640 | and none, at any depth, contradicts the chain it stands in |
| KconfigDupsDone.ContradictsExactlyWhen | kconfig/expr.c:580-608 | without constants, an operand contradicts a chain exactly if the chain has all the operands of its transformed negation, each as often |
| KconfigDupsTwice.TwiceIsOnce | kconfig/expr.c:510-640 | if no operands of a chain can be joined, two copies of it under either connective come out no larger than one |
| KconfigDupsTwice.SimplifiedTwice | kconfig/expr.c:618-640 | so a simplified condition combined with itself does not grow |
| KconfigDupsNormal.EliminateDupsNormal | kconfig/expr.c:618-640 | a conjunction of conditions in normal form stays in normal form, through both passes and every join |
| KconfigDupsNormal.EliminateDupsIdempotent | kconfig/expr.c:618-640 | a second run changes nothing |
| KconfigDups.SharpensIsExactInTwoValues | kconfig/expr.c:618-640 | without the literal m and with every symbol n or y the value is kept |
| KconfigDups.ContradictionRuleExactness | kconfig/expr.c:580-608 | the rule that replaces a contradicted operand keeps the chain's value exactly when that value is not m |
| KconfigDups.ContradictionRuleLosesMod | kconfig/expr.c:580-608 | the expression and the environment in which the rule turns m into n |
| KconfigInPlace.EliminateYnInPlace | kconfig/expr.c:237-318 | the in-place pass leaves in the same root node the tree that the function gives, using only nodes of the old tree, none shared |
| KconfigInPlace.TransformInPlace | kconfig/expr.c:642-777 | the in-place pass returns a tree that is the function's result, built of old nodes and new ones, none shared |
| KconfigInPlace.TransBoolInPlace | kconfig/expr.c:323-347 | the in-place pass keeps every node where it is and leaves the function's result |
| KconfigInPlaceEq.Copy | kconfig/expr.c:68-103 | a copy represents the same expression on fresh, unshared nodes |
| KconfigInPlaceEq.Comparer.Equal | kconfig/expr.c:195-235 | the test on nodes answers as the function does, changes neither tree, and puts the shared counter back |
| KconfigInPlaceEq.Comparer.CancelInPlace | kconfig/expr.c:136-168 | both trees are rewritten to the function's two results and stay disjoint |
| KconfigInPlaceEq.Comparer.EliminateEqInPlace | kconfig/expr.c:170-190 | the same for the whole of expr_eliminate_eq |
| KconfigInPlaceSlots.WriteSlot | kconfig/expr.c:512-514 | writing through any slot of a chain of unshared nodes leaves the chain with exactly that part exchanged |
| KconfigInPlaceDups.JoinNodes | kconfig/expr.c:352-508 | the joins on nodes answer as the functions do, with new nodes, and change neither operand |
| KconfigInPlaceDups.ExtractInPlace | kconfig/expr.c:854-881 | both trees are rewritten to the two remainders of the function and stay disjoint, and it is known whether anything was extracted |
| KconfigInPlaceDups.ContradictsNodes | kconfig/expr.c:582-587 | the contradiction test on copies answers as the function does and changes neither operand |
| KconfigInPlaceDups.Dups1InPlace | kconfig/expr.c:510-560 | through two slots that may alias, the chain becomes the first pass's result, its links stay the same nodes with the same slots, and the counter rises by the number of rewrites |
| KconfigInPlaceDups.Dups2InPlace | kconfig/expr.c:562-616 | the same for the second pass, with the missing return |
| KconfigInPlaceDups.EliminateDupsInPlace | kconfig/expr.c:618-640 | the loop ends, the root node holds the function's result on unshared nodes, and the counter is put back |
| KconfigCompare.TransCompareExact | kconfig/expr.c:883-942 | the built comparison is y exactly when it holds and never m: in three values without negation, in two values for all |
| KconfigCompare.NegationComparedExactlyWhen | kconfig/expr.c:914-915 | under one negation it is right exactly when the operand is not m |
| KconfigCompare.NegationComparesModWrongly | kconfig/expr.c:914-915 | a tristate symbol at m: its negation is not y, yet comparing it with y gives y |
| KconfigCompare.NotContainedIsIrrelevant | kconfig/expr.c:779-801 | a symbol that expr_contains_symbol does not find has no influence on the value |
| KconfigCompare.DependsMeansImplied | kconfig/expr.c:803-830 | an expression that depends on a symbol contains it and is n whenever the symbol is |
| KconfigMenuForest.Menu.constructor | kconfig/menu.c:47-63 | reading the lines of a block one by one gives the entry its condition, its properties, first of them the definition of its symbol, and the last text as its prompt |
| KconfigMenuEntry.HasDefinition | kconfig/menu.c:61-62 | whatever the block says, the symbol has the property that stands for the definition, without a condition of its own |
| KconfigMenuEntry.DepInWords | kconfig/menu.c:107-110 | the entry's condition has the least value of those of its `depends on` lines, each m standing for m && MODULES, and y without any |
| KconfigMenuEntry.PropsInWords | kconfig/menu.c:128-176 | there is one property for each property line, in their order, with its kind and value, and with the least value of the line's `if` and the `visible if` conditions above |
| KconfigMenuEntry.PromptInWords | kconfig/menu.c:136-171 | the prompt is the property of the last line with a text |
| KconfigMenuEntry.WrittenIsChecked | kconfig/menu.c:107-176 | in an entry as it has been read, m occurs in conditions only as m && MODULES, unless `visible if` brings in another |
| KconfigMenuConditions.ConjoinedExact | kconfig/menu.c:315-317 | transforming, and-ing and simplifying gives the minimum of both conditions wherever that is not m |
| KconfigMenuConditions.ConjoinedIsSimplified | kconfig/menu.c:315-317 | no two operands of what comes of it can be joined, and none contradicts its chain |
| KconfigMenuConditions.RepeatedCondition | kconfig/menu.c:315-317 | an entry that states again the condition handed down to it gets one no larger than that |
| KconfigMenuConditions.PropExact | kconfig/menu.c:326-331 | so does a property's condition; if it is flattened for a symbol that is no tristate while some symbol is m, it is n exactly when the minimum is, wherever that is definite |
| KconfigMenuConditions.FlattenedHasNoTests | kconfig/menu.c:329-330 | the conditions of a symbol that is no tristate have no test that a tristate symbol is not n |
| KconfigMenuConditions.DefinitionMentions | kconfig/menu.c:314-331 | whatever symbol but n the finished condition of an entry mentions, the property for its definition mentions too, in spite of the second simplification |
| KconfigMenuConditions.HasTextExactlyWhen | kconfig/menu.c:414 | an entry as read has a prompt with a text exactly if one of its lines gives a text, before and after the conditions are handed down |
| KconfigMenuNarrow.Narrow | kconfig/menu.c:314-338 | the loop over the properties gives one entry exactly the conditions above, and each selected symbol its reverse dependency |
| KconfigMenuExact.PropagationIsExact | kconfig/menu.c:289-338 | over the whole tree and every well-formed environment, from the original conditions alone: wherever the conjunction on the way down is n or y, the finished condition is that, whatever an m above has become; the properties of symbols that are no tristates show n exactly then while some symbol is m, and what stands below such a prompt is exact for what the prompt has become |
| KconfigMenuNesting.NestTestMeans | kconfig/menu.c:343-361 | an entry that passes the test mentions the symbol, and wherever it is visible the symbol is set or the parent's prompt is visible; an entry that depends on the symbol passes |
| KconfigMenuNesting.NestedIsShownBelow | kconfig/menu.c:341-361 | in terms of the two entries' prompts: what is nested under a prompt is shown only where the symbol is set or the prompt is visible |
| KconfigMenuNesting.WithoutPromptAllNest | kconfig/menu.c:341-361 | an entry without a prompt takes in every entry behind it that mentions its symbol |
| KconfigMenuNesting.DependsExactlyWhen | kconfig/expr.c:803-830 | an expression depends on a symbol exactly if one of its && operands is the symbol or tests that it is y, m or not n |
| KconfigMenuNesting.OperandPasses | kconfig/menu.c:351-361 | an entry that mentions the symbol passes if the test of the parent's prompt is one of the && operands of its own and is not n |
| KconfigMenuNesting.NestTestExactlyWhen | kconfig/menu.c:347-361 | without constant operands, it passes exactly if it depends on the symbol, or the prompt is always visible, or its test has all the && operands of the prompt's |
| KconfigMenuShape.FinalizedSame | kconfig/menu.c:339-424 | nesting and hoisting, at any depth, keep the preorder of all entries |
| KconfigMenuShape.ImpliedIsNested | kconfig/menu.c:341-371 | an entry that follows and has, among its && operands, a test that the symbol is set or the test of the prompt becomes the first child |
| KconfigMenuShape.FinalLogCounts | kconfig/menu.c:332-373 | every select and every condition of an entry that declares no others is gathered once and no other is, whatever is nested or hoisted meanwhile |
| KconfigMenuFinished.FinalizedFinished | kconfig/menu.c:339-424 | every entry stands under the one that declared it or whose symbol it depends on, or has moved up from behind one without prompt text; and no entry with a prompt text that declares no others is followed, behind all that stands under it, by one declared beside it that passes its test |
| KconfigMenuFinished.NothingImpliedLeft | kconfig/menu.c:341-371 | in the finished menu no such entry, declared beside it, is left behind an entry with a prompt text that declares no others |
| KconfigMenuFinished.HoistedFinished | kconfig/menu.c:375-424 | after the hoisting loop no entry without prompt text has children, however deep they were |
| KconfigMenuHoist.Hoist | kconfig/menu.c:375-424 | the loop that relinks the children of entries without prompt text leaves exactly the function's tree |
| KconfigMenuFinalize.NestLoop | kconfig/menu.c:341-366 | the loop over the siblings stops where the function does, with the nested ones finalized and adopted, the rest untouched |
| KconfigMenuFinalize.Finalize | kconfig/menu.c:282-444 | the recursion on linked entries leaves the function's tree, the finished conditions, and the gathered dependencies in the function's order |
| KconfigMenuFinalize.FinalizeRoot | kconfig/zconf.y:508 | all of it for the whole menu: same preorder, each condition and-ed with those above, every entry where it belongs, none left out that passes the test of the one it follows, nothing left to hoist, and all dependencies gathered, each once |
| KconfigDependencies.GatheredContains | kconfig/menu.c:332-373 | the dependency gathered for a symbol mentions exactly what its operands mention, and is absent exactly if there is none |
| KconfigDependencies.GatheredValue | kconfig/menu.c:332-373 | its value is the greatest of theirs |
| KconfigMenuDeps.CheckDepExact | kconfig/menu.c:82-105 | the rewritten condition reads every literal m as the lesser of m and MODULES, in every environment |
| KconfigMenuDeps.CheckDepKeepsValueWithModules | kconfig/menu.c:82-105 | with MODULES on, the rewriting changes no value |
| KconfigMenuDeps.CheckDepIsDefinite | kconfig/menu.c:82-105 | with MODULES off and every symbol n or y, a rewritten condition is never m |
| KconfigInPlaceDeps.CheckDepInPlace | kconfig/menu.c:82-105 | on nodes, the tree becomes the function's result, on old and new nodes, none shared |
| KconfigMenuExact.ExactWithoutModules | kconfig/menu.c:289-338 | so without modules every finished condition of a menu as it has been read is exactly the conjunction, with no exception left |
| KconfigMenuWalk.Walk | kconfig/confdata.c:790-823 | the cursor loop over list, next and parent terminates and visits the entries in preorder |
| KconfigMenuWalk.PreorderIsEachOnce | kconfig/confdata.c:790-823 | that order holds every entry once and nothing else |
| KconfigMenuWalk.FinalizeThenWrite | kconfig/confdata.c:790-823 | finishing the menu and then writing it visits every entry exactly once, in the order of declaration |
| KconfigSymbolValue.ValueSolves | kconfig/symbol.c:313-460 | on an acyclic configuration the plain recursive values satisfy every symbol's defining equation |
| KconfigSymbolValue.ValueIsOnlySolution | kconfig/symbol.c:313-460 | and they are the only values that do |
| KconfigSymbolValue.ValuesAreWellFormed | kconfig/symbol.c:402-403 | the values form a well-formed environment for the expression engine |
| KconfigSymbolValue.SelectionIsMet | kconfig/symbol.c:313-460 | in every solution a symbol is at least what selects it |
| KconfigSymbolValue.ValueInWords | kconfig/symbol.c:313-460 | in every solution its value is that of the user up to the most visible prompt, or if it is invisible or not set that of the first default whose condition is not n, raised to the selection, m becoming y where it cannot be m |
| KconfigEvaluator.ValueRight | kconfig/symbol.c:313-460 | on an acyclic configuration the memoising evaluator leaves the right value, visibility and selection on the symbol and wrong ones on none, whatever was computed before; its recursion ends by SYMBOL_VALID alone, cycles or not |
| KconfigEvaluator.AllValuesRight | kconfig/symbol.c:313-460 | queries in any order, repeated or not, all answer the recursive value |
| KconfigEvaluator.SetThenCalc | kconfig/symbol.c:474-527 | after a value in range has been set and everything invalidated, recomputation yields exactly that value |
| KconfigSymbolTable.SymbolTable.CalcValue | kconfig/symbol.c:313-460 | the steps on the table of symbols give exactly the function's states |
| KconfigSymbolTable.SymbolTable.CalcPrompts | kconfig/symbol.c:209-247 | the visibility loop gives the function's value and states |
| KconfigSymbolTable.SymbolTable.CalcAll | kconfig/symbol.c:313-460 | a loop of queries gives the function's answers and states, on any configuration |
| KconfigSymbolTable.SymbolTable.SetTristate | kconfig/symbol.c:493-527 | a value that is shown already is accepted, and another one exactly if the symbol is more visible than selected and recomputation would yield it; it is recorded, and every symbol invalidated exactly if it differs |
| KconfigSymbolTable.SymbolTable.SetAndRecalc | kconfig/symbol.c:474-527 | a different value is accepted exactly if recomputation would yield it, and then recomputation on the table does; a refused one leaves the old |
| KconfigSymbolValue.UserValueIrrelevantBelow | kconfig/symbol.c:493-527 | setting a symbol changes no symbol it depends on |
| KconfigSymbolValue.SetThenValue | kconfig/symbol.c:474-527 | a value in range that the user sets is the value the defining equations give |
| KconfigSymbolValue.AcceptedExactlyWhen | kconfig/symbol.c:474-491 | a value is accepted exactly if the symbol is more visible than selected and recomputation would yield that value |
| KconfigSymbolValue.SettingShownValueKeptExactlyWhen | kconfig/symbol.c:493-501 | the value set without a range check survives exactly when the symbol is invisible, or the value is within its visibility or is the selected one |
| KconfigSymbolValue.ShownValueIsLost | kconfig/symbol.c:493-501 | with the prompt at m and the default y, the user sees y, sets y, and has m after the next recomputation |
| KconfigDepCheck.DepChecker.CheckDeps | kconfig/symbol.c:1255-1287 | the mark SYMBOL_CHECK is on exactly the symbols on the stack, which form a path; a symbol is only returned to frames above its own; without a report the symbol and all it depends on end up in dependency order |
| KconfigDepCheck.CheckAll | kconfig/zconf.y:510-513 | over all symbols a recursion is reported if and only if the graph of reverse dependencies, property conditions and defaults has a cycle, and the error count is 0 in either case |
| KconfigDepCheck.OrderedHasNoCycle | kconfig/symbol.c:1153-1216 | a dependency order excludes every cycle |
| KconfigCheckedEvaluation.AcyclicRanks | kconfig/symbol.c:1153-1216 | on a finite graph without cycles the number of symbols reachable falls along every edge |
| KconfigCheckedEvaluation.EdgeIsMention | kconfig/symbol.c:1183-1216 | the check follows nothing but what the evaluator reads and the conditions of properties that it does not read, and nothing of a select |
| KconfigCheckedEvaluation.CheckAndEvaluate | kconfig/symbol.c:1255-1287 | the check is silent exactly if there is no cycle; if it is, the definitions have a solution, and queries in any order, repeated or not, answer with it |
| KconfigMenuGraph.DirectIsEdge | kconfig/symbol.c:1193-1203 | whatever a direct dependency mentions, but n, some property that the check follows mentions too |
| KconfigMenuGraph.MenuIsCovered | kconfig/menu.c:282-444 | so in what comes out of a menu no direct dependency escapes the check |
| KconfigMenuMeaning.SelectionOfMenu | kconfig/menu.c:332-337 | what selects a symbol has the greatest value, over all selects of the symbol in the finished menu, of the lesser of the entry's symbol and the select's condition |
| KconfigMenuMeaning.DirectOfMenu | kconfig/menu.c:373 | its direct dependency has the greatest value of the conditions of its entries that declare no others, and is there exactly if one of them has a condition |
| KconfigMenuMeaning.ValueOfMenu | kconfig/symbol.c:313-460 | in every solution the value of a symbol comes, as above, from the most visible prompt, the first default in the order of the menu whose condition is not n, and the strongest select, all of the finished menu |
| KconfigMenuMeaning.SelectsHold | kconfig/symbol.c:313-460 | so what an entry that is y selects under a condition that is y is y |
| KconfigConfigure.Configure | kconfig/zconf.y:508-513 | from the menu as read: it is finalized, checked, and its symbols are queried; if the check is silent, the definitions that came out of the menu have a solution, queries in any order answer with it, every answer is what the menu means by ValueOfMenu, and what an entry that is y selects under a condition that is y is answered y |
| KconfigPrinter.PrintThenParse | kconfig/expr.c:1055-1125 | the grammar reads the printed tokens of every expression back to it, chains regrouped to the left, symbols looked up by name |
| KconfigPrinter.PrintThenParseKeepsValue | kconfig/zconf.y:469-479 | for expressions over declared names and y, m, n the value survives, and an absent expression comes back as y |
| KconfigPrinter.RelookupIdentity | kconfig/symbol.c:798-837 | looking names up again gives the same symbols exactly if each symbol is what its name refers to |
| KconfigPrinter.LeftAssocIdentity | kconfig/zconf.y:76-79 | regrouping changes nothing exactly if no chain is nested on its right |
| KconfigPrinter.ParenthesesWhereNeeded | kconfig/expr.c:1055-1125 | there is one pair of parentheses for each or-chain below an and-chain and each chain below a negation, and no other |
| KconfigEscape.UnescapeEscape | kconfig/symbol.c:915-956 | unescaping what escaping wrote gives back the string, for every string |
| KconfigEscape.PlainTextIsOnlyQuoted | kconfig/symbol.c:938-956 | text without quotes and backslashes is only put in quotes |
| KconfigEscape.PlainTextIsKept | kconfig/confdata.c:161-175 | in whatever is read, plain text stands for itself |
| KconfigEscape.BackslashProtects | kconfig/confdata.c:161-175 | so does any character after a backslash; a quote ends the text, and without one it is refused |
| KconfigEscape.EscapedSize | kconfig/symbol.c:922-936 | the first pass computes the exact buffer size |
| KconfigEscape.EscapeString | kconfig/symbol.c:938-956 | the second pass writes the escaped string and its NUL into a buffer of exactly that size |
| KconfigEscape.UnescapeInPlace | kconfig/confdata.c:161-175 | the memmove loop succeeds exactly if the text has a closing quote, and leaves the unescaped string in place |
| KconfigEscape.SaveThenLoad | kconfig/confdata.c:161-183 | every NUL-free string survives the round trip through the buffer |
| KernelRing.AddTail | include/list.h:50-57 | insertion before any node of a ring of any length keeps it a ring with exactly that node more, and touches three nodes |
| KernelRing.AddHead | include/list.h:41-48 | insertion at the head appends |
| KernelRing.Delete | include/list.h:61-66 | deletion keeps the ring without exactly that node and clears it |
| KernelRing.InList | include/list.h:33-39 | of a node that is in a given ring, or cleared, it tells whether it is in that ring |
| KernelRing.RemoveHead | include/list.h:68-77 | the node behind the head leaves the ring, cleared; an empty ring gives null and stays |
| KernelRing.RemoveTail | include/list.h:79-88 | the same for the node before the head |
| KernelRing.PeekHead | include/list.h:91-98 | the node behind the head, or null exactly if the ring is empty |
| KernelRing.PeekTail | include/list.h:101-108 | the node before the head, or null exactly if the ring is empty |
| KernelRing.IsEmpty | include/list.h:129-132 | true exactly if the head is alone |
| KernelRing.Length | include/list.h:154-163 | the walk along next ends and counts all nodes but the head |
| KernelRing.SharedNodeMeansSameNodes | include/list.h:23-26 | no node is in two different rings |
| KernelRing.NodeQueue.Append | include/list.h:41-57 | on the sequence of queued nodes both insertions append |
| KernelRing.NodeQueue.TakeFirst | include/list.h:68-77 | the first queued node leaves, cleared, or nothing happens to an empty queue |
| KernelRing.NodeQueue.Remove | include/list.h:61-66 | exactly the i-th queued node leaves, cleared |
| KernelTimer.InsertedStable | kernel/timer.c:19-33 | a timer goes behind all timers due no later and in front of all later ones; the others keep their order |
| KernelTimer.TimerQueue.Insert | kernel/timer.c:19-33 | the insertion loop does that |
| KernelTimer.TimerQueue.SetOneshot | kernel/timer.c:54-60 | the timer is queued for now + delay, at least 1, and the queue stays sorted |
| KernelTimer.TimerQueue.SetPeriodic | kernel/timer.c:62-68 | the same with its period, at least 1 |
| KernelTimer.TimerQueue.Cancel | kernel/timer.c:70-83 | cancelling removes the timer if it is queued and nothing else |
| KernelTimer.TimerQueue.IsQueued | include/list.h:33-39 | whether a timer is in the queue |
| KernelTimerTick.DueIsPrefix | kernel/timer.c:96-106 | the due timers are a prefix of the sorted queue |
| KernelTimerTick.FiresSurvivors | kernel/timer.c:86-130 | whatever timers the callbacks cancel and set, a tick fires exactly the due timers that no callback before their turn cancels, once each, in the order of the queue |
| KernelTimerTick.AllSurviveExactlyWhen | kernel/timer.c:86-130 | all due timers fire exactly if none is cancelled by the callback of one in front of it |
| KernelTimerTick.FireAllLeaves | kernel/timer.c:86-130 | the loop ends, with the queue sorted, no timer in it twice and none in it due |
| KernelTimerTick.QueuedAfterwards | kernel/timer.c:115-121 | of the timers no callback touches, afterwards exactly those are queued that were not due, and the periodic ones that fired, at now + period |
| KernelTimerTick.FireFirst | kernel/timer.c:97-121 | one round on the queue: the first timer leaves, its callback acts, and it is queued again exactly if it was periodic, is not queued and has kept its period |
| KernelTimerTick.TimerTick | kernel/timer.c:86-130 | the loop fires what the function says and asks for rescheduling exactly if one of the callbacks does |
| DriverPlatformTimer.PlatformTimer.Tick | driver/timer/platform_timer.c:51-65 | in 64-bit arithmetic with wrap-around the lateness cancels: the next trigger time moves by exactly one period |
| DriverPlatformTimer.PlatformTimer.RunTicks | driver/timer/platform_timer.c:32-65 | after n ticks of length d no longer than the period D, exactly floor(n*d/D) callbacks have run and the next trigger is the following multiple: no drift |
| KernelSchedulerState.PicksLowestPriority | kernel/thread.c:178-207 | the next thread is the first of the lowest-numbered non-empty queue, and the idle thread only if nobody else is ready |
| KernelSchedulerState.ReschedOk | kernel/thread.c:246-267 | rescheduling re-establishes the whole invariant |
| KernelSchedulerOps.ReleaseOk | kernel/wait_queue.c:80-92 | taking any thread off a wait queue and making it ready keeps the invariant and changes no other thread |
| KernelSchedulerOps.ReleaseAllOk | kernel/wait_queue.c:121-136 | waking all makes exactly the waiting threads ready with the code and empties exactly that queue |
| KernelSchedulerOps.ReleaseAllQueued | kernel/wait_queue.c:121-136 | they are queued by priority in the order in which they waited |
| KernelSchedulerOps.ParkedGivesWay | kernel/thread.c:225-244 | a thread that yields or is preempted does not go on while another thread of no higher number is ready |
| KernelSchedulerSteps.CountIsNumberWoken | kernel/wait_queue.c:116-140 | the early test on the count and the late one on the number woken always agree |
| KernelSchedulerSteps.BlockOk | kernel/wait_queue.c:38-69 | blocking, with or without a timeout, keeps the invariant |
| KernelSchedulerSteps.ExitOk | kernel/thread.c:469-492 | exiting, detached or not, keeps it |
| KernelSchedulerTick.TickOk | kernel/timer.c:86-130 | a tick keeps it, with the timers of sleeps, of timeouts and of drivers in one queue, and leaves the queue that the loop of timer_tick leaves: none in it is due |
| KernelSchedulerRuns.StepOk | kernel/thread.c:225-391 | every operation, in every state the invariant allows, keeps it |
| KernelSchedulerRuns.InitialOk | kernel/thread.c:597-626 | initialisation establishes it |
| KernelSchedulerRuns.EveryRunKeepsInv | kernel/thread.c:113-133 | it holds in every state of every run: one running thread, ready exactly when queued once, blocked exactly when listed once, sleeping exactly when timed, bitmap and counts right |
| KernelSchedulerRest.StepLeaves | kernel/wait_queue.c:72-143 | apart from ticks, no operation changes a sleeping, blocked or dead thread or its timer but one that takes it off its queue or frees it |
| KernelSchedulerWait.TickTimesOutExactlyTheDue | kernel/wait_queue.c:22-36 | a tick ends a timed wait with ERR_TIMED_OUT if its timeout is due, and otherwise leaves the wait and its timeout |
| KernelSchedulerWait.WaitStep | kernel/wait_queue.c:38-143 | each operation either ends a wait, making the thread ready or letting it run with that operation's code, or leaves it waiting in the same queue with the same timeout: a wake of its turn or of all, the exit or detach of the thread it joins, a tick at its time, and nothing else |
| KernelSchedulerWait.StaysWaiting | kernel/wait_queue.c:38-69 | in every run a thread waits as long as nothing ends its wait |
| KernelSchedulerWait.FirstEndingDecides | kernel/wait_queue.c:38-69 | in every run the code with which a blocked thread runs again is that of the first thing that ended its wait: the wake's, 0 for an exit, ERR_THREAD_DETACHED or ERR_TIMED_OUT, whatever came second |
| KernelSchedulerWait.ReturnCodeIsKept | kernel/wait_queue.c:38-69 | no operation touches the code of a woken thread that has not run yet |
| KernelSchedulerTime.SleepSetsTheAlarm | kernel/thread.c:513-532 | sleeping arms a timer for now + delay, at least 1 |
| KernelSchedulerTime.TickWakesExactlyTheDue | kernel/thread.c:494-511 | a tick wakes a sleeper if and only if its timer is due |
| KernelSchedulerTime.NoSleeperWakesEarly | kernel/thread.c:494-532 | in every run a sleeper stays asleep, with its timer, as long as no tick reaches its time |
| KernelSchedulerTime.WakesAtFirstDueTick | kernel/thread.c:494-532 | and the first tick that does reach it makes it ready |
| KernelSchedulerWait.CodeStaysUntilItRuns | kernel/wait_queue.c:38-69 | in every run it stays up to the state in which the thread runs |
| KernelSchedulerTurn.StepAdvances | kernel/thread.c:178-267 | while nobody with a lower number is about, each switch brings a ready thread one place forward in its run queue or, from the front, lets it run, whatever operation does it; without a switch it keeps its place |
| KernelSchedulerTurn.RunsWithinItsTurn | kernel/thread.c:178-267 | in every run a thread with i others in front of it runs after at most i+1 switches, as long as nobody with a lower number is about |
| KernelSchedulerOutcomes.BestRunsAfterRescheduling | kernel/thread.c:178-267 | after every operation that reschedules, no ready thread has a lower number than the running one and the idle thread runs only if none is ready; no other operation changes who runs |
| KernelSchedulerOutcomes.PreemptedGoesOnExactlyWhen | kernel/thread.c:225-244 | a preempted thread goes on exactly if every ready thread has a higher number, and is otherwise ready at the end of its queue |
| KernelSchedulerOutcomes.YielderGoesOnExactlyWhen | kernel/thread.c:343-364 | so does one that yields |
| KernelSchedulerOutcomes.ResumedIsReady | kernel/thread.c:367-391 | a suspended thread that is resumed is ready, behind those that were queued before and with nobody but the caller behind it, or runs at once; with interrupts disabled the caller goes on |
| KernelSchedulerOutcomes.ResumerGoesOnExactlyWhen | kernel/thread.c:367-391 | with interrupts enabled it goes on exactly if every ready thread, the resumed one among them, has a higher number |
| KernelSchedulerOutcomes.ResumedRunsWithinItsTurn | kernel/thread.c:367-391 | in every run a resumed thread runs after at most one switch more than threads were queued before it, as long as nobody with a lower number is about |
| KernelSchedulerEffects.CreatedIsSuspended | kernel/thread.c:304-341 | a thread is created in the first free slot, suspended, with the priority asked for, and everything else stays; without a free slot nothing happens |
| KernelSchedulerEffects.ExitedIsDead | kernel/thread.c:469-492 | a thread that exits is dead with its exit code, and nobody waits for it any longer |
| KernelSchedulerEffects.ExitedIsGone | kernel/thread.c:469-492 | if it has been detached, its slot is the last free one instead |
| KernelSchedulerEffects.DetachedIsMarked | kernel/thread.c:431-451 | a detached thread is marked, is otherwise what it was, and nobody waits for it any longer |
| KernelSchedulerEffects.JoinAnswers | kernel/thread.c:394-429 | what a join answers at once and what becomes of the thread, in each case |
| KernelSchedulerEffects.BecomesIdle | kernel/thread.c:634-648 | the idle thread is marked, has number 0, stands in no queue, and goes on exactly if no other thread is ready |
| KernelSchedulerEffects.BlockedIsLast | kernel/wait_queue.c:38-69 | a thread that blocks stands at the end of the wait queue, with its timeout if it has one |
| KernelSchedulerEffects.WokenIsQueued | kernel/wait_queue.c:72-105 | the first of the wait queue is ready with the code at the end of its run queue, and the others move up |
| KernelSchedulerWaking.WakerGoesOnExactlyWhen | kernel/wait_queue.c:107-143 | a caller that wakes a whole queue and reschedules goes on exactly if no ready thread has the same or a lower number and nobody it woke has a lower one: it stands in front of those that have its own |
| KernelSchedulerWaking.WakerOfOneGoesOnExactlyWhen | kernel/wait_queue.c:72-105 | the same for the one that wait_queue_wake_one wakes |
| KernelSchedulerQuantum.StepQuantum | kernel/thread.c:246-267 | a tick takes one from the quantum of the running thread, yielding takes all of it, a thread that is switched to with nothing left gets five, and nothing else changes a quantum |
| KernelSchedulerQuantum.RunsFiveTicks | kernel/thread.c:557-573 | in every run a thread that is switched to with its quantum used up has five ticks, as long as it runs and does not yield |
| KernelSchedulerJoin.JoinReturnsTheExitCode | kernel/thread.c:394-429 | in every run a thread that waits for another's exit, runs again after it and is the first to join finds that thread dead with the exit code, gets code 0 and may free it |
| KernelSchedulerJoin.FreeingKeepsInvExactlyWhen | kernel/thread.c:416-424 | freeing a slot keeps the invariant exactly if it is free already, or its thread is dead, or suspended with nobody waiting for its exit |
| KernelSchedulerJoin.JoinAtOnceKeepsInvExactlyWhen | kernel/thread.c:408-424 | so does a join with a timeout of zero, which always reports success |
| KernelSchedulerJoin.SecondJoinerChangesNothing | kernel/thread.c:416-424 | freeing a dead thread a second time, while its slot is still free, leaves the state as the first time did |
| KernelSchedulerLimits.SleepKeepsInvExactlyWhen | kernel/thread.c:513-532 | sleeping keeps the invariant exactly if the caller is not the boot or idle thread |
| KernelSchedulerLimits.BlockKeepsInvExactlyWhen | kernel/wait_queue.c:38-69 | blocking keeps it exactly if the caller is not the boot or idle thread |
| KernelSchedulerLimits.ExitKeepsInvExactlyWhen | kernel/thread.c:469-492 | exiting keeps it exactly if the caller is not the boot or idle thread |
| KernelSchedulerLimits.WakeByIdleKeepsInvExactlyWhen | kernel/wait_queue.c:72-105 | a rescheduling wake by the idle thread keeps the invariant exactly if the idle thread is the next to run |
| KernelSchedulerLimits.BootThreadRunsWhileWaiting | kernel/thread.c:205-206 | from the initial state a boot thread that blocks goes on running while it stands in the wait queue |
| KernelThreadRings.ThreadRings.Append | include/list.h:41-57 | among many rings that share no node, insertion of a thread's node into one changes that list by the thread at its end, and leaves all other rings and cleared nodes |
| KernelThreadRings.ThreadRings.Remove | include/list.h:61-66 | deletion of a thread's node removes exactly that thread from its list and clears the node; all other rings stay |
| KernelThreadRings.ListedInPlace | kernel/thread.c:113-133 | the invariant puts a thread in exactly the queue that its state names, or in none |
| KernelScheduler.Kernel.NodeIsInItsPlace | kernel/thread.c:113-133 | between operations a thread's one queue node is in the ring of that queue and in no other, and cleared if there is none |
| KernelScheduler.Kernel.constructor | kernel/thread.c:597-626 | the initialisation loops give the initial state, with every ring empty |
| KernelScheduler.Kernel.GetNewThread | kernel/thread.c:178-207 | the scan of the bitmap finds what the model's choice says and clears the bit of an emptied queue |
| KernelScheduler.Kernel.ThreadResched | kernel/thread.c:246-267 | from any state in which the caller has given up the processor, the code's steps are the model's choice and switch, and the invariant holds again |
| KernelScheduler.Kernel.ThreadYield | kernel/thread.c:343-364 | the stepwise code spends the quantum, queues the caller behind the others of its priority unless it is idle, and switches: exactly the model's step, invariant kept |
| KernelScheduler.Kernel.ThreadPreempt | kernel/thread.c:225-244 | the same without spending the quantum: exactly the model's step, invariant kept |
| KernelScheduler.Kernel.ThreadSleep | kernel/thread.c:513-532 | arming the timer, marking the thread and switching are exactly the model's step, invariant kept |
| KernelScheduler.Kernel.WaitQueueBlock | kernel/wait_queue.c:38-69 | joining the ring, counting, arming the timeout and switching are exactly the model's step, invariant and rings kept; it answers at once exactly for a zero timeout, and otherwise with the code of FirstEndingDecides when the thread runs again |
| KernelScheduler.Kernel.WaitQueueWakeOne | kernel/wait_queue.c:72-105 | the first waiter is queued, behind the caller if that is to reschedule; exactly the model's step, 1 returned exactly if somebody waited; invariant kept unless the idle thread reschedules |
| KernelScheduler.Kernel.WaitQueueWakeAll | kernel/wait_queue.c:107-143 | the loop with its early and late tests is exactly the model's step, the number woken returned; invariant kept unless the idle thread reschedules |
| KernelScheduler.Kernel.UnblockFromWaitQueue | kernel/thread.c:576-595 | the thread leaves its queue wherever it stands, exactly the model's step; it succeeds exactly for a blocked thread and otherwise changes nothing |
| KernelScheduler.Kernel.ThreadCreate | kernel/thread.c:304-341 | the first free slot becomes a suspended thread, exactly the model's step, invariant kept; -1 exactly if no slot is free |
| KernelScheduler.Kernel.ThreadResume | kernel/thread.c:367-391 | a suspended thread is queued and, with interrupts enabled, the caller yields; any other thread is left alone; invariant kept |
| KernelScheduler.Kernel.ThreadExit | kernel/thread.c:469-492 | a detached thread frees its slot, another one dies and wakes those that wait for it; then the switch; exactly the model's step, invariant kept |
| KernelScheduler.Kernel.ThreadJoin | kernel/thread.c:394-429 | a detached thread is refused, a dead one hands over its exit code and its slot, a live one is waited for; the invariant can only be lost by a join that does not wait for a live thread |
| KernelScheduler.Kernel.JoinAfterWait | kernel/thread.c:409-428 | back from the wait, anything but a negative code frees the thread |
| KernelScheduler.Kernel.DriverTimer | kernel/timer.c:35-83 | a driver that sets or cancels a timer changes the queue of timers only, invariant kept |
| KernelScheduler.Kernel.SetNow | driver/timer/platform_timer.c:51-56 | the clock moves between timer ticks, as current_time does; nothing else changes, invariant kept |
| KernelScheduler.Kernel.ThreadDetach | kernel/thread.c:431-451 | those that wait for its exit are woken with ERR_THREAD_DETACHED and the thread is marked, invariant kept; for a thread that is not dead |
| KernelScheduler.Kernel.ThreadBecomeIdle | kernel/thread.c:634-648 | the boot thread takes priority 0 and the idle mark and yields, exactly the model's step, invariant kept |
| KernelScheduler.Kernel.TimerTick | kernel/timer.c:86-130 | the loop over due timers with both handlers and the drivers' callbacks, then the quantum: exactly the model's step, invariant and rings kept; it asks for rescheduling exactly if somebody has been queued, or the callback of a driver's timer that has fired asks, or the running thread has no time left and may be preempted |

## Left out

Kconfig:

- The user interfaces, gettext and generated parser tables, files, environment variables and regular expressions.
- E_LIST and E_RANGE, choice blocks (in menu_finalize, the evaluator and the cycle check), and expr_simplify_unmet_dep, which feeds a warning.
- Warnings, and the flags SYMBOL_WRITE and SYMBOL_CHANGED; string, int and hex values are a parameter, and so is modules_val.
- `expr_trans_compare` with m, for which its && and || cases build no comparison.
- Freeing of nodes: dropped nodes are simply no longer reachable.
- KconfigInPlaceDups.ExtractInPlace: the extracted common part is not built; expr_eliminate_dups2, its only caller, frees it unread.
- KconfigEquality.SwappedPartsEqual: with constant operands no condition short of the pairing itself is given for when two parts may change places.
- KconfigDupsTwice.TwiceIsOnce: a chain whose own operands can still be joined is not covered; expr_eliminate_dups returns none such.
- KconfigMenuExact.PropagationIsExact: where the conjunction on the way down is m nothing is promised, because expr_eliminate_dups may make it n.
- KconfigMenuExact.ExactWithoutModules: `visible if` conditions, which menu.c copies into prompts without the rewriting of m, are not among them; nor is what menu_check_dep does while no symbol is marked as MODULES.
- KconfigMenuForest.Menu.constructor: the `visible if` conditions of the menus above come with each prompt; warnings about redefined prompts, and the rewriting of `select` lines by menu_set_type, are not modelled.
- KconfigMenuFinalize.FinalizeRoot: takes each entry's condition trees as values; `expr_copy` and shared nodes between conditions are not modelled.
- KconfigConfigure.Configure: the user's values, texts and modules_val are parameters; the list of symbols is taken as the table that parsing has filled.
- KconfigPrinter.PrintThenParse: works on tokens; the lexer and the quoting of names are not part of this model, so a quoted constant reads back as a name.

Kernel:

- Interrupts, spin locks, paging, stacks, register frames and devices; a context switch is a change of the current thread, and a resumed wait_queue_block cancels its timeout in the same step.
- thread_set_priority (it queues a running thread), thread_block and thread_unblock (not called), thread_detach_and_resume (it passes a pointer as an id). Joins that free a living thread, or a slot that thread_create has used again, are no steps of the runs.
- The preemption lock: whether preemption is enabled is a parameter of the tick.
- KernelSchedulerRuns.StepOk: the boot or idle thread does not sleep, block, exit or wake others with rescheduling; `SchedulerLimits` says what happens if it does.
- KernelScheduler.Kernel.ThreadDetach: a dead thread, for which the source calls thread_join with a pointer where the id belongs, which fails the assertion there.
- KernelTimerTick.TimerTick: times are unbounded there, and all callbacks of one tick see the same time; the 64-bit times are in `PlatformTimer`. A callback that sets a timer which is queued fails an assertion in the source and does nothing in the model.
- KernelSchedulerTick.TickOk: the callbacks of drivers' timers cancel and set timers of drivers; they do not wake or create threads.
- KernelScheduler.Kernel.GetNewThread: the 32-bit bitmap is the set of its one bits. Run queues and wait queues are rings of nodes; the timers and the free slots are sequences.
- set_pit_frequency, current_time's conversion, and the libc helpers.
