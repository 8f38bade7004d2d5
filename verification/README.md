# Verification of the lazylean kernel's representations

lazylean checks Lean 4 exports with a set of fast representations, each of which must mean the same as
something simple.  These modules model those representations and prove that they do.

- **Terms and conversion.** `Terms` has de Bruijn terms and the source's lifting and instantiation, shown to
  be parallel substitution. `Conversion` defines reduction and convertibility (beta, let, delta, iota,
  projection, quotient, numeral and string literals, fixpoint rules, and the constructor forms that the
  typing side supplies), `Paths` shows that the definition is the reflexive, transitive closure of single
  steps under contexts, `Rules` states each rule on whole applications, and `Shapes` segment by segment.
  `NatArith` says what the numeral primitives compute, by the laws of each operation, and `Utf8` that string
  literals are decoded as encoded.
- **The lazy machine** (`MachineModel`, `MachineStack`, `MachineSteps`, `LazyMachine`): a class with a heap of
  thunks and a class for one run with its frame stack.  A ghost sequence gives every thunk's fixed read-back,
  and `MachineStack.Final` says what it means that no step applies to an answer.
- **Normalisation by evaluation** (`NbeModel`, `NbeEval`, `NbeSound`, `NbeWhnf`, `NbeNormal`, `NbeReduce`)
  with environments cut down to a mask of used variables, and the masks themselves (`Masks`, over `BitOps`).
- **The term table** (`SuspendModel`, `SuspendTidy`, `SuspendProbe`, `Suspend`): suspended substitutions that
  are composed, exposed in place, hashed and compared without being expanded, in two interning tiers, each
  with its own open-addressing index probed by an equality test that can itself intern.  `Comparison` is the
  equality test as a function, as far as it makes no node, and `Overlooked` a run on which it errs.
- **Open addressing** (`Probing`, `InternTable`), its concurrent construction with compare-and-swap
  (`BulkIndex`), and the table the loader ends with (`LoadedIndex`).
- **Names and universe levels** (`Names`, `Levels`, `LevelsExact`), checked against a value in the naturals
  for every assignment.
- **Transformations**: fusion of definitions (`Fusion`), closing and opening binders over free variables
  (`Closing`), and nested inductive types eliminated and restored (`NestedModel`, `NestedRestore`,
  `NestedNames`, `NestedTerms`, `NestedRun`, `NestedRules`).
- **Checking in parallel** (`DeclOrder`, `Workers`, `ParallelOrder`) and **number parsing** (`NumParse`).

Three facts about the source came out of the proofs:

- `resolve` (src/expr.cpp:329-344) views an unexposed closure that the surrounding substitution leaves alone
  as a plain node of kind closure, and `view_eq` then compares kinds.  Two views of the same term can
  therefore compare as different, and the temporary tier can hold one term under two handles:
  `Overlooked.TwoHandles` is such a run of the table's own operations.  `Comparison.OverlookedExactly` says
  which views are overlooked.  A "yes" is always right and a comparison with a permanent handle exact.  Call a
  table neat if no two handles denote the same term and every closure suspends over a term that holds no
  unexposed closure, as permanent terms and expanded ones do.  Freezing and reclaiming give a neat table; in a
  neat table every comparison is exact; and it stays neat under making nodes, exposing and expanding, and
  under suspending a substitution over a closure or over a term that holds none (the parameter `neat` of the
  methods of `Suspend.ExprTable`).  What loses it is suspending over a node that holds a closure further down.
- Restoring a nested inductive type is the inverse of eliminating it exactly when the auxiliary
  constructors' names are reserved ones.  A constructor without its type's name as a prefix keeps its own name
  (src/inductive.cpp:33-39, 120), which is declared already, so adding the auxiliary constructor fails
  (src/inductive.cpp:606) before anything is restored: every run that gets to restoring restores.
- The order check before parallel checking (src/main.cpp:123-182) looks at the constants that terms cite.  The
  checker also looks up what is behind literals, projections and inductive types (src/nbe.cpp:1107-1113,
  1499-1502).  Parallel and sequential verdicts agree for every checker that looks up only such constants
  exactly when none of them is introduced later (`ParallelOrder.AgreeExactly`); an order that passes the check
  can still fail this (`ParallelOrder.LiteralBeforeType`).

## Model

| member | source | states |
|---|---|---|
| `Terms.SubSub` | src/expr.cpp:527-553 | substituting in a substituted term is one substitution by the composition: the law behind environments, read-back and composed closures |
| `Terms.InstantiateIsSub` | src/expr.cpp:527-539 | instantiation with its early exits is parallel substitution of the entries, lifted under binders, for open entries too |
| `Terms.LiftIsPlus` | src/expr.cpp:506-514 | lifting with its early exit renames exactly the loose variables |
| `Terms.RangeExact` | src/expr.cpp:203-223 | the loose-variable range of a node bounds every loose variable and is attained |
| `Terms.InstantiateLParamsValue` | src/expr.cpp:626-680 | instantiating universe parameters, shortcuts included, leaves the term as it is but for its levels, and those are worth under every assignment what the old ones are worth when parameters are read through the arguments |
| `Conversion.BetaMany` | src/expr.cpp:681-689 | instantiating n lambdas simultaneously is reached by n single beta steps |
| `Shapes.IotaShape` | src/env.h:42-43 | a recursor on its parameters, motives, minor premises, indices and a constructor with the rule's fields reduces to the rule's right-hand side on parameters, motives, minor premises and fields, and to nothing else |
| `Shapes.ProjShape` | src/nbe.cpp:873-893 | a projection from a constructor on its parameters and fields reduces to the field with its number, if there is one |
| `Shapes.QuotShape` | src/kam.cpp:563-581 | lifting or inducting over a quotient's constructor applies the function to the representative |
| `MachineSteps.RuleReplay` | src/kam.cpp:368-446 | a rule of the recognised shape, applied to the earlier arguments and the fields, converts with its minor premise applied to the fields and the instantiated hypotheses |
| `MachineSteps.BranchRefinesReplay` | src/kam.cpp:368-446 | entering the minor premise's body directly, with cells only for the hypotheses it mentions, reads back to what replaying the rule gives, and no variable of the body is bound to the placeholder |
| `LazyMachine.Machine.MkThunk` | src/kam.cpp:111-134 | the thunk given, new, shared or taken from the environment, reads back to the closure's term, and no earlier read-back changes |
| `LazyMachine.Machine.Readback` | src/kam.cpp:156-187 | reading back a thunk, whatever its state and cache, gives its original closure's term |
| `LazyMachine.Run.Enter` | src/kam.cpp:233-265 | entering a thunk, delayed, forced or partly forced, keeps every segment of the stack convertible with the mark below it, and with delta the thunk has its full value or is being forced; it is refused exactly when the thunk is being forced already |
| `LazyMachine.Run.Assign` | src/kam.cpp:266-279 | overwriting a forced thunk changes no other thunk and keeps its closure; its value stays convertible with its read-back |
| `LazyMachine.Run.TakeArgs` | src/kam.cpp:280-297 | arguments taken past update marks leave an equivalent state, and every mark passed gets a convertible partial value |
| `LazyMachine.Run.SelectBranch` | src/kam.cpp:368-446 | when the branch is entered directly the state still means what the rule application means, and when not nothing has changed |
| `LazyMachine.Run.BuildCells` | src/kam.cpp:392-446 | exactly the hypotheses under the mask get cells that read back to the rule's hypotheses |
| `LazyMachine.Machine.MajorCtor` | src/kam.cpp:316-335 | the thunk returned has a value, converts with the major premise, and is its constructor form: a numeral one constructor deep, a string spelled out, a structure as eta answers it, anything else itself |
| `LazyMachine.Run.Iota` | src/kam.cpp:316-367 | a recursor step keeps the invariant, and reports a value only if the major premise's value, in constructor form, is no constant with a rule of enough fields, or the number of levels is wrong; the arguments are then back on the stack |
| `LazyMachine.Run.StepRec` | src/kam.cpp:547-562 | a recursor is reported as a value only with too few pending arguments, or as stuck in that sense with its major premise forced |
| `LazyMachine.Run.RecMajor` | src/kam.cpp:547-556 | the major premise is waited for or fired on, never skipped; a K-like recursor whose premise has no value yet asks the kernel for its constructor and goes on with that |
| `LazyMachine.Run.StepQuot` | src/kam.cpp:563-581 | a quotient primitive is reported as a value only with too few pending arguments, or when the forced argument is no `Quot.mk` of three arguments |
| `LazyMachine.Run.StepConst` | src/kam.cpp:542-627 | a constant is reported as a value only if it is such a recursor or quotient primitive, a definition without delta or at the wrong number of levels, `Nat.succ` of what is no numeral, or not reducible at all |
| `LazyMachine.Run.Project` | src/kam.cpp:672-692 | given the structure's answer, the projection is left in place only if that is no constructor application of the structure with the field, a string taken in constructor form; the projection is then itself an answer no step applies to |
| `LazyMachine.Run.NatCompute` | src/kam.cpp:491-521 | a primitive on forced operands gives a state convertible with it, the numeral or constant being `NatBinop`'s; when it leaves `Nat.succ` as it was, the operand is no numeral |
| `NatArith.PrimitiveExact` | src/kam.cpp:491-519 | on any two numerals a primitive answers r if and only if r meets the operation's laws: recursion equations for sum, product and power; r + b = a or zero for subtraction; quotient and remainder with their zero cases; the greatest common divisor by divisibility; bit i of bitwise operations and left shifts from the operands' bits; the quotient by 2^b for right shifts |
| `NatArith.TestsExact` | src/nbe.cpp:826-827 | equality and at-most answer the constants for true and false exactly when the relation holds and does not |
| `NatArith.PrimitiveNames` | src/kam.cpp:478-489 | the primitives of two operands are these fourteen names and no others, whatever the numerals |
| `Utf8.DecodeEncode` | src/kernel.cpp:58-72 | decoding the UTF-8 encoding of any sequence of code points gives the sequence |
| `Utf8.LiteralReads` | src/kernel.cpp:58-80 | a string literal's constructor form is `String.ofList` of a list that reads back as the characters its bytes encode |
| `LazyMachine.Run.Step` | src/kam.cpp:522-641 | after each step the invariant holds again, and a state reported as a value, with the arguments pending above the first continuation, is an answer that no step applies to |
| `LazyMachine.Run.Unwind` | src/kam.cpp:642-700 | after each unwinding step the invariant holds again and the answer stays one that no step applies to, through update marks and stuck projections; when no frame is left the state read back converts with the goal, the delta flag is the one the run began with, and a lambda has no argument left |
| `MachineStack.FinalKept` | src/kam.cpp:266-279 | an answer that no step applies to stays so whatever is forced or allocated later, since full values are never overwritten |
| `LazyMachine.Run.Loop` | src/kam.cpp:642-700 | every run, however it interleaves steps and unwinding, ends with a state that reads back to a term convertible with its goal and that no step applies to, and leaves no thunk marked as being forced that was not before |
| `LazyMachine.Machine.Force` | src/kam.cpp:701-711 | a forced thunk has a value, with delta a full one, full values of other thunks are as they were, and every other invariant of the heap is kept |
| `LazyMachine.Machine.Whnf` | src/kam.cpp:725-741 | over all runs on one heap: the result is closed, convertible with the input, and stands for an answer no step applies to: no beta, let or let-variable redex at its head, no recursor or quotient primitive that would fire, with delta no definition at the right number of levels, and under a stuck projection again such an answer, without the field |
| `NbeModel.CollectAt` | src/nbe.cpp:509-536 | collecting the values of a mask fails for no variable of it and puts each value at the variable's rank, for any nesting of extended and pruned environments |
| `NbeModel.KeyEnvKeeps` | src/nbe.cpp:437-452 | the pruned environment gives every variable of the term the value the full one gives, and the same levels |
| `NbeEval.EvalAgree` | src/nbe.cpp:651-732 | environments that agree on a term's variables evaluate it to equivalent values or the same failure |
| `NbeEval.PruningInvisible` | src/nbe.cpp:437-452 | evaluating under the pruned environment with every inner environment pruned as well is equivalent to evaluating with no pruning at all |
| `NbeSound.EvalSound` | src/nbe.cpp:651-732 | the value of a term reads back to a term convertible with its instance by the environment, and no variable is ever outside its frame |
| `NbeSound.ApplyAllSound` | src/nbe.cpp:757-769 | applying a value to several arguments at once converts with the iterated application |
| `NbeSound.DoProjSound` | src/nbe.cpp:873-893 | projecting a value converts with the projection of its read-back |
| `NbeSound.DoProjFires` | src/nbe.cpp:873-893 | when the value reads back to a constructor application of the structure that has the field, the result reads back to that field: no such projection is left stuck |
| `NbeNormal.ProjFieldSound` | src/nbe.cpp:786-800 | evaluating only the projected field of a constructor under a telescope of lambdas converts with the projection of the whole application |
| `NbeNormal.QuoteSound` | src/nbe.cpp:1627-1653 | quoting gives a term convertible with the value's read-back, in scope at the given depth |
| `NbeNormal.ClosedScope` | src/nbe.cpp:1601-1626 | a value found closed at any depth is in scope at depth zero |
| `NbeReduce.StepSound` | src/nbe.cpp:908-953 | each head step (unfolding, iota with its premise conversions, quotients, primitives, the machine) gives a convertible value |
| `NbeReduce.MachineSound` | src/nbe.cpp:1655-1663 | quoting, fusing, running the machine and evaluating again gives a convertible value, or nothing when the term comes back unchanged |
| `NbeReduce.WhnfSound` | src/nbe.cpp:894-907 | weak-head reduction of a value keeps its read-back up to conversion |
| `NbeReduce.WhnfStuck` | src/nbe.cpp:894-983 | a neutral value returned by weak-head reduction has a stuck head: no variable with a value; if the machine was asked, a term it gives back unchanged; otherwise no definition at the right number of levels, no recursor whose major premise, reduced and put in constructor form, has a rule, no quotient on its constructor |
| `NbeReduce.NormalisedSound` | src/nbe.cpp:1729-1731 | evaluating, reducing and quoting a closed term returns a closed term convertible with it, or fails for a reason other than a variable |
| `NbeReduce.NormalisedNormal` | src/nbe.cpp:1627-1653 | and that term has no beta redex and no let anywhere |
| `NbeReduce.ClosedReadsBack` | src/nbe.cpp:1601-1653 | a closed value quotes at depth zero without ever meeting a variable out of scope |
| `Masks.MaskMemo.FvMask` | src/nbe.cpp:401-409 | through the split and packed memo fields: the answer is "unknown" or exactly the loose variables, and it is known whenever the memo is and space was left |
| `Masks.MaskMemo.FvMaskSlow` | src/nbe.cpp:410-434 | the recomputed mask is unknown or exact, for terms with 64-bit masks and for those that go through wide sets |
| `Masks.MaskMemo.WideBits` | src/nbe.cpp:461-487 | a 256-bit set returned is exactly the loose variables of the term |
| `Masks.MaskMemo.WideCompute` | src/nbe.cpp:488-505 | so is one combined from the parts, with binders shifted out |
| `Masks.MaskMemo.Encode` | src/nbe.cpp:478-485 | the byte list written for a term lists exactly its loose variables, its index is the one recorded, and everything written before stays |
| `Masks.MaskMemo.Decode` | src/nbe.cpp:471-477 | reading a byte list back gives exactly the listed term's loose variables |
| `Masks.ShrIs` | src/nbe.cpp:488-505 | the shift across 64-bit words moves every one of the 256 bits down by one |
| `Masks.BinderMask` | src/nbe.cpp:416-422 | the type's mask joined with the body's shifted by one is exactly the binder's loose variables |
| `SuspendModel.Composed` | src/expr.cpp:379-411 | one environment replaces two nested suspended substitutions: the composed entries substitute as the inner and then the outer |
| `Suspend.ExprTable.MkClos` | src/expr.cpp:379-411 | the handle denotes the substituted term, through composition, variables and untouched terms; over a closure or a term that holds none, a neat table stays neat |
| `Suspend.ExprTable.MkSuspended` | src/expr.cpp:379-411 | the closure node made denotes the substituted term; the invariant it keeps has no closure around a closure or a variable, and every node with its expansion's hash, range and flags |
| `Suspend.ExprTable.SemHash` | src/expr.cpp:280-325 | the hash, the loose-variable range and the flags are those of the expansion, and "temporary" is answered only for terms the permanent tier does not hold |
| `Suspend.ExprTable.Resolve` | src/expr.cpp:329-344 | resolving a view keeps what it denotes |
| `Suspend.ExprTable.ViewEq` | src/expr.cpp:346-370 | a yes means equal expansions; a no means different ones for a permanent view and, in a neat table, for all views over terms that hold no closure; where no node has to be made the answer is `Comparison.ViewsAgree` |
| `Comparison.ViewsRight` | src/expr.cpp:346-370 | the comparison as a function: a yes is right in every table, a no in a neat one about views over terms that hold no closure |
| `Comparison.OverlookedExactly` | src/expr.cpp:329-357 | in a neat table, the views of closures and of terms that hold none that have an equal view compared as different are exactly those of an unexposed closure under a substitution that leaves it alone |
| `Comparison.HeldClosure` | src/expr.cpp:329-357 | why bodies must hold no closure: f applied to a closure, and f applied to the variable that the substitution replaces by that closure, denote one term and compare as different |
| `Overlooked.TwoHandles` | src/expr.cpp:346-370 | a run of loading, freezing and instantiating that ends with two handles for one term, and the equality test answers no about them |
| `Suspend.ExprTable.SemEq` | src/expr.cpp:371-377 | for two handles, the answer is exact in a neat table, and when one is permanent; a yes is always right |
| `Suspend.ExprTable.Expose` | src/expr.cpp:412-439 | exposing in place changes no handle's expansion; hash, range and flags of the new node agree with the closure's, so the failure branches are never taken; a neat table stays neat |
| `Suspend.ExprTable.Expand` | src/expr.cpp:572-574 | the fully expanded copy denotes the same term; in a neat table it is the same handle, which then holds no closure |
| `Suspend.ExprTable.Instantiate` | src/expr.cpp:555-570 | lazy instantiation with closed entries denotes what eager instantiation computes; over a closure or a term that holds none, a neat table stays neat |
| `Suspend.ExprTable.Intern` | src/expr.cpp:50-91 | a node is found or added so that the handle denotes it; the permanent tier keeps one handle for each of its terms although temporary nodes skip its probe, and a neat table, one handle for each term of either tier, stays neat |
| `Suspend.ExprTable.Probe` | src/common.h:158-190 | the probe, whose equality test may fill slots and grow the index and which then starts again, ends at an equal handle, or at the node's first empty slot past handles of other terms |
| `SuspendProbe.WalkEnds` | src/common.h:158-190 | a probe that ends at an empty slot past other terms shows that no handle of that tier denotes the term |
| `SuspendProbe.PlaceOk` | src/expr.cpp:50-91 | filling that slot keeps every invariant: each tier's index holds exactly its handles where their probes lead, the record of filled slots is exactly the full ones, and a neat table stays neat |
| `SuspendTidy.ClearLater` | src/expr.cpp:412-439 | a term that holds no closure never comes to hold one, whatever is added or exposed |
| `Suspend.ExprTable.Make` | src/expr.cpp:50-91 | any node but a closure gets a handle that denotes it, and a neat table stays neat |
| `SuspendModel.AppendOk` | src/expr.cpp:50-91 | adding a node no handle denotes keeps all invariants and every earlier handle's term |
| `SuspendModel.ExposeOk` | src/expr.cpp:412-439 | overwriting a temporary closure by a node that denotes the same keeps all invariants |
| `SuspendModel.TempPartNotPerm` | src/expr.cpp:50-91 | a node with a temporary child or a free variable denotes a term that no permanent handle denotes |
| `Suspend.ExprTable.Reclaim` | src/expr.cpp:145-161 | the permanent tier and its index are as at the freeze, nothing else is left, the temporary index is empty whichever way it was reset, and the table is neat |
| `SuspendProbe.TruncatedOk` | src/expr.cpp:145-161 | after any sequence of constructions and exposures the permanent part alone satisfies every invariant, its index included |
| `Suspend.ExprTable.Freeze` | src/expr.cpp:144-144 | everything interned so far becomes the permanent tier, and the table is neat |
| `InternTable.Table.Intern` | src/common.h:158-176 | with a plain comparison, as for numerals, strings and environments: the table returns an equal handle if it holds one and adds the given one otherwise, changing nothing else, across growth |
| `InternTable.Table.Find` | src/common.h:177-190 | a handle is found exactly when an equal one is in the table |
| `InternTable.Grow` | src/common.h:222-234 | growing keeps the contents and the count, puts every element where its probes lead, and records exactly the full slots |
| `InternTable.ClearUsed` | src/common.h:150-157 | clearing only the recorded slots empties the whole table |
| `BulkIndex.RunInv` | src/common.h:191-207 | the probing invariant holds after every interleaving of the threads' loads and compare-and-swaps, stale loads included |
| `BulkIndex.BulkInsertExact` | src/common.h:191-207 | when every thread has finished, a duplicate is flagged exactly when two handles are equal, and otherwise every handle is in the table once and on its own probe sequence |
| `BulkIndex.RangesCover` | src/expr.cpp:119-135 | the threads' ranges are disjoint and cover every handle |
| `LoadedIndex.DenInjective` | src/expr.h:84-90 | with parts before wholes and no two equal nodes, different handles denote different terms |
| `LoadedIndex.BuildIndexExact` | src/expr.cpp:119-135 | if no duplicate is flagged in a run, the loaded table satisfies every invariant of interning, its index included, and is neat; a flag means two handles denote one term |
| `Names.LtIsLexicographic` | src/name.cpp:83-105 | on non-anonymous names the table's comparison, shortcut included, is lexicographic on components from the root |
| `Names.LtStrictTotal` | src/name.cpp:83-105 | it is a strict total order on them |
| `Names.LtCyclesThroughAnonymous` | src/name.cpp:83-105 | with the anonymous name it is not transitive |
| `Names.Less` | src/name.cpp:83-105 | the loop over local component arrays computes that comparison |
| `Levels.NeverZeroExactly` | src/level.cpp:61-70 | the test holds exactly when the level is positive under every assignment |
| `Levels.ZeroLevelExactly` | src/nbe.cpp:310-322 | the syntactic zero test, being zero under every assignment, and normalising to zero are equivalent |
| `Levels.NormalizeValue` | src/level.cpp:123-168 | normalisation keeps the value under every assignment: flattening, sorting, absorbed constants and merged offsets included |
| `Levels.EquivalentSound` | src/level.cpp:170-170 | levels found equivalent have the same value under every assignment |
| `Levels.GeqSound` | src/level.cpp:172-183 | a level found at least another is so under every assignment; the recursion, which normalises at each call, ends because each call lowers the summed weight |
| `LevelsExact.GeqExactly` | src/level.cpp:172-183 | without `IMax`, a level is found at least another if and only if its value is at least the other's under every assignment |
| `LevelsExact.EquivalentExactly` | src/level.cpp:123-170 | without `IMax`, levels are found equivalent if and only if their values agree under every assignment: normal forms are canonical |
| `LevelsExact.GeqMissesIMax` | src/level.cpp:172-183 | with `IMax` the comparison is incomplete: for any three parameters u, v, w, `imax (max u w) v` is always at least `imax u v` and is not found so |
| `Levels.NormalizeWeight` | src/level.cpp:123-168 | normalisation, which can enlarge a level, never raises its weight |
| `Levels.SortSorted` | src/level.cpp:97-112 | sorting by the source's order gives an ordered sequence |
| `Levels.SortIsUnique` | src/level.cpp:97-112 | and the only one with the same members, so any sort gives the same result |
| `Levels.InstLevelValue` | src/level.cpp:193-205 | instantiating parameters gives the value under the assignment read through the arguments |
| `Levels.Normalizer.Run` | src/level.cpp:123-130 | memoised normalisation returns the normal form and keeps the memo exact |
| `Levels.Normalizer.Core` | src/level.cpp:131-168 | the loops over argument lists compute the specified normal form |
| `Fusion.FusesBeta` | src/fuse.cpp:240-291 | simultaneous instantiation over open arguments is reached by single beta steps |
| `Fusion.FusesIota` | src/fuse.cpp:190-208 | firing a recursor on a syntactic constructor application is an iota step, over-application included |
| `Fusion.FusesProj` | src/fuse.cpp:143-153 | picking a constructor's field is a projection step that brings in no variable |
| `Fusion.CountBVars` | src/fuse.cpp:112-129 | the worklist counts each argument's occurrences, capped at two, or reports two for all when it gives up |
| `Fusion.Fuser.ShareOk` | src/fuse.cpp:169-188 | beta that duplicates an argument is allowed only for arguments cheap to copy |
| `Fusion.Fuser.Fuse` | src/fuse.cpp:210-238 | whatever the budget, depth, memo and duplication limits do, the result is reached from the term by reduction steps and brings in no loose variable; if no limit was met and no head that was fused in place was left (src/fuse.cpp:280-287), nothing is left for fusion to do in it: no projection of a constructor's field, no recursor on a constructor with a rule, no definition worth unfolding, no applied lambda all of whose arguments are cheap |
| `Fusion.Fuser.FuseApp` | src/fuse.cpp:240-291 | the same for an application, whose head is reduced until nothing applies there |
| `Fusion.FuseTerm` | src/fuse.cpp:293-305 | the same for a whole definition, and for every entry left in the persistent cache: each is reached by reduction, and if nothing was cut nothing is left to do in any |
| `Closing.Reopened` | src/expr.cpp:581-591 | abstracting variables and instantiating others in their place is renaming them |
| `Closing.Reclosed` | src/expr.cpp:581-591 | instantiating by distinct variables that a term avoids and abstracting them again changes nothing |
| `Closing.RenameInstantiate` | src/expr.cpp:541-553 | renaming free variables commutes with instantiation, in the term and in what is put in |
| `Closing.LocalCtx.Close` | src/kernel.cpp:28-47 | the loop builds one binder per variable, its type abstracted over the earlier ones: the term that `CloseReopens` describes |
| `Closing.CloseReopens` | src/kernel.cpp:28-47 | what is closed over declarations is a let at each one with a value and at the others a Pi or a lambda, as asked for; it reopens to their types and values and the body |
| `Closing.BindFromShape` | src/kernel.cpp:28-47 | over declarations without values the binders are all Pis or all lambdas, as asked for, around what was abstracted |
| `Closing.OpenRecloses` | src/kernel.cpp:28-47 | opening a closed type's leading Pis with fresh variables and closing over them gives the type back |
| `Closing.Open` | src/inductive.cpp:149-155 | the loop opens n binders with fresh variables of the instantiated types, and refuses exactly when there are fewer |
| `NestedNames.AppendInjective` | src/inductive.cpp:41-45 | indexed names are different for different indices, whatever their bases |
| `NestedNames.Unique` | src/inductive.cpp:72-74 | the search for a free name ends, with a name no declaration has and none of the earlier auxiliary names |
| `NestedModel.PrefixRoundTrip` | src/inductive.cpp:33-39 | replacing a prefix and replacing it back gives the name |
| `NestedModel.RestoreEliminated` | src/inductive.cpp:214-242 | restoring the rewritten form of a term gives the term |
| `NestedRestore.RoundTrip` | src/inductive.cpp:163-211 | restoring the eliminated form of any constructor type that names nothing auxiliary gives the type back |
| `NestedRestore.RoundTripExactly` | src/inductive.cpp:163-242 | it does so for every declarable constructor type if and only if the auxiliary constructors' names are reserved |
| `NestedRestore.AuxCtorReserved` | src/inductive.cpp:118-124 | an auxiliary constructor's name is reserved if the real one has its type's name as a prefix, and is the real one's name if not |
| `NestedRestore.FreshRestores` | src/inductive.cpp:163-206 | the fresh variables a type is opened with do not matter to what restoration gives |
| `NestedTerms.EliminatedBy` | src/inductive.cpp:149-158 | opening, rewriting and closing gives a closed type with the same parameters whose body is the rewritten one |
| `NestedTerms.CopiedType` | src/inductive.cpp:112-124 | the type made for an auxiliary type or constructor, opened over the block's parameters, is the real one's at the levels and parameters of the nested application |
| `NestedTerms.InstantiatePisOpens` | src/inductive.cpp:112-121 | instantiating a type's leading Pis at free variables is opening it with them, in order |
| `NestedRun.NestedElim.ReplaceIfNested` | src/inductive.cpp:83-129 | an application is replaced exactly when it is nested, by an auxiliary type whose key over the block's parameters is that application; if the table holds the key no type is added |
| `NestedRun.NestedElim.AddAux` | src/inductive.cpp:104-128 | an auxiliary type is added under a new name, with the real type's type at the nested levels and parameters and with copies of all constructors; earlier types and keys stay |
| `NestedRun.NestedElim.ReplaceAll` | src/inductive.cpp:142-144 | the outermost nested applications, and nothing else, are replaced while the tables grow |
| `NestedRun.NestedElim.Run` | src/inductive.cpp:146-160 | at the end every constructor's type, auxiliary types' included, is the eliminated form of the one first written, every auxiliary type's type is the real one's at its key's levels and parameters, and the block's types keep theirs |
| `NestedRun.NestedElim.Restore` | src/inductive.cpp:163-206 | the restored type, computed with fresh variables, is the specified one |
| `NestedRun.NestedElim.RunRestores` | src/inductive.cpp:146-242 | after a run whose auxiliary constructors' names are new in the environment, as adding them (src/inductive.cpp:606) tests before anything is restored, every constructor's type restores to the one first written |
| `NestedRules.RenamedBack` | src/inductive.cpp:175-178 | a rule written with the auxiliary recursors in place of the renamed ones restores to the rule with the renamed ones |
| `NestedRules.RuleRestored` | src/inductive.cpp:163-242 | a restored rule, binders included, mentions no auxiliary recursor, if the tables put none in and parameters of auxiliary applications inside arguments have none |
| `DeclOrder.CheckTopologicalOrder` | src/main.cpp:123-182 | the one-pass check accepts exactly when no declaration's terms cite a constant first introduced by a later one |
| `Workers.RunInv` | src/main.cpp:281-325 | the claim and tally invariant holds after every interleaving of claims, checks, rejections, exits and deaths |
| `Workers.NeverTwice` | src/main.cpp:281-325 | no declaration is checked twice |
| `Workers.AllChecked` | src/main.cpp:242-325 | if all workers finish and none fails, every declaration was checked and is good, and the tally counts each once |
| `Workers.ExitCodeExact` | src/main.cpp:242-272 | the parent exits with success exactly when no worker died and every declaration is good |
| `Workers.TurnProgress` | src/main.cpp:281-325 | every turn of an unfinished worker brings it nearer its end and moves no other |
| `ParallelOrder.SameVerdict` | src/main.cpp:304-312 | if no declaration uses a constant introduced later, checking one with its own constants hidden among all others gives the verdict of checking it after the earlier ones |
| `ParallelOrder.AgreeExactly` | src/main.cpp:224-228 | the two ways agree for every checker that looks up only what is used, if and only if no declaration uses a constant introduced later: cited, behind a literal or a projection, or named by its data |
| `ParallelOrder.UseOrderPasses` | src/main.cpp:123-182 | such an order passes the order check |
| `ParallelOrder.LiteralBeforeType` | src/main.cpp:123-182 | the converse fails: a projection out of a string placed before the structure of strings passes, is accepted in parallel and rejected in file order |
| `ParallelOrder.ParallelIsSequential` | src/main.cpp:242-325 | if no declaration uses a constant introduced later, a parallel run in which no worker dies succeeds exactly when checking in file order does |
| `NumParse.DigitCountIs` | src/loader.cpp:66-75 | the byte masks find the length of the run of digits at the front of eight bytes |
| `NumParse.CombineIs` | src/loader.cpp:76-80 | the three multiplications give the decimal value of eight digits |
| `NumParse.TopDigitsIs` | src/loader.cpp:76-80 | shifting the first k bytes to the top and combining gives the decimal value of those k digits |
| `NumParse.FastNum` | src/loader.cpp:69-82 | the eight-byte reader consumes the digits up to the first other byte and gives their value modulo 2^64 |
| `NumParse.Num` | src/loader.cpp:66-88 | so does the reader on every buffer, short ones included: both paths agree |

## Left out

- Typing and completeness of conversion: `infer`, `conv` and the type checker are not modelled; K-like reduction and structure eta are functions assumed to return convertible closed terms.
- LazyMachine.Machine.Whnf: runs are bounded by fuel and an exhausted run answers nothing; a K-like recursor may stay stuck on a major premise that had its value before, as the source asks for its constructor only when it has none (`RecMajor`); reference counts and the cache of masks across different binder counts are not modelled.
- NbeReduce.NormalisedSound: bounded by fuel; the evaluation memo tables and hash-consing of values are exact and therefore absent, and so are weak-head results remembered in a value and used at another depth; closures kept for inference, `value_type` with the unused-argument value of `tele_apply`, and `conv` are not modelled; the constructor form of a string literal is a parameter; sizes at which `nat_binop` gives up are not modelled.
- NbeReduce.MachineSound: fusion and the machine are functions with the contracts of `Fusion.FuseTerm` and `LazyMachine.Machine.Whnf`, as a function cannot call a method.
- Fusion.Fuser.Fuse: bounded by fuel besides the source's own limits; which definitions are worth unfolding is a parameter; that the cache's content depends on context once a limit was met is the source's behaviour, and only its soundness is then proved; a head that was fused in place is not looked at again (src/fuse.cpp:280-287), so a recursor or an argument that turns up there can stay.
- Suspend.ExprTable.SemEq: bounded by fuel; a "no" is claimed only where the source makes it true, as said above; the direct-mapped memos are exact keys and therefore absent; binder names and annotations are no part of a node.
- Suspend.ExprTable.Intern: the candidate node is compared before it is pushed, where the source pushes it and pops it if it is still last; the unused handle that is left when it is not last is not modelled, nor are numerals and strings as tables of their own.
- Suspend.ExprTable.Probe: a probe that meets no empty slot gives up, where the source's would not end; no bound on nested probes excludes it.
- Suspend.ExprTable.MkEnv: environments are looked for one by one, where the source probes a table with plain equality, as `InternTable.Table` has.
- Comparison.HeldClosure: the closure is an application's argument and its function's view makes no node; closures held elsewhere are not shown to be overlooked.
- InternTable.Table.Intern: hashes are any function that respects equality; slots hold a handle without the packed tag bits; the node table's probe, with its re-entrant equality, is `Suspend.ExprTable.Probe`.
- BulkIndex.RunInv: a thread's load may miss another's store (modelled as a stale step); other reorderings of a weak memory are not modelled.
- NestedRun.NestedElim.Run: the number of types processed is bounded by fuel, as a block can nest without end; instantiating a constant with the wrong number of universe levels, which the source does not check, is an error; recursor types and rules are covered only by Restore's contract and `NestedRules`.
- NestedRestore.RoundTrip: stated for closed types without free variables, as exports have them.
- Names.LtStrictTotal: non-anonymous names only; the order is not transitive with the anonymous one.
- Levels.EquivalentSound: with `IMax` soundness only; normalisation is then neither idempotent nor complete. Without it see `LevelsExact`.
- Levels.GeqSound: levels whose parameters are non-anonymous names, as for `NormalizeValue`, `EquivalentSound`, `ZeroLevelExactly` and `LevelsExact`; which levels with `IMax` are compared completely is not characterised.
- NestedRules.RuleRestored: the names an auxiliary recursor's rule may mention are stated as conditions on it; how rules are generated is not modelled.
- ParallelOrder.ParallelIsSequential: the checker is a function assumed to depend only on what is used; which constants literals bring in is a parameter, and names that the checker makes up, as for auxiliary types, count as used only where a declaration's data lists them; options that select declarations are not modelled.
- Workers.AllChecked: a worker's death is an event of the schedule; sharding and trust files are not modelled.
- Integers are unbounded except where a word's width matters (masks, number parsing); a right shift by 2^64 or more gives zero.
- Fixpoint rules are given data whose soundness is assumed; how src/fix.cpp derives them, and its copying of terms across a reclaim, is not modelled.
- The loader's line shapes, arenas, mapping of files, statistics, tracing and the command line.
