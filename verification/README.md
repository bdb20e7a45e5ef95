# A verified model of the matrix library and the script runtime

This project models two layers of the repository in Dafny 4.11 and proves what they promise.

**Matrix library.** `miniblas/miniblas.c` and `miniblas/linalg.c` work in place on flat column-major buffers with
leading dimensions. The model keeps the buffers, the flat index, the loop orders, the zero-skipping branches and the
choice between the four-lane and the scalar helpers (the flag `lanes`), and computes over the real numbers. The main
results: triangular solves and products in all eight forms satisfy their matrix equations, touch only their window, and
undo each other; Cholesky factorization decides positive definiteness, and factor-and-solve solves; the UDU'
decomposition says exactly which blocks are positive definite.

**Script runtime.** `exprtk/src` holds the state machines: the evaluator under a node budget, closures that capture
only the names they read, reference-counted captured scopes, decimals, the identities of classes, instance fields with
cached slots, abstract methods, ranks and weighted variances, and batch registration of native functions.

| Modules | What they hold |
|---|---|
| Sums, Storage, Kernels | finite sums, column-major buffers, the vector helpers |
| Triangular, TriangularSolve, TriangularMultiply | loop invariants of triangular systems, STRSM, STRMM |
| Products | SGEMM, SSYRK, SSYMM |
| Definite, CholeskyFactorization, UduDecomposition, Linalg | positive definiteness, the two factorizations, the wrappers and results across routines |
| Script, FreeVariables, Evaluator, Interpreter, Simulation | the language, the collector, the evaluator as a specification and in place, two evaluations side by side |
| Meaning, Adequacy, Replays | the language by rules, without budgets; the evaluator computes exactly what the rules allow |
| Closures, Overruns | the node budget and capture by need; when the abort flag survives |
| Snapshots, SnapshotChain | reference counts as a state machine, and the linked chain that implements it |
| Decimals, DecimalText | normal form and comparison, reading and printing |
| ClassIdentity, Identities | finalization and clones; what an identity says about a class |
| InstanceFields, AbstractMethods | slots and tables, obligations |
| Statistics, Registration | variance and ranks, batch registration |

## Where the code and its documentation differ

The model follows the code in each case.

- `miniblas/linalg.h:85-87` says that `cholesky` needs the upper triangle; the code reads the lower one
  (`miniblas/linalg.c:89-111`). `Linalg.LowerTriangleDecides` shows that it matters.
- A comment in `udu` says that the matrix is not positive definite when it returns -1 (`miniblas/linalg.c:193`), which
  suggests that 0 means the opposite, but `d[0]` is never tested
  (`miniblas/linalg.c:188-199`). `UduDecomposition.Udu` states exactly what a result of 0 means, and
  `UduDecomposition.FirstPivotUntested` gives a matrix that passes.
- The wrappers assert that the routine behind them succeeds, which fails for n = 0 (`Linalg.WrapperArguments`).
- A call takes over the abort flag of its callee (`exprtk/src/exprtk_runtime.c:1657`), so an abort inside an argument
  can be overwritten. For the node budget this is harmless, because the counter is handed through
  (`Closures.BudgetHonoured`); a passed loop or recursion limit can be forgotten (`Overruns.LoopLimitForgotten`,
  `Overruns.RecursionLimitForgotten`). `Overruns.FlagAfterCall` says for one call exactly when the flag survives, and
  `Overruns.LimitsHonoured` gives a discipline on call arguments under which it always does.
- Captured names do not include assignment targets, so a constant of the defining scope can be shadowed, by an assignment
  or by a parameter (`Closures.ConstantsMatter`, `Closures.ArgumentsMatter`). `Closures.CaptureByNeed` holds whenever
  neither happens, and `Closures.CaptureExactly` shows that no weaker condition on the names read and assigned will do.
- Destroying a function value never gives its scope reference back (`exprtk/src/exprtk_value.c:106-116` and `340-345`).
  Counts are therefore exact only when such losses are counted too (`Snapshots.CountedAlways`), and a lost reference pins
  its snapshot (`Snapshots.LostForever`). A count of 0, which the comments provide for, is never reached.

## Model

| member | source | states |
|---|---|---|
| Storage.IndexInjective | miniblas/linalg.h:23 | The flat index row + col * ld names each entry once: two entries share a cell only if they are the same entry |
| Kernels.VecZero | miniblas/miniblas.c:47-60 | Zeroes exactly the stretch given, in the four-lane and in the scalar build, for every length |
| Kernels.VecScale | miniblas/miniblas.c:62-76 | Scales exactly the stretch given, in both builds |
| Kernels.VecAxpy | miniblas/miniblas.c:78-93 | Adds alpha times one stretch to another, in both builds, and changes nothing else |
| Kernels.VecAxpby | miniblas/miniblas.c:95-125 | beta * y + alpha * x in both builds; with beta 0 the old contents do not matter |
| Kernels.VecDot | miniblas/miniblas.c:127-150 | The four partial sums add up to the inner product of the whole stretches, for every length |
| TriangularSolve.LeftUpper | miniblas/miniblas.c:359-389 | One column: with A upper, A * x = alpha * b holds afterwards, zero entries skipped or not |
| TriangularSolve.LeftLower | miniblas/miniblas.c:390-421 | One column: with A lower, A * x = alpha * b holds afterwards |
| TriangularSolve.LeftUpperTrans | miniblas/miniblas.c:425-448 | One column: with A upper, A' * x = alpha * b holds afterwards |
| TriangularSolve.LeftLowerTrans | miniblas/miniblas.c:449-471 | One column: with A lower, A' * x = alpha * b holds afterwards |
| TriangularSolve.RightUpper | miniblas/miniblas.c:476-512 | Every row of the window satisfies x * A = alpha * b for A upper; nothing outside the window changes |
| TriangularSolve.RightLower | miniblas/miniblas.c:513-548 | Every row of the window satisfies x * A = alpha * b for A lower |
| TriangularSolve.RightUpperTrans | miniblas/miniblas.c:549-586 | Every row of the window satisfies x * A' = alpha * b for A upper |
| TriangularSolve.RightLowerTrans | miniblas/miniblas.c:587-625 | Every row of the window satisfies x * A' = alpha * b for A lower |
| TriangularSolve.Strsm | miniblas/miniblas.c:162-625 | For every side, triangle, transposition, diagonal, alpha and leading dimensions: the result is 0 exactly if the sizes are not negative and the leading dimensions large enough, and else names the first bad argument and changes nothing; with 0 the m-by-n window, and only it, becomes the X with op(A) * X = alpha * B or X * op(A) = alpha * B |
| TriangularSolve.OnlyWindowCells | miniblas/miniblas.c:162-625 | In terms of the flat buffer, every cell outside the m-by-n window keeps its value, the gaps between the columns included |
| TriangularSolve.ResultDetermined | miniblas/miniblas.c:196-239 | The equation has one solution, and it depends on A through the named triangle alone (and not on the diagonal of a unit triangular A) |
| TriangularMultiply.LeftUpper | miniblas/miniblas.c:2023-2042 | One column becomes alpha * A * b in place, A upper |
| TriangularMultiply.LeftLower | miniblas/miniblas.c:2043-2061 | One column becomes alpha * A * b in place, A lower |
| TriangularMultiply.LeftUpperTrans | miniblas/miniblas.c:2063-2078 | One column becomes alpha * A' * b in place, A upper |
| TriangularMultiply.LeftLowerTrans | miniblas/miniblas.c:2079-2096 | One column becomes alpha * A' * b in place, A lower |
| TriangularMultiply.RightUpper | miniblas/miniblas.c:2099-2121 | Every row becomes alpha * b * A in place, A upper |
| TriangularMultiply.RightLower | miniblas/miniblas.c:2122-2145 | Every row becomes alpha * b * A in place, A lower |
| TriangularMultiply.RightUpperTrans | miniblas/miniblas.c:2147-2172 | Every row becomes alpha * b * A' in place, A upper |
| TriangularMultiply.RightLowerTrans | miniblas/miniblas.c:2173-2198 | Every row becomes alpha * b * A' in place, A lower |
| TriangularMultiply.Strmm | miniblas/miniblas.c:1831-2202 | In all eight branches the window, and only it, becomes alpha times the product with op(A) |
| TriangularMultiply.SolveThenMultiply | miniblas/miniblas.c:355-625 | Solving with alpha and then multiplying with 1 leaves exactly alpha * B in the window and everything else as it was, although the two routines use different loop orders |
| TriangularMultiply.MultiplyUndoesSolve | miniblas/miniblas.c:2021-2199 | The two equations together force the result alpha * B, cell by cell, in every leading dimension |
| Products.Sgemm | miniblas/miniblas.c:630-1033 | alpha * op(A) * op(B) + beta * C on the window in all four forms, both builds, any leading dimensions; argument errors change nothing |
| Products.Ssyrk | miniblas/miniblas.c:1038-1444 | The named triangle becomes alpha * A * A' (or A' * A) + beta * C; every other cell is unchanged |
| Products.Ssymm | miniblas/miniblas.c:1449-1826 | The product with the symmetric matrix that the named triangle stands for, on either side |
| Linalg.SymmAgreesWithGemm | miniblas/miniblas.c:1687-1826 | The symmetric product leaves what the general product leaves on the mirrored matrix |
| Linalg.SyrkAgreesWithGemm | miniblas/miniblas.c:1282-1444 | The rank-k update agrees with the general product on its triangle, leaves the other triangle alone, and the product is symmetric |
| CholeskyFactorization.Cholesky | miniblas/linalg.c:73-113 | Returns 0 exactly if the symmetric matrix given by the lower triangle is positive definite; then L * L' is that matrix with a positive diagonal, and the strict upper triangle is zeroed or untouched as asked |
| CholeskyFactorization.ColumnStep | miniblas/linalg.c:93-110 | One column of elimination keeps what the finished columns and the remaining block together say about the matrix |
| CholeskyFactorization.FailureWitness | miniblas/linalg.c:91-95 | A pivot that is not positive yields a nonzero x with x' * A * x <= 0, built from the columns finished so far |
| CholeskyFactorization.SuccessDefinite | miniblas/linalg.c:73-113 | Positive pivots throughout make the matrix positive definite |
| UduDecomposition.Udu | miniblas/linalg.c:144-205 | Returns 0 exactly if the block behind the first row is positive definite; then U * diag(d) * U' is the matrix given by the upper triangle, U unit upper triangular, and d[0] > 0 exactly if the whole matrix is positive definite |
| UduDecomposition.ColumnStep | miniblas/linalg.c:171-203 | Computing a column of U and its weight extends the part of the matrix that the factors explain |
| UduDecomposition.FirstPivotUntested | miniblas/linalg.c:188-199 | A result of 0 does not make the matrix positive definite: the 1-by-1 matrix -1 passes |
| Linalg.WrapperArguments | miniblas/linalg.c:115-142 | The wrappers pass the argument check exactly for n >= 1 (and m >= 1 on the right-hand side) |
| Linalg.Trisolve | miniblas/linalg.c:115-123 | Overwrites B by the solution with the lower triangle, transposed or not |
| Linalg.TrisolveRight | miniblas/linalg.c:125-133 | Overwrites A by the solution of X * op(L) = A |
| Linalg.SymmetricRankUpdate | miniblas/linalg.c:135-142 | Subtracts E * E' on the upper triangle and changes no other cell |
| Linalg.Matmul | miniblas/linalg.c:43-51 | alpha * op(A) * op(B) + beta * C for matrices stored without gaps |
| Linalg.MatmulSym | miniblas/linalg.c:53-62 | C becomes A * B with A symmetric and given by its upper triangle |
| Linalg.FactorAndSolve | miniblas/linalg.c:73-123 | Factor, then solve with the factor and with its transpose: B becomes the X with A * X = B, and the return code decides positive definiteness |
| Linalg.FactorSolves | miniblas/linalg.c:115-123 | The two triangular equations chain to one equation with the factored matrix |
| Linalg.LowerTriangleDecides | miniblas/linalg.h:85-87 | A matrix whose upper triangle stands for a positive definite matrix and whose lower triangle does not: the triangle read decides |
| Script.SetVarLookup | exprtk/src/exprtk_runtime.c:593-618 | Assignment changes the variable where it is found, or else in the innermost scope, and a constant not at all |
| Script.SnapshotAllLookup | exprtk/src/exprtk_runtime.c:778-815 | A full snapshot holds exactly the visible variables, the innermost of each name |
| FreeVariables.CollectExtends | exprtk/src/exprtk_runtime.c:3938-4083 | The collector keeps its list, without duplicates, and adds exactly the names read in the tree |
| FreeVariables.ReadsExactly | exprtk/src/exprtk_runtime.c:3938-4083 | A name is read by a node exactly if the node is it or calls it or a node one step below reads it, bodies of nested functions included |
| FreeVariables.AssignsExactly | exprtk/src/exprtk_runtime.c:3956-3959 | A name is assigned by a node exactly if the node assigns it or a node one step below does, bodies of nested functions excluded |
| FreeVariables.ClosureFreeVarsMeaning | exprtk/src/exprtk_runtime.c:4085-4119 | The captured names are the names read in the body that are not parameters, each once |
| FreeVariables.Collector.Visit | exprtk/src/exprtk_runtime.c:3938-4083 | The collector in place computes the specified list, in order of first occurrence |
| FreeVariables.CollectClosureFreeVars | exprtk/src/exprtk_runtime.c:4085-4119 | The resulting array has exactly the names read and not bound by a parameter, each once |
| Evaluator.Eval | exprtk/src/exprtk_eval.c:354-374 | Every evaluation terminates, consumes at least one node unless already aborted, never gives budget back, and ends aborted if it is past its node budget |
| Interpreter.Environment.Evaluate | exprtk/src/exprtk_eval.c:354-628 | The evaluator in place, one environment object per frame, computes what the specification says: value, flow, variables and counters |
| Interpreter.Environment.Tick | exprtk/src/exprtk_eval.c:342-352 | Counts a loop turn and aborts past the limit |
| Interpreter.Environment.RunWhile | exprtk/src/exprtk_eval.c:517-538 | The while loop equals the specified sequence of turns |
| Interpreter.Environment.RunFor | exprtk/src/exprtk_eval.c:539-567 | The for loop with its optional parts equals the specified sequence of turns |
| Interpreter.Environment.RunDoWhile | exprtk/src/exprtk_eval.c:1019-1040 | The do-while loop equals the specified sequence of turns |
| Interpreter.Environment.RunBlock | exprtk/src/exprtk_eval.c:568-576 | Statements are evaluated in order until control flow leaves |
| Interpreter.Environment.ExpandArgs | exprtk/src/exprtk_runtime.c:1699-1768 | Arguments are evaluated left to right; evaluation stops early but the values so far are passed on |
| Interpreter.Environment.RunCall | exprtk/src/exprtk_eval.c:837-876 | The callee is looked up before the arguments are evaluated and, if it is no function value, again afterwards; any other name is a builtin |
| Interpreter.Environment.CallFunctionValue | exprtk/src/exprtk_runtime.c:1540-1680 | A call evaluates the body in a frame over the captured scope, hands the counters through, and leaves the caller's variables alone |
| Meaning.AssignedIs | exprtk/src/exprtk_runtime.c:593-640 | The tables after an assignment are those with the innermost variable of the name overwritten, unless it is constant, or with a new one in the first table |
| Meaning.BoundIs | exprtk/src/exprtk_runtime.c:1594-1625 | The first table of a call holds the captured constants, the last argument given for each parameter, the number 0 for a missing one, and the other captured variables but `this` |
| Meaning.HoldsIs | exprtk/src/exprtk_runtime.c:759-836 | A new function holds exactly the variables its body reads and no parameter binds, as they are seen where it is created |
| Adequacy.EvalRuns | exprtk/src/exprtk_eval.c:354-628 | Every evaluation that passes no limit is a run by the rules of the language, rules without budgets and counters, with the same value, flow, variables and error: loops, calls and errors included |
| Replays.EvalReplays | exprtk/src/exprtk_eval.c:354-628 | Every run by the rules is what the evaluator computes under all limits that leave room for it, and it costs no more than its steps |
| Replays.EveryRunMeans | exprtk/src/exprtk_eval.c:354-628 | A run in which no limit was passed, not even one whose flag a call overwrote, has exactly the outcome the rules give: no other one is possible |
| Replays.MeaningExactly | exprtk/src/exprtk_eval.c:354-628 | The rules allow an outcome if and only if the evaluator comes to it under some limits without passing any |
| Replays.MeaningUnique | exprtk/src/exprtk_eval.c:354-628 | The rules determine one value, flow and set of variables |
| Replays.BinaryOfLiterals | exprtk/src/exprtk_eval.c:598-616 | With two literals the operator is applied to the left one and the right one in this order; its value is the result, its error is thrown |
| Replays.BuiltinOfLiterals | exprtk/src/exprtk_eval.c:837-876 | A builtin gets its arguments in the order in which they are written |
| Replays.ReturnOfLiteral | exprtk/src/exprtk_runtime.c:1655-1668 | The caller gets the value that the body returns |
| Closures.BudgetHonoured | exprtk/src/exprtk_eval.c:366-373 | Starting unaborted, a run that spends more nodes than allowed comes back aborted |
| Closures.LargerBudget | exprtk/src/exprtk_eval.c:354-374 | A run that fits its node budget has the same value, flow, variables and counters under every larger budget |
| Script.FrameLookup | exprtk/src/exprtk_runtime.c:1157-1175 | At the start of a call a name is the last argument given for it, unless a captured constant of that name is in the way, or else the captured variable |
| Closures.FramesAlike | exprtk/src/exprtk_runtime.c:759-836 | For every argument list, the frames over the collected names and over everything visible agree on what the body reads and assigns if and only if no constant keeps a used parameter out and no constant is assigned without being read |
| Closures.CaptureByNeed | exprtk/src/exprtk_runtime.c:759-836 | Under that condition a closure that captures only the collected names behaves in every call like one that captures everything visible: value, flow, error, counters and the caller's variables |
| Closures.CaptureExactly | exprtk/src/exprtk_runtime.c:759-836 | The condition is exact: all bodies with these names read and assigned behave alike over either capture, in all calls, if and only if it holds |
| Closures.ConstantsMatter | exprtk/src/exprtk_runtime.c:593-618 | For every constant that is assigned and not captured, every value, argument list and caller: over the full snapshot the assignment has no effect, over the collected names it takes place |
| Closures.ArgumentsMatter | exprtk/src/exprtk_runtime.c:1588-1625 | For every constant with the name of a parameter: over the full snapshot the body reads the constant, over the collected names the argument |
| Overruns.FlagAfterCall | exprtk/src/exprtk_runtime.c:1655-1658 | A call whose arguments abort stays aborted if and only if the callee is no function value, or the call is too deep, or the body aborts by itself |
| Overruns.FlagLost | exprtk/src/exprtk_runtime.c:1655-1658 | Calling a function that only yields a literal forgets every abort of its arguments but one past the node budget |
| Overruns.LoopLimitForgotten | exprtk/src/exprtk_eval.c:342-352 | For every limit, loop and caller: one iteration too many inside an argument of such a call leaves the run unaborted |
| Overruns.RecursionLimitForgotten | exprtk/src/exprtk_runtime.c:1568-1576 | The same for a call that is too deep inside an argument |
| Overruns.EvalKept | exprtk/src/exprtk_eval.c:354-628 | If all call arguments, in the script and in every function value in reach, are free of loops and of calls to anything but builtins, then every evaluation keeps the flag equal to whether a limit was passed, and keeps that discipline |
| Overruns.LimitsHonoured | exprtk/src/exprtk_eval.c:342-374 | Under that discipline every run ends aborted if and only if the node budget, the loop limit or the recursion limit was passed on the way |
| Simulation.EvalAlike | exprtk/src/exprtk_eval.c:354-628 | Two evaluations from states that agree on the names read end with the same value, flow and counters and still agree, under equal or larger node budgets |
| Snapshots.CountedAlways | exprtk/src/exprtk_runtime.c:818-864 | In every interleaving of creations, retains, releases, destroyed values and sweeps, each count is one plus the references taken and not given back |
| Snapshots.SweepExact | exprtk/src/exprtk_runtime.c:867-897 | In every reachable state a sweep removes a snapshot exactly if the calling thread made it and every reference on it was given back; what is held stays linked |
| Snapshots.KeepEntries | exprtk/src/exprtk_runtime.c:885-896 | A sweep keeps exactly the other snapshots, each once |
| Snapshots.LostForever | exprtk/src/exprtk_value.c:329-348 | A reference lost by destroying its holder keeps the snapshot linked for the rest of the run, whoever sweeps |
| SnapshotChain.Root.Create | exprtk/src/exprtk_runtime.c:822-829 | Links a new snapshot with count 1 at the head of the chain |
| SnapshotChain.Root.Retain | exprtk/src/exprtk_runtime.c:838-845 | Adds one to a count and to nothing else |
| SnapshotChain.Root.Release | exprtk/src/exprtk_runtime.c:847-864 | Takes one from a count; the snapshot stays linked |
| SnapshotChain.Root.ReleaseStored | exprtk/src/exprtk_runtime.c:491-502 | Replacing a stored function value gives back the reference it owns, and only then |
| SnapshotChain.Root.DestroyValue | exprtk/src/exprtk_value.c:329-348 | Destroying a function value gives nothing back, because ownership is cleared before it is looked at |
| SnapshotChain.Root.UnlinkAll | exprtk/src/exprtk_runtime.c:883-897 | The pointer walk unlinks exactly what may be reclaimed, keeps the order of the rest, and hands over the unlinked ones last first |
| SnapshotChain.Root.Sweep | exprtk/src/exprtk_runtime.c:867-905 | Unlinks and frees; the chain afterwards is the specified one |
| SnapshotChain.FreeAll | exprtk/src/exprtk_runtime.c:899-905 | Frees every unlinked snapshot once, from the head on, and touches no other link |
| Decimals.Normalize | exprtk/src/mod_core.c:242-250 | Refuses a negative scale; else the result denotes the same number and has no trailing zero in its fraction |
| Decimals.NormalUnique | exprtk/src/mod_core.c:242-250 | Normal decimals denote the same number only if they are equal |
| Decimals.Matches | exprtk/src/exprtk_runtime.c:1409-1423 | Two decimals with scale 0 or more compare equal exactly if they denote the same rational number |
| DecimalText.ReadExact | exprtk/src/mod_core.c:252-304 | A text is accepted exactly if it is a signed digit string with at most one dot and surrounding space, its digits fit 64 bits (the least integer included) and its fraction digits can be counted; the result is that number in normal form |
| DecimalText.ScanParts | exprtk/src/mod_core.c:275-298 | The digit loop on a text of the grammar: value and fraction length, or failure if they do not fit |
| DecimalText.FromText | exprtk/src/mod_core.c:252-304 | The cursor loops with their overflow check compute the specified reading, within 64-bit range |
| DecimalText.RoundTrip | exprtk/src/mod_core.c:328-376 | Printing and reading back gives the normal form, for every 64-bit mantissa and every scale from 0 on |
| DecimalText.PrintsAlike | exprtk/src/mod_core.c:328-376 | Two decimals have the same text exactly if they denote the same number |
| DecimalText.PrintedForm | exprtk/src/mod_core.c:328-376 | The text has no space and no plus sign, a minus sign exactly for negative numbers, no needless leading zero, as many fraction digits as the normal form, and a dot exactly if there are any |
| DecimalText.Example | exprtk/src/mod_core.c:252-376 | The text `-0120.50` after a space reads as -1205 with one fraction digit, and -12050 with two prints as `-120.5` |
| DecimalText.FillDigits | exprtk/src/mod_core.c:330-343 | The backwards digit loop leaves the decimal digits of every 64-bit magnitude in its scratch buffer |
| DecimalText.Text | exprtk/src/mod_core.c:328-376 | Printing succeeds exactly if text and NUL fit; then the buffer holds them, and nothing past the given size is written |
| ClassIdentity.Registry.FinalizeClass | exprtk/src/exprtk_class.c:1991-2074 | Terminates on every prototype and interface graph, succeeds exactly if no way up comes back to a class passed before, leaves no class marked as under way, and gives the identity of the class's tree |
| ClassIdentity.Registry.Finalize | exprtk/src/exprtk_class.c:1991-2012 | With some classes under way: succeeds or returns with a cycle, restores its own mark, and never disturbs a class already finalized |
| ClassIdentity.Registry.FinalizeInterfaces | exprtk/src/exprtk_class.c:2019-2028 | Hashes the identities of the interfaces in order, finalizing each |
| ClassIdentity.Registry.HashFields | exprtk/src/exprtk_class.c:2030-2041 | Hashes name, type and access of every field in order |
| ClassIdentity.OrderOfFinalization | exprtk/src/exprtk_class.c:1991-2074 | Classes finalized in different orders, with other classes finalized or not, get the same identity |
| Identities.SameIdentitySameShape | exprtk/src/exprtk_class.c:2001-2041 | When hashing and rendering lose nothing and no identity is empty, equal identities mean equal trees: names, flags, prototypes, interfaces, and fields with their types and access |
| Identities.EmptyIdentityOnly | exprtk/src/exprtk_class.c:2007-2017 | When hashing and rendering lose nothing, identities tell all trees apart if and only if none of them is empty; an absent prototype is hashed like an empty identity |
| Identities.IdentityDecides | exprtk/src/exprtk_class.c:1991-2074 | Then two finalized classes, of one registry or of two, have the same identity if and only if their trees are equal |
| Identities.TokensRead | exprtk/src/exprtk_class.c:2001-2041 | The sequence of texts and numbers that is hashed can be read back: the counts in front of the interfaces and of the fields separate them |
| ClassIdentity.AcyclicNoCycle | exprtk/src/exprtk_class.c:1999-2000 | A class of finite height has no way up that comes back |
| ClassIdentity.TreeAbove | exprtk/src/exprtk_class.c:2007-2028 | A class is acyclic if everything one step above is, and its tree is put together from theirs |
| ClassIdentity.CloneShape | exprtk/src/exprtk_class.c:1143-1195 | A clone into another arena has the shape of its source, shared parts included |
| ClassIdentity.CloneIdentity | exprtk/src/exprtk_class.c:1197-1200 | A clone is finalized under the identity of its source |
| InstanceFields.Layout.Declare | exprtk/src/exprtk_class.c:746-867 | A new field is appended as it is and gets the next index; a known one keeps its index and takes the new declaration only on request |
| InstanceFields.Layout.Ensure | exprtk/src/exprtk_class.c:869-909 | What the layout held stays whole and in place; behind it come, under names not yet known, the first inherited declarations as they are, and the name itself, untyped, if nothing declares it |
| InstanceFields.Layout.TypeOf | exprtk/src/exprtk_class.c:1913-1924 | The declared type is that of the declaration in the layout, or else of the first inherited one |
| InstanceFields.AcceptedExactly | exprtk/src/exprtk_class.c:2322-2326 | A value is accepted exactly if it fits the type of the declaration that counts, or there is none, or it names no type |
| InstanceFields.Instance.EnsureCapacity | exprtk/src/exprtk_class.c:911-960 | Growing moves all slots to a new array and keeps their contents; the new ones are unused |
| InstanceFields.Instance.SetField | exprtk/src/exprtk_class.c:2314-2400 | A value is accepted exactly if it fits the declaration in the layout or, failing that, the first inherited one; it is stored in slot and table and nothing else changes; whenever the slots move the version goes up, and a field already set keeps its address and version |
| InstanceFields.Instance.SetDefaults | exprtk/src/exprtk_class.c:2244-2258 | A new instance reserves the slots of the declared fields and then holds exactly their type-correct initial values |
| InstanceFields.Instance.GetField | exprtk/src/exprtk_class.c:2266-2294 | Reading through the slot or the table gives the last type-correct value set |
| InstanceFields.Instance.GetSlot | exprtk/src/exprtk_class.c:2297-2311 | The slot found is in use, belongs to the name, and shows the table entry |
| InstanceFields.Cache.Read | exprtk/src/exprtk_runtime.c:2649-2684 | A read through a cache gives the current value of the member, whether it hits or not |
| InstanceFields.Population.Set | exprtk/src/exprtk_class.c:2314-2400 | Setting a field of one instance leaves the fields of every other instance, and every cache of every access site, in order |
| InstanceFields.Population.Create | exprtk/src/exprtk_class.c:2219-2261 | Creating an instance, which may make the shared layout grow, disturbs no other instance and no cache |
| InstanceFields.Population.Redeclare | exprtk/src/exprtk_class.c:754-778 | Declaring a field again disturbs no instance and no cache |
| InstanceFields.Population.Read | exprtk/src/exprtk_runtime.c:2649-2684 | Reads at any access site return the current value and keep every cache sound |
| InstanceFields.Population.Write | exprtk/src/exprtk_runtime.c:2826-2866 | A write at any access site stores a type-correct value and nothing else, refuses any other, keeps every cache of every site sound, and leaves its own cache at the current slot |
| InstanceFields.AgreeGrown | exprtk/src/exprtk_class.c:746-867 | Slots and table of an instance keep agreeing when the shared layout grows under it |
| AbstractMethods.EnterMeets | exprtk/src/exprtk_class.c:1276-1327 | Entering a method, which may replace earlier entries, loses no requirement that was met and adds exactly those the new method meets |
| AbstractMethods.SameObligation | exprtk/src/exprtk_class.c:1472-1518 | Requirements filed under the same key are met by the same methods |
| AbstractMethods.Registry.AddMembers | exprtk/src/exprtk_runtime.c:2004-2075 | The tables and the open obligations after the members of a definition: exactly what is declared abstract and not implemented there |
| AbstractMethods.OrderOfMembers | exprtk/src/exprtk_class.c:568-720 | Declaring abstract and concrete members in another order leaves the same open obligations |
| AbstractMethods.Registry.ChainHas | exprtk/src/exprtk_class.c:670-679 | Walking the prototype chain finds a method exactly if the class or an ancestor has one |
| AbstractMethods.Registry.AddUnmet | exprtk/src/exprtk_class.c:1521-1547 | Takes over exactly the obligations that nothing meets yet |
| AbstractMethods.Registry.Define | exprtk/src/exprtk_runtime.c:1944-2110 | Over any sequence of definitions: refused, with nothing registered, exactly for an unknown or final parent or an unknown or false interface; accepted with exactly the open obligations the rules give it, and abstract exactly if declared so or if there are any |
| AbstractMethods.InterfaceMeetsNothing | exprtk/parser/exprtk_grammar.y:1751-1774 | What the grammar makes an interface has no parent class and no concrete method, so nothing is met on its chain |
| AbstractMethods.OwedIsAccounted | exprtk/src/exprtk_class.c:1953-1981 | In every registry that definitions produce, every abstract signature declared on a class or anywhere above is still open or met on the prototype chain |
| AbstractMethods.OpenIsOwed | exprtk/src/exprtk_class.c:1521-1547 | Only signatures declared on a class or above it can be open, and only where the class has no method of its own for them |
| AbstractMethods.ConcreteClassProvides | exprtk/src/exprtk_runtime.c:2077-2098 | For every abstract member on a class that is not abstract, or anywhere above it, the class or an ancestor declares a concrete member of the same name, kind and arity, and of the same parameter types if the abstract one gives them all |
| AbstractMethods.AbstractForAReason | exprtk/src/exprtk_class.c:1953-1981 | A class not declared abstract becomes abstract only over an abstract member, declared on it or above it, for which it declares no concrete member of the same name, kind, arity and, if given, types |
| AbstractMethods.OwnMethodCloses | exprtk/src/exprtk_class.c:1487-1518 | No obligation stays open that a concrete member of the class itself answers in name, kind, arity and, if given, types |
| AbstractMethods.MeetsExactly | exprtk/src/exprtk_class.c:568-597 | One signature meets another exactly if names, kinds and numbers of parameters agree, and the types too if the requirement gives them all |
| Statistics.EwmVar | exprtk/src/mod_stats.c:128-149 | The one-pass recurrence gives, at every index, the weighted variance around the weighted mean with the factor a that is alpha up to 1 and has a (alpha + 1) = 2 above; shorter inputs have no result |
| Statistics.VarianceStep | exprtk/src/mod_stats.c:139-143 | The recurrence holds of the defined variance |
| Statistics.MeanOfOne | exprtk/src/mod_stats.c:139-143 | The weights add up to 1 |
| Statistics.WeightsExactly | exprtk/src/mod_stats.c:139-143 | The newest observation has weight a, each earlier one 1 - a times the weight of the next, and all weights add up to 1 |
| Statistics.SpanAge | exprtk/src/mod_stats.c:133 | With alpha as a span s above 1 the mean age (1 - a) / a of the observations is (s - 1) / 2 |
| Statistics.VarianceNotNegative | exprtk/src/mod_stats.c:132-143 | The variance is never negative for alpha >= 0 |
| Statistics.Rank | exprtk/src/mod_stats.c:205-228 | Given a sorted permutation, every output gets the average position of its group of ties, and the groups cover all positions |
| Statistics.RanksFollowValues | exprtk/src/mod_stats.c:216-222 | A larger or equal value never ranks lower, and values a tie or more apart rank strictly apart |
| Statistics.RanksTotal | exprtk/src/mod_stats.c:216-222 | Whatever the ties, the ranks add up to n (n + 1) / 2 |
| Registration.Register | exprtk/src/exprtk_runtime.c:1191-1257 | Under every schedule of allocation failures: any status but OK leaves the functions as they were and gives back every block; OK puts the batch in front, last first; the status is that of the first bad request, or depends on whether an allocation fails |
| Registration.Check | exprtk/src/exprtk_runtime.c:1199-1211 | The verdict on the batch before anything is allocated |
| Registration.VerdictOk | exprtk/src/exprtk_runtime.c:1199-1211 | A batch passes exactly if every request is well formed, new in the scope chain and different from the earlier ones |
| Registration.VerdictFirst | exprtk/src/exprtk_runtime.c:1199-1211 | The verdict is that on the first request that lacks a name or a function, has a flag but the lowest, or has a name that is taken in scope or by an earlier request |
| Registration.HasFunc | exprtk/src/exprtk_runtime.c:1280-1288 | A name is visible exactly if a scope of the chain holds it |
| Registration.NamesStayDistinct | exprtk/src/exprtk_runtime.c:1199-1257 | No name ever means two functions of one scope |
| Registration.PushedAt | exprtk/src/exprtk_runtime.c:1238-1250 | The registered functions stand in reverse order of the requests, each with the name, function, user data and flags of its request |

## Left out

- Rounding, NaN and infinity: the matrix library and the statistics are modelled over the reals, and `isfinite` is true.
- Square roots: a parameter with `x > 0 ==> s > 0 && s * s == x` stands for the library function.
- Character arguments of the Level 3 routines are enumerations; their argument errors for other characters are not modelled.
- Output buffers are different arrays from the inputs; overlapping arguments are not modelled.
- In the left-hand forms of STRSM and STRMM the branch on triangle and transposition is taken inside the loop over columns, and in SSYMM the inner product and the update of a row follow each other instead of being interleaved.
- The vector instructions themselves: four lanes are four scalar operations.
- Script operators and builtin functions are not interpreted, 64-bit overflow of integer operators included; the results hold for every choice of them.
- Safe points, try and catch, template strings, coroutines, switch, for-in, vectors, maps, member access, `this`, `new`, spread and destructuring, default and variadic parameters, constant declarations and named function definitions are not part of the evaluator.
- FreeVariables.CollectExtends: vectors, maps, members, classes, switch, for-in and the other node kinds outside the modelled language are absent.
- FreeVariables.Collector.Visit: the same node kinds are absent.
- Interpreter.Environment.Evaluate: template strings, destructuring, constant declarations and the other node kinds outside the modelled language are absent.
- Interpreter.Environment.ExpandArgs: spread arguments are absent.
- Interpreter.Environment.CallFunctionValue: default and variadic parameters, owner classes and safe points are absent.
- Interpreter.Environment.RunCall: classes, bound methods, and native and named script functions are absent, so the second lookup comes right after the arguments.
- Overruns.LimitsHonoured: the condition is sufficient for a whole run, and its text can be checked beforehand; it is not necessary, because an argument with a loop may stay within its limit. The exact condition is given for one call (Overruns.FlagAfterCall).
- Closures.CaptureExactly: exact among bodies with the same names read and assigned, and for names that are not empty; a single body may behave alike although the condition fails, when it never comes to the assignment.
- Evaluator.State.overrun is history that the runtime does not keep; no branch reads it.
- Script.Import: constants and plain variables are copied alike; the copy of container values is not modelled.
- Evaluator.Eval: its contract speaks of counters and aborts only; values, flow and variables are the subject of the modules Adequacy and Replays.
- Replays.EveryRunMeans: a run in which a limit was passed has no meaning by the rules, whether or not its flag survived.
- Allocation is taken to succeed everywhere except in Registration.
- The lock of the snapshot chain is not modelled; a run is a sequence of whole steps. What a freed snapshot gives back when its own variables are destroyed appears as release or destroy steps of the run.
- Reference counts of root, child and task scopes, which are always 0, are not modelled.
- Decimal values made from floating-point numbers, and the arithmetic of decimals, are not modelled.
- ClassIdentity.Registry.Finalize: the hash and the rendering of identities are not interpreted.
- Identities.IdentityDecides: it supposes a hash that loses nothing; the 64-bit hash of the runtime can collide.
- ClassIdentity.CloneShape: the further clones made for the owners of fields, and the reflection data built after the identity, are not modelled.
- Invalidation of a finalized class whose parent changes later is not modelled.
- InstanceFields.Layout.Ensure: the fields of the prototype chain are given as one list, and the chain itself is not walked.
- InstanceFields.Instance.SetField: copies of stored values, access levels and the projections of boolean and string slots are not modelled, and the version counter does not wrap around.
- InstanceFields.Instance.SetDefaults: the declared fields of the prototype chain are given as one list, and the reservation of slots always succeeds.
- InstanceFields.Cache.Read: access checks, the method lookup after a miss and static fields are not modelled; for static fields the cache does not compare its owner with the receiver there.
- InstanceFields.Population.Write: access checks, objects and static fields are not modelled, and the error message of a refused write is its result `ok`.
- AbstractMethods.Registry.Define: it requires what the grammar guarantees of interfaces (no parent class, abstract members only); the checks for `override` and for final methods, constructors and fields are not modelled, and parameter types are compared by what they resolve to.
- Statistics.Rank: the sorted order of the items is given, because sorting is a library function.
- Registration.Register: names longer than the address space are not modelled, and a function node and its name count as two blocks.
- Pools, hash tables, vectors and strings of the base library appear as maps and sequences; the lexer, the grammar, input and output, date and time functions, the command line and the plugin interface are not modelled.
- Take, drop, lag, cumulative sums, histograms and type predicates would only add easy members.
