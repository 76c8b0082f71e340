# Verified model of the indexer's tooling

This project models the algorithms in the tooling around the C++ indexer and proves what they are for.  `dafny verify
dfyconfig.toml` verifies all of it.  The models follow the code branch by branch; code that rewrites
lists, dictionaries or fields in loops is modelled by methods with loops or by classes, each proved equal to a
function, and the properties are lemmas about those functions.

* `RealVectors`, `LinearSolver`, `Polynomials`, `LeastSquares`: Gauss-Jordan elimination over exact reals and the
  polynomial fit built on it.  The pivot threshold is a parameter; 0.0 is the exact test.
* `FloorArithmetic`, `EdgePairs`: the closed-form enumeration of ordered node pairs in seven graph shapes, with its
  inverse.
* `CycleChecks`, `PlatformLayers`: the two depth-first cycle searches and the layering of modules.
* `CMakeText`, `CMakeExpansion`, `CMakeWalk`, `CMakeConditions`: the three-valued walk over a parsed CMake file, its text scans and its
  variable expansion.  `CMakeExpressions`: what an evaluated argument means, with generator expressions nested and side by
  side, lists, and the values of external variables.  `CMakeRuns`: what running the file does, each argument evaluated
  before its command is executed.  `CMakeSoundness`, `CMakeExactness`, `CMakeEscapes`, `CMakeTextEscapes`: which runs the
  walk covers, which it computes exactly, and what it misses outside these conditions.  `CMakeLaws`,
  `CMakeReferenceLaws`: the graph of a program without variables and expressions, the forms of `set`, and what is read
  from each form of expression, without reference to the walk.
* `CursorPaging`: reading a whole table through an executor that answers bounded pages.
* `QualifiedNames`: stripping a printed name back to its bare form.
* `LiteralPrinter`, `CatalogLock`: the generated C++ literal and the release-to-release lock of catalog ids.
* `GraphRecords`, `GraphMerge`, `GraphMergeLaws`, `LoadMore`, `GraphHistory`, `LoadMoreRuns`: merging graph slices under budgets,
  paging, and the explorer's history.

## Where the code differs from what is written about it

* `benchmarks/storage_m0/generator.py:106` promises pairwise different pairs on the whole valid domain.  The skewed
  shape with at least 128 nodes and both high-fan shapes repeat pairs earlier; `EdgePairs.DistinctIffWithinLimit`
  gives the exact bound and `EdgePairs.FirstRepeat` the first repeated index.
* `scripts/check_platform_contract.py:62-84` returns its cycle with the last node once too often
  (`CycleChecks.FindFirstCycle`, `RepeatedEnd`).
* `scripts/self_host_architecture_report.py:406-546` drops the rest of a window when the site budget cuts it exactly
  between two edges; `CursorPaging.CompleteIff` says exactly when nothing is lost.
* `scripts/generate_catalogs.py:342-348` does not return on a text with 36 backslashes in a row that are not its end
  (`LiteralPrinter.PrintLiteral`).
* `benchmarks/indexing/production.py:1170` refuses some regular systems
  (`LinearSolver.ThresholdRefusesARegularSystem`): exactly those of which one pivot of the exact elimination is below
  the threshold (`LinearSolver.RefusedIffSmallPivot`, and for the fits `LeastSquares.FitRefusedIff`).
* `scripts/check_architecture.py:322-463` can miss what a run does without recording an error.  It covers every run of
  a program that can be read from its text, if the values of external variables name no declared target
  (`CMakeExactness.ReadableGraphIsSound`): names are written out, arguments are looked through and are single items, no
  external variable is assigned, variables stand alone, and an expression stands alone and names its library outright.
  Outside of that it can miss
  * a dependency on a text with a variable in it (`CMakeEscapes.DependencyOnTextEscapes`);
  * a library that a variable or an expression names inside `$<TARGET_OBJECTS:...>`
    (`CMakeEscapes.ObjectsThroughEscapes`, `CMakeTextEscapes.ExpressionInNameEscapes`);
  * the libraries of two expressions in one argument (`CMakeTextEscapes.TwoExpressionsEscape`), and the items of a list
    in one argument (`CMakeTextEscapes.ListEscapes`);
  * a target that the value of an external variable names (`CMakeTextEscapes.OuterNameEscapes`); the walk passes over
    every argument that mentions one;
  * an assignment through a variable name (`CMakeEscapes.NamedThroughEscapes`), a text around a variable that is unset on
    one branch (`CMakeEscapes.UnsetInsideTextEscapes`), and the outer value of an external variable that the file assigns
    (`CMakeEscapes.AssignedExternalEscapes`).
* `web/app.js:157-161` keeps intrinsic truncation only until a page that merely continues is merged
  (`GraphMergeLaws.LaterPageHidesCut`, with the exact rule over any chain of pages in `LoadMore.CutCountsIffNeverPaged`).
* `web/app.js:109-117` loses the sites of an earlier record of an edge that the left slice repeats, without marking the
  result as truncated (`GraphMergeLaws.RepeatedEdgeLosesSite`, with the exact rule in
  `GraphMergeLaws.UntruncatedHoldsAllIff` and, over any chain of pages, in `LoadMore.LoadMoreLosesNoSiteIff`).

## Model

| member | source | states |
|---|---|---|
| LinearSolver.Pivot | benchmarks/indexing/production.py:1169 | the chosen row is one of the rows from the diagonal down, and no such row has a larger magnitude in the column |
| LinearSolver.FindPivot | benchmarks/indexing/production.py:1169 | the search loop finds that row |
| LinearSolver.Eliminate | benchmarks/indexing/production.py:1172-1182 | swapping, dividing and subtracting in place gives the swapped and cleared matrix |
| LinearSolver.ReduceInPlace | benchmarks/indexing/production.py:1168-1182 | the in-place loop raises exactly when the step-by-step reduction is refused, and otherwise leaves its result in the array |
| LinearSolver.StepKeepsSolutions | benchmarks/indexing/production.py:1169-1182 | one elimination step has the same solutions as the system before it |
| LinearSolver.StepAddsUnitColumn | benchmarks/indexing/production.py:1169-1182 | one step keeps the unit columns so far and makes the next column a unit column |
| LinearSolver.ReduceKeepsSolutions | benchmarks/indexing/production.py:1168-1182 | the full reduction ends in unit columns and keeps the solution set |
| LinearSolver.SolvesIffReduced | benchmarks/indexing/production.py:1183 | a vector solves the original system if and only if it is the last column of the reduced one |
| LinearSolver.SolutionIsUnique | benchmarks/indexing/production.py:1165-1183 | whatever the threshold, a returned vector satisfies every original equation and is the only one that does |
| LinearSolver.RefusedIffSingular | benchmarks/indexing/production.py:1170-1171 | with the exact pivot test the solver raises if and only if a nonzero vector is mapped to zero |
| LinearSolver.RefusedAtAPivot | benchmarks/indexing/production.py:1168-1182 | under any threshold the reduction stops if and only if one of the pivots that the exact test meets is refused; before that its steps are the exact ones |
| LinearSolver.PivotsIgnoreValues | benchmarks/indexing/production.py:1169-1171 | the pivots depend on the matrix alone, whatever the right-hand side |
| LinearSolver.RefusedIffSmallPivot | benchmarks/indexing/production.py:1170-1171 | under any threshold the solver raises if and only if the matrix is singular or one of its pivots has a magnitude below the threshold; so the later solves for the same matrix cannot raise anew |
| LinearSolver.ThresholdOnlyRefuses | benchmarks/indexing/production.py:1170-1171 | a positive threshold never changes an answer, it only refuses more systems |
| LinearSolver.ThresholdRefusesARegularSystem | benchmarks/indexing/production.py:1170-1171 | a one-by-one system with a unique solution that the threshold refuses |
| LinearSolver.OneEquationRefusedIff | benchmarks/indexing/production.py:1170 | one equation is refused exactly if its coefficient is below 1e-15 in magnitude, and in the copy of benchmarks/indexing/fact_batch_scaling.py:20 below 1e-12 |
| LinearSolver.Solve | benchmarks/indexing/production.py:1165-1183 | the solver returns the unique solution, and raises if and only if the matrix is singular or one of its pivots is below the threshold |
| LeastSquares.NormalEquationsIffOrthogonal | benchmarks/indexing/production.py:1192-1200 | coefficients solve the normal equations if and only if the residuals are orthogonal to every column |
| LeastSquares.SseOfOther | benchmarks/indexing/production.py:1201-1206 | any other coefficients have the same squared error plus the square of the change in fitted values |
| LeastSquares.NormalSingularIffDependent | benchmarks/indexing/production.py:1192-1195 | the normal matrix is singular if and only if some nonzero coefficients fit zero everywhere |
| LeastSquares.VandermondeDependent | benchmarks/indexing/production.py:1191 | nonzero coefficients of a degree fit zero everywhere if and only if there are no more distinct sample points than that degree |
| Polynomials.DivisionIdentity | benchmarks/indexing/production.py:1201-1204 | dividing a polynomial by a linear factor leaves its value there, for the count of roots |
| Polynomials.TooManyRoots | benchmarks/indexing/production.py:1201-1204 | a polynomial with as many distinct roots as coefficients is zero |
| Polynomials.VanishingPolynomial | benchmarks/indexing/production.py:1201-1204 | for every finite set of points there is a monic polynomial of that degree that vanishes on it |
| LeastSquares.FitIsOptimal | benchmarks/indexing/production.py:1186-1206 | a returned fit has the least squared error among all coefficients of the degree and is the only one that attains it |
| LeastSquares.FitResidualsOrthogonal | benchmarks/indexing/production.py:1201-1205 | the residuals are the samples minus the fitted polynomial and are orthogonal to every power of the sample points |
| LeastSquares.RSquaredInUnitInterval | benchmarks/indexing/production.py:1206-1229 | R squared of a returned fit lies between 0 and 1 |
| LeastSquares.TotalIsZeroIff | benchmarks/indexing/production.py:1207-1208 | the total of squares is zero exactly if all samples are equal |
| LeastSquares.RSquaredIsOneIff | benchmarks/indexing/production.py:1229 | R squared is 1 exactly if the fit goes through all samples or all samples are equal |
| LeastSquares.RSquaredIsZeroIff | benchmarks/indexing/production.py:1229 | for samples that are not all equal it is 0 exactly if the mean is already the best polynomial of the degree |
| LeastSquares.RSquaredOrdersFits | benchmarks/indexing/production.py:1229 | of two fits of the same samples the one with the smaller squared error has the larger value |
| LeastSquares.RSquaredGrowsWithDegree | benchmarks/indexing/production.py:1186-1229 | it never falls as the degree grows |
| LeastSquares.FitSucceedsIff | benchmarks/indexing/production.py:1189-1200 | with the exact test a fit is returned if and only if the lists match and there are more distinct sample points than the degree |
| LeastSquares.FitRefusedIff | benchmarks/indexing/production.py:1189-1200 | under any threshold: the sample error if and only if the lists do not match or are too short, and otherwise the singular error if and only if there are too few distinct sample points or a pivot of the normal matrix is below the threshold |
| LeastSquares.ThresholdNeverChangesAFit | benchmarks/indexing/production.py:1170-1171 | a fit returned under any threshold is the fit of the exact test |
| LeastSquares.QuadraticFitExactly | benchmarks/indexing/fact_batch_scaling.py:13-45 | under any threshold the quadratic fit is the zero vector if there are fewer than three distinct sizes or a pivot is below the threshold, and the strict least-squares optimum otherwise |
| LeastSquares.BatchFitExactly | benchmarks/indexing/fact_batch_scaling.py:20-21 | the same at the threshold of this copy |
| EdgePairs.EnumeratePair | benchmarks/storage_m0/generator.py:105-194 | the dispatch over the shapes returns the pair that is ranked below, or the source's error |
| EdgePairs.EnumerateHighFan | benchmarks/storage_m0/generator.py:109-122 | bucket, ordinal and bump in place give the pair of a hub |
| EdgePairs.EnumerateModular | benchmarks/storage_m0/generator.py:123-143 | the built-in quotients and remainders of the rotating shapes give their pair |
| EdgePairs.EnumerateSkewed | benchmarks/storage_m0/generator.py:150-160 | both regions, with their correction loops, give the triangular pair |
| EdgePairs.EnumerateDiamond | benchmarks/storage_m0/generator.py:161-193 | motifs, both fillers and the remainder give the diamond pair |
| EdgePairs.ModularOffset | benchmarks/storage_m0/generator.py:123-143 | in block b a source s is rotated by (b + s) mod (nodes - 1) + 1 for balanced, (b + s * s) mod (nodes - 1) + 1 for cyclic and b mod (nodes - 1) + 1 for the others |
| EdgePairs.LongChainIsACycle | benchmarks/storage_m0/generator.py:129-132 | the first block of the long chain leads from every node to the next |
| EdgePairs.BalancedBlockHasEveryOffset | benchmarks/storage_m0/generator.py:123-128 | within one block of the balanced shape every offset occurs |
| EdgePairs.FanBySize | benchmarks/storage_m0/generator.py:110 | the number of hubs is 2 below 4 nodes, 3 below 32, and a 32nd of the nodes plus 1 from there on |
| EdgePairs.HighFanOrder | benchmarks/storage_m0/generator.py:109-122 | the hub is the index modulo the number of hubs, and its other nodes come in order |
| EdgePairs.DiamondGroup | benchmarks/storage_m0/generator.py:161-171 | each group of four nodes gives the four edges of a diamond |
| EdgePairs.DiamondFillers | benchmarks/storage_m0/generator.py:172-189 | then the remaining edges of offset 1 and of offset 2 follow, from the nodes that have none |
| EdgePairs.DiamondRemainder | benchmarks/storage_m0/generator.py:190-193 | and then whole blocks rotated by 3 and more |
| EdgePairs.SkewedFirstRow | benchmarks/storage_m0/generator.py:147-153 | from 128 nodes on the skewed shape lists the pairs of node 0 first |
| EdgePairs.SkewedSmall | benchmarks/storage_m0/generator.py:143-146 | and below that it is the long chain |
| FloorArithmetic.BuiltIn | benchmarks/storage_m0/generator.py:111-193 | the recursive quotient and remainder of the closed forms are floor division and its remainder by a positive number, for negative numbers too |
| EdgePairs.FindRow | benchmarks/storage_m0/generator.py:147-151 | the integer root and the two correction loops find the row that brackets the index; the first loop runs at most once, the second never |
| EdgePairs.FindColumn | benchmarks/storage_m0/generator.py:154-158 | in the second region the guess is right and neither correction loop runs |
| EdgePairs.RowGuessError | benchmarks/storage_m0/generator.py:147 | the guess is the right row or one too large |
| EdgePairs.ColumnGuess | benchmarks/storage_m0/generator.py:154 | the guess is the right column |
| EdgePairs.RowClosedForm | benchmarks/storage_m0/generator.py:148-152 | the closed form of a row's start is the sum of the rows before it |
| EdgePairs.RowUnique | benchmarks/storage_m0/generator.py:148-151 | at most one row brackets an index |
| EdgePairs.SkewedRoundTrip | benchmarks/storage_m0/generator.py:144-153 | in the first region every index gives a pair with source before target that determines the index |
| EdgePairs.SkewedUnrank | benchmarks/storage_m0/generator.py:144-153 | every pair with source before target comes from an index of the first region |
| EdgePairs.ModularRoundTrip | benchmarks/storage_m0/generator.py:123-143 | balanced, long-chain, cyclic and small skewed: every index gives two different nodes, and the pair determines the index |
| EdgePairs.ModularUnrank | benchmarks/storage_m0/generator.py:123-143 | and every pair of different nodes comes from an index |
| EdgePairs.HighFanRoundTrip | benchmarks/storage_m0/generator.py:109-122 | below fan times nodes minus one, the high-fan shapes give no self-pair and the pair determines the index |
| EdgePairs.HighFanUnrank | benchmarks/storage_m0/generator.py:109-122 | every pair of a hub and another node comes from such an index |
| EdgePairs.DiamondRoundTrip | benchmarks/storage_m0/generator.py:161-193 | diamond: motif edges, both fillers and the remainder give pairs of different nodes that determine the index |
| EdgePairs.DiamondUnrank | benchmarks/storage_m0/generator.py:161-193 | and together they reach every pair of different nodes |
| EdgePairs.RankOfPair | benchmarks/storage_m0/generator.py:105-194 | for every shape the inverse of the enumeration returns the index, up to the shape's limit |
| EdgePairs.PairOfRank | benchmarks/storage_m0/generator.py:105-194 | and the enumeration returns every covered pair from its rank |
| EdgePairs.DistinctIffWithinLimit | benchmarks/storage_m0/generator.py:106-194 | for every number of relations that `generate` admits, all pairs differ if and only if the number is within the shape's limit |
| EdgePairs.FirstRepeat | benchmarks/storage_m0/generator.py:106-194 | where the limit is below all pairs, the index at the limit repeats an earlier pair |
| EdgePairs.SkewedRepeat | benchmarks/storage_m0/generator.py:144-160 | with 128 nodes or more, index nodes minus one and the first index of the second region both give (1, 2) |
| CycleChecks.ClosedWalksUse | scripts/check_architecture.py:656-677 | if every node is finished after all nodes it points to but for some edges, every closed walk takes one of these edges |
| CycleChecks.FinishedIsAcyclic | scripts/check_architecture.py:656-677 | if every node is finished after all nodes it points to, there is no closed walk |
| CycleChecks.BackEdgeCycle | scripts/check_architecture.py:662-664 | an edge back into the current path closes a simple cycle |
| CycleChecks.CycleCollector.Visit | scripts/check_architecture.py:661-673 | a visit restores the path, forgets nothing, and finishes the node or reports the edge that led to it |
| CycleChecks.CycleCollector.Report | scripts/check_architecture.py:662-665 | a report adds a simple cycle and removes none |
| CycleChecks.FindCycles | scripts/check_architecture.py:656-677 | the list is empty if and only if the graph has no closed walk, every reported list is a simple cycle, and without the closing edges of the reported cycles the graph has none; the same method models `find_module_cycles` (scripts/self_host_architecture_report.py:848-868), which reports no cycle twice |
| CycleChecks.FirstCycle.Visit | scripts/check_platform_contract.py:66-78 | a visit that returns None leaves the path as it was and the node visited |
| CycleChecks.FindFirstCycle | scripts/check_platform_contract.py:62-84 | None if and only if the graph is acyclic; otherwise a closed walk followed by its last node once more |
| PlatformLayers.ValidateLayers | scripts/check_platform_contract.py:127-144 | the layer graph has exactly the known dependencies; no errors if and only if ids are unique, required layers exist, dependencies are known and there is no cycle |
| PlatformLayers.AcceptedHasLayers | scripts/check_platform_contract.py:13 | an accepted contract has each of the ten layers |
| PlatformLayers.BuildLayerGraph | scripts/check_platform_contract.py:134-141 | the graph built in the loop is the declared one, and unknown dependencies are reported exactly |
| PlatformLayers.ValidateModuleMapping | scripts/check_platform_contract.py:87-112 | no errors if and only if every module is mapped to a known layer and every allowed dependency stays in its layer or follows a layer dependency |
| PlatformLayers.ValidateContract | scripts/check_platform_contract.py:127-144 | the layer part of the contract check together with the mapping check: no errors if and only if both accept, and then every module cycle stays in one layer |
| PlatformLayers.Layering | scripts/check_platform_contract.py:87-112 | an accepted mapping onto an acyclic layer graph keeps every cycle of allowed dependencies inside one layer |
| PlatformLayers.CompressedIsWalk | scripts/check_platform_contract.py:101-111 | the layers along a module walk, without repetitions, are a walk of the layer graph |
| CMakeText.QuotedIsExact | scripts/check_architecture.py:203-205 | a written reference is recognised as exactly that name |
| CMakeText.ExactReference | scripts/check_architecture.py:195-205 | a value is recognised as one reference only if it is written so and contains no other |
| CMakeText.GenexInner | scripts/check_architecture.py:163-178 | the scan accepts exactly the tokens that open with an expression, end with its bracket and nest to zero overall, two expressions in a row included, and finds what is between the outermost brackets |
| CMakeText.SplitGenex | scripts/check_architecture.py:143-160 | the scan splits at the separators outside nested expressions |
| CMakeText.SplitKeepsText | scripts/check_architecture.py:143-160 | joining the parts again gives the text |
| CMakeExpansion.ExpandValues | scripts/check_architecture.py:198-240 | expansion terminates for every variable map, cyclic ones included, and computes the recursive expansion with its errors |
| CMakeConditions.ConditionIsConstant | scripts/check_architecture.py:285-296 | a condition is true or false exactly if it is one of the five true or seven false words, in any case of letters, behind any number of NOT; everything else is unknown |
| CMakeConditions.TrueBranchIsTaken | scripts/check_architecture.py:350-421 | the commands between `if` with a true constant and `endif` are walked as if they stood alone |
| CMakeConditions.FalseBranchIsSkipped | scripts/check_architecture.py:350-421 | between `if` with a false constant and `endif` no variable is assigned |
| CMakeExpansion.QuietChain | scripts/check_architecture.py:198-240 | if no error is recorded, no chain of references from the values repeats a name or meets the stack |
| CMakeExpansion.CycleIsReported | scripts/check_architecture.py:198-240 | a chain of references that repeats a name, or meets the stack, is recorded as an error |
| CMakeWalk.StretchHoldsNoMore | scripts/check_architecture.py:246-282 | a stretch of a token without variables holds none either, so the recursive calls need not look again |
| CMakeWalk.CMakeGraph | scripts/check_architecture.py:347-463 | the loop over the commands computes the walk |
| CMakeWalk.VisitCommand | scripts/check_architecture.py:349-459 | the dispatch over the commands, through the loops below, takes the step that `CMakeSoundness.StepCovered` proves to cover every run |
| CMakeWalk.VisitBranch | scripts/check_architecture.py:350-384 | rewriting the top frame of the branch stack in place, with its error cases, is the step on the stack that `CMakeSoundness.BranchStackAllows` is about |
| CMakeWalk.FollowReference | scripts/check_architecture.py:243-253 | the loop over the expanded items collects exactly the references and errors of the argument |
| CMakeWalk.VisitLinks | scripts/check_architecture.py:422-429 | the loop over linked targets records their references one by one and makes no use of the declared targets |
| CMakeWalk.VisitSources | scripts/check_architecture.py:430-445 | the loop over sources records objects, references, dependencies and source paths one by one |
| CMakeWalk.VisitDependencies | scripts/check_architecture.py:446-459 | the loop over dependencies records references and plain names one by one |
| CMakeWalk.VisitList | scripts/check_architecture.py:389-400 | `list(APPEND)` adds the expanded items unless the conditions around it are false |
| CMakeWalk.VisitSet | scripts/check_architecture.py:401-421 | `set` replaces, merges or keeps the variable's items by the state of the conditions around it |
| CMakeLaws.SetStores | scripts/check_architecture.py:412-421 | plain values are stored as they are, in an undecided branch behind the earlier items, in a false one not at all |
| CMakeLaws.CachedStores | scripts/check_architecture.py:406-411 | the cache form stores its value alone and is an error with too few arguments |
| CMakeLaws.SelfReferenceIsReported | scripts/check_architecture.py:412-413 | setting a variable from itself is reported as a cycle |
| CMakeLaws.DeduplicatedOnce | scripts/check_architecture.py:395-421 | stored items stand once each, the earlier ones first |
| CMakeLaws.ExternalNames | scripts/check_architecture.py:181-192 | the eleven variables that count as external |
| CMakeLaws.WrittenOutGraph | scripts/check_architecture.py:322-463 | without variables and expressions in its targets, and whatever its branches: a target's links and references are what it links, its edges the declared ones among them and all it depends on, its source edges its sources under src/ and python/ |
| CMakeLaws.TargetsAreDeclared | scripts/check_architecture.py:341-345 | the declared targets are the first arguments of the three declaring commands |
| CMakeReferenceLaws.ObjectsReadAs | scripts/check_architecture.py:256-257 | a reference to the objects of a library reads as the library |
| CMakeReferenceLaws.ChoiceReadAs | scripts/check_architecture.py:258-272 | a choice reads as its condition and both of its values |
| CMakeReferenceLaws.BoolChoiceReadAs | scripts/check_architecture.py:265-272 | and under a BOOL condition as both of its values |
| CMakeSoundness.ExpansionCovers | scripts/check_architecture.py:198-240 | if the walked items contain the concrete ones, expanding keeps that |
| CMakeExpressions.PlainReferenceCovers | scripts/check_architecture.py:254-282 | without an error, the names read from one item whose expressions stand alone and name their library outright contain every target it refers to under every choice of conditions, where an expression's parameters are evaluated first |
| CMakeExpressions.OneExpression | scripts/check_architecture.py:163-178 | a text that is one expression means what the expression means |
| CMakeSoundness.ReferenceCovers | scripts/check_architecture.py:243-282 | and so for every such item that an argument with variables evaluates to |
| CMakeSoundness.BranchStackAllows | scripts/check_architecture.py:350-384 | the three-valued branch stack keeps allowing the concrete one through if, elseif, else and endif |
| CMakeSoundness.TokenRecords | scripts/check_architecture.py:422-459 | the walk records, for an argument it looks through, every target that a readable evaluated item of it refers to or depends on by what is written in the file |
| CMakeSoundness.TokensCovered | scripts/check_architecture.py:422-459 | and so for all arguments of a command that is executed |
| CMakeSoundness.StepCovered | scripts/check_architecture.py:349-459 | if names are written out and arguments looked through, one command whose arguments are evaluated first keeps every concrete item, reference and dependency that is written in the file inside the computed ones |
| CMakeSoundness.WalkCovers | scripts/check_architecture.py:347-459 | and so does every sequence of commands, for every choice of the unknown conditions |
| CMakeSoundness.GraphIsSound | scripts/check_architecture.py:322-463 | with no parse error, names written out and no external variable assigned, a supported run's items, references and dependencies are among the computed ones if and only if so are the dependencies that the values of external variables make |
| CMakeExactness.KnownWalkIsExact | scripts/check_architecture.py:285-421 | under the same conditions, when every condition is known, the variables and their item sets are equal, where an item may refer to external variables |
| CMakeExactness.RunStaysSettled | scripts/check_architecture.py:198-240 | over any run of a program whose arguments are references or stay as they are written, every item is a text of the program, and no external value names a target if none of these texts does |
| CMakeExactness.ReadableRuns | scripts/check_architecture.py:198-240 | whatever it decides and whatever the external values are, a run of a readable program is supported |
| CMakeExactness.ReadableGraphIsSound | scripts/check_architecture.py:322-463 | by conditions on the text of the program alone, a graph without errors covers a run, however it decides the unknown conditions, if and only if it covers what external values name; and it covers all runs if they name no declared target |
| CMakeExactness.ReadableGraphIsExact | scripts/check_architecture.py:285-421 | and without an unknown condition its variables are exactly those of every run, for all external values |
| CMakeExactness.TextsAgree | scripts/check_architecture.py:222-239 | if each variable in a text stands for one item, the run's joined items, expansion and evaluation give the same text |
| CMakeExactness.OneReferenceAgreesIff | scripts/check_architecture.py:222-239 | for a text with one variable they agree if and only if that is so |
| CMakeEscapes.DependencyOnTextEscapes | scripts/check_architecture.py:446-459 | for every variable that is not external, between plain texts of which the first is not empty, if the text around its item is no visibility keyword: a program without errors in which the dependency on that text is missed |
| CMakeEscapes.ObjectsThroughEscapes | scripts/check_architecture.py:433-436 | the objects of a library named by a variable: the dependency is missed without an error |
| CMakeEscapes.NamedThroughEscapes | scripts/check_architecture.py:401-421 | `set` of a name held by a variable: the walk misses the variable that is assigned |
| CMakeEscapes.UnsetInsideTextEscapes | scripts/check_architecture.py:222-239 | a variable unset on one branch and used inside a text: the walk has one item where the run that skips the branch has another |
| CMakeEscapes.AssignedExternalEscapes | scripts/check_architecture.py:210-215 | an external variable that the file assigns: the walk loses the outer value that the run keeps |
| CMakeEscapes.TwoReferencesAgreeByChance | scripts/check_architecture.py:222-239 | with two variables in a text, the texts can agree although neither variable does, so the condition of one variable does not extend to two as an equivalence |
| CMakeTextEscapes.ExpressionInNameEscapes | scripts/check_architecture.py:254-257 | objects of a library that a condition chooses: in every kind of target command the chosen library is missed without an error |
| CMakeTextEscapes.TwoExpressionsEscape | scripts/check_architecture.py:163-178 | two expressions with any plain text between them: in every kind of target command both libraries are missed without an error |
| CMakeTextEscapes.ListEscapes | scripts/check_architecture.py:446-459 | a list in one argument of `add_dependencies`: both targets are missed without an error |
| CMakeTextEscapes.ListStaysWhole | scripts/check_architecture.py:401-421 | a list in one argument of `set`: the walk holds one item where the run holds two |
| CMakeTextEscapes.OuterNameEscapes | scripts/check_architecture.py:248-250 | for every readable argument that mentions an external variable and all values: a readable program in which each target the argument then refers to is missed |
| CursorPaging.RunAllPages | scripts/self_host_architecture_report.py:265-322 | the symbol read terminates and returns the whole table, once and in order, and is partial or unknown exactly if a page it read is |
| CursorPaging.BoundaryCheck | scripts/self_host_architecture_report.py:499-529 | the count of the last edge's sites differs from the page's exactly when the budget cut the page inside that edge |
| CursorPaging.AcceptWindow | scripts/self_host_architecture_report.py:540-546 | a page that is taken over whole continues behind its window |
| CursorPaging.RewindToCutEdge | scripts/self_host_architecture_report.py:529-539 | a page that cut an edge gives up that edge's rows and reads on from it |
| CursorPaging.CheckLastEdge | scripts/self_host_architecture_report.py:499-539 | the check of a cut page stops with its rows at a huge edge, rewinds to the cut edge, or finds that the page ends between two edges |
| CursorPaging.ReadPage | scripts/self_host_architecture_report.py:490-546 | each round stops or resumes with the rows and the cursor of the read by positions |
| CursorPaging.AcceptedPlaces | scripts/self_host_architecture_report.py:540-546 | behind a page that is taken over whole, the next is asked for behind its window |
| CursorPaging.CutPlaces | scripts/self_host_architecture_report.py:527-539 | behind a page that cuts an edge the next is asked for at that edge, unless the page holds nothing else |
| CursorPaging.RunAllSitePages | scripts/self_host_architecture_report.py:406-546 | under the documented contract the loop terminates with exactly the rows and the verdict of the read by positions, asks for a page at exactly its places, and is partial or unknown exactly if one of these pages is |
| CursorPaging.AllOrNone | scripts/self_host_architecture_report.py:442-454 | every edge is emitted with all of its sites or none, except one last edge of a read that says it was cut short |
| CursorPaging.RowsInOrder | scripts/self_host_architecture_report.py:489-546 | the rows come in the order of their edges and none comes twice |
| CursorPaging.CompleteIff | scripts/self_host_architecture_report.py:499-546 | a read that does not say it was cut short is the whole table if and only if no window before the last was cut between two edges |
| CursorPaging.ModerateTableIsComplete | scripts/self_host_architecture_report.py:485-546 | if no edge exceeds the site budget and no cut falls between edges, the read is whole and says so |
| QualifiedNames.BareQualName | scripts/self_host_architecture_report.py:116-133 | the suffix loop and the backward scan compute the bare name |
| QualifiedNames.StripSuffixes | scripts/self_host_architecture_report.py:116-123 | the loop removes every trailing qualifier, in whatever order they stand |
| QualifiedNames.BareOfRendered | scripts/self_host_architecture_report.py:89-133 | for every base, balanced parameter text and sequence of qualifiers, the printed name is stripped to its base |
| QualifiedNames.ChangedOnlyIfRendered | scripts/self_host_architecture_report.py:107-133 | a name is changed only if it is the printed form of the answer |
| QualifiedNames.ChangedIffPrinted | scripts/self_host_architecture_report.py:107-133 | exactly the printed names are changed; anything unbalanced or without a signature is returned unchanged |
| LiteralPrinter.ThreeReplacesAreOne | scripts/generate_catalogs.py:340 | the three replacements in a row are one map over the characters |
| LiteralPrinter.DecodeEscaped | scripts/generate_catalogs.py:340 | reading the escapes back gives the text, by section 5.13.3 [lex.ccon] of ISO C++20 |
| LiteralPrinter.Boundary | scripts/generate_catalogs.py:343-346 | a cut behind a character that is no backslash splits no escape |
| LiteralPrinter.NotStuckInside | scripts/generate_catalogs.py:342-348 | no chunk runs past a place where the printer would get stuck |
| LiteralPrinter.PrintLiteral | scripts/generate_catalogs.py:338-349 | the loop ends if and only if no 36 backslashes in a row are followed by more text; then every chunk has 1 to 72 characters, can be read alone, and together they read back as the text |
| CatalogLock.CompatibilityCheck | scripts/generate_catalogs.py:124-161 | the check passes if and only if every deletion, renaming and reuse has its migration; it then returns the current rows with the next tombstones, else a complaint about an id that lacks one |
| CatalogLock.BuryRows | scripts/generate_catalogs.py:145-153 | one group's loop adds exactly the deleted rows to its tombstones |
| CatalogLock.UnburyRows | scripts/generate_catalogs.py:154-160 | the second loop removes exactly the rows that are live again |
| CatalogLock.MovesIff | scripts/generate_catalogs.py:124-161 | a known id may be renamed, buried or brought back exactly if an entry names its group, its id, its old name and where it goes, with the action for the last two |
| CatalogLock.PublishMoves | scripts/generate_catalogs.py:144-161 | one release keeps live and tombstoned ids apart and moves every id only with the migration that move needs |
| CatalogLock.AlwaysDisjoint | scripts/generate_catalogs.py:516-522 | over every run of releases no id is live and tombstoned at once |
| CatalogLock.HistoryIsLawful | scripts/generate_catalogs.py:516-522 | over every run of releases, failed ones included, each move of each id has its migration in the release that made it |
| CatalogLock.NeverForgotten | scripts/generate_catalogs.py:516-522 | over every run of releases an id that was ever known stays live or tombstoned |
| CatalogLock.ChangeIsOnRecord | scripts/generate_catalogs.py:516-522 | over every run of releases, if an id no longer stands as it did, a release in between has a migration entry from the name it had |
| GraphRecords.WeakerFreshness | web/app.js:3-8 | of two freshness claims the second counts if it alone is stale or the first alone is current |
| GraphRecords.WeakerCompleteness | web/app.js:2-8 | of two completeness claims the second counts if it alone is unknown or the first alone is complete |
| GraphRecords.WeakestIsNoStronger | web/app.js:4-8 | the weaker of two claims is one of them and no stronger than either |
| GraphRecords.MergeRecordKeeps | web/app.js:9-37 | a merged record has the sites and the raised flags of both |
| GraphRecords.MergeRecordIsNoStronger | web/app.js:16-21 | and claims no more completeness or freshness than either |
| GraphRecords.MergeRecordSumsUp | web/app.js:16-21 | a merged record is stale exactly if one is, current exactly if all that say so are, and so for unknown and complete |
| GraphRecords.MergeRecordFields | web/app.js:22-37 | it has the later identity and ends, the first record's sites and then the new ones, each once, and a flag wherever one of them has it |
| GraphRecords.MarkAddsOnly | web/app.js:84-89 | a mark adds truncation, and on request cut evidence, and changes nothing else |
| GraphRecords.PageLocalClears | web/app.js:53-60 | a record that is marked for paging loses that mark and its truncation; any other stays |
| GraphRecords.AbsorbAllRecords | web/app.js:108-117 | each id ends up with its new record, its old one, or the two merged |
| GraphRecords.MapOfHoldsLast | web/app.js:108-114 | a map built from a list holds the last record of each id |
| GraphRecords.AbsorbAllSites | web/app.js:22-37 | a merged record has exactly the sites of all records of its id |
| GraphMerge.MergeSlices | web/app.js:101-209 | the loops that fill the maps and hand out the sites compute the merged slice |
| GraphMerge.FillMap | web/app.js:108-117 | the map loops keep one record per id, in order of first appearance |
| GraphMerge.SpendSites | web/app.js:135-145 | the site budget is handed out edge by edge, and overflow is exactly a lost site |
| GraphMergeLaws.UncutIsWhole | web/app.js:118-148 | if nothing overflows, every merged record is kept as it is |
| GraphMergeLaws.CutIsReal | web/app.js:129-146 | if something overflows, a node, an edge or a site is missing |
| GraphMergeLaws.MergeIsClosed | web/app.js:130-134 | every retained edge has both ends retained |
| GraphMergeLaws.MergeIsBounded | web/app.js:120-145 | nodes, edges and sites stay within the combined budgets, and the sites used are counted |
| GraphMergeLaws.MergedFits | web/app.js:118-128 | an expanded canvas keeps the budgets of both slices, a paged one the sum of their node budgets |
| GraphMergeLaws.LimitsAre | web/app.js:79-82 | a budget is the page's own value, else the requested one, and a negative value is none |
| GraphMergeLaws.SmallerAdmits | web/app.js:107-128 | the smaller budget admits what both admit |
| GraphMergeLaws.SumAdmits | web/app.js:107-128 | the sum admits what both admit together |
| GraphMergeLaws.TrimIsFull | web/app.js:129-145 | a canvas holds as many nodes, edges between them and sites as its budgets allow, always the first ones |
| GraphMergeLaws.TrimMarks | web/app.js:147-148 | all nodes are marked if there were too many, all edges if one is left out |
| GraphMergeLaws.EdgeMarked | web/app.js:148 | such an edge is marked with its evidence exactly if its status says that it was cut |
| GraphMergeLaws.UntruncatedHoldsAllIff | web/app.js:101-209 | a result that is not marked truncated has every node, edge and site of both slices if and only if every site of a repeated left edge stands in its last record or on the right |
| GraphMergeLaws.UntruncatedHoldsAll | web/app.js:101-209 | in particular if the left slice repeats no edge |
| GraphMergeLaws.MergeIsHonest | web/app.js:101-209 | a result that lacks a node, an edge or a site of either slice is marked truncated and does not claim to be complete, unless what it lacks is a site of an earlier record of a repeated left edge |
| GraphMergeLaws.TruncatedIff | web/app.js:146-178 | a result is marked truncated exactly if the mark of a slice counts, a kept record carries one, evidence was cut, something is missing, or another page can be asked for |
| GraphMergeLaws.OfferOfMerged | web/app.js:179-182 | another page is offered by the last page alone, after an expand by either slice or because something is missing; without an offer there is no token |
| GraphMergeLaws.ReasonOfMerged | web/app.js:65-68 | a byte budget outweighs a budget as the reason, and a budget any other (line 183) |
| GraphMergeLaws.LaterFieldsWin | web/app.js:63-65 | request, paging mark and budgets are the later ones where it has them |
| GraphMergeLaws.RecordsAsDelivered | web/app.js:49-62 | only a paged further page loses its paging marks; all other records are taken as delivered |
| GraphMergeLaws.RepeatedEdgeLosesSite | web/app.js:109-117 | two records of one edge on the left, the first with a site the second lacks: the site is lost and the result claims to be complete |
| GraphMergeLaws.EvidenceStaysTruncated | web/app.js:149-178 | over every sequence of merges, truncated evidence in any slice stays marked |
| GraphMergeLaws.FreshnessNeverRises | web/app.js:69-77 | over every sequence of merges the result is no fresher than any slice that went into it |
| GraphMergeLaws.FreshnessSumsUp | web/app.js:69-77 | over every sequence of merges the result is stale exactly if a slice that went into it is, and current exactly if all slices that claim a freshness are; and so for the identity |
| GraphMergeLaws.StatusNeverRises | web/app.js:199-201 | over every sequence of expands the result is no more complete than any slice that went into it, and no truncation is forgotten |
| GraphMergeLaws.ExpandedStatus | web/app.js:199-201 | what an expand claims, by what canvas and answer claim; complete exactly if nothing is truncated and all that claim anything are |
| GraphMergeLaws.StatusSumsUp | web/app.js:199-201 | over every sequence of expands one unknown slice makes the result unknown, and it is complete only if all slices that claim anything are |
| GraphMergeLaws.PartialStays | web/app.js:39-48 | in a paged merge a page that is partial for other reasons keeps the canvas from being complete |
| GraphMergeLaws.NothingSaid | web/app.js:201 | where neither slice claims anything the result is unknown |
| GraphMergeLaws.CutCountsUnlessPaged | web/app.js:153-162 | in one paged merge the canvas's truncation counts if and only if the canvas is not marked as paged |
| LoadMore.PagingOfCanvas | web/app.js:63-65 | over any chain of pages the canvas carries the last paging mark of its pages |
| LoadMore.CutCountsIffNeverPaged | web/app.js:153-178 | over any chain of pages, a cut that is not for paging counts in the end, beside everything else that is left out, if and only if no canvas from its page to the page before the last is marked as paged |
| GraphMergeLaws.LaterPageHidesCut | web/app.js:153-162 | three pages in which an earlier cut is forgotten |
| LoadMore.PageFits | web/app.js:96-128 | a page within its own budgets is taken up whole, and the budgets add up and are kept |
| LoadMore.LoadMoreLosesNothing | web/app.js:91-209 | over any chain of pages the canvas has exactly the union of nodes and edges, and its budgets are the sums |
| LoadMore.SitesOfPages | web/app.js:91-209 | over any chain of pages an edge has the sites of its last record on the first page and of all later pages |
| LoadMore.LoadMoreLosesNoSiteIff | web/app.js:91-209 | these are all the sites of all pages if and only if the first page loses none to a repeated edge |
| LoadMore.PageCompletes | web/app.js:39-62 | after a page, only the offer of another one keeps the canvas from being complete |
| LoadMore.LastPageCompletes | web/app.js:39-209 | if paging was all that was missing, the canvas is complete if and only if the last page offers no other |
| LoadMoreRuns.ExplorerLoadsAll | web/app.js:926-936 | from any state whose request has no token, n times "Load more" show the canvas and the n pages merged one after the other, page i answering the request with the token of the canvas before it |
| LoadMoreRuns.ReachableLoadsAll | web/app.js:926-936 | and so in every reachable state |
| LoadMoreRuns.ExplorerShowsAllPages | web/app.js:926-936 | so if every page keeps its budgets, the explorer shows the nodes and edges of all pages, within the sum of their budgets, and all sites unless the first canvas repeats an edge |
| LoadMoreRuns.ExplorerCompletes | web/app.js:926-936 | and it is complete exactly if the last page offers no other, if paging is all that was missing |
| GraphHistory.Explorer.Navigate | web/app.js:733-739 | navigation drops the entries ahead, adds its own and replaces the canvas |
| GraphHistory.Explorer.PushMerge | web/app.js:748-769 | an expand or further page merges onto the canvas and becomes the last entry |
| GraphHistory.Explorer.ReplayHistory | web/app.js:778-783 | the loop shows the entries one after the other |
| GraphHistory.Explorer.JumpToEntry | web/app.js:789-802 | a jump out of range does nothing; any other replays the history up to its entry |
| GraphHistory.Explorer.LoadSaved | web/app.js:973-1002 | a saved view replaces the history and is replayed; one without history is navigated to |
| GraphHistory.Explorer.Perform | web/app.js:803-1002 | every user action is the transition of the state machine |
| GraphHistory.EveryRunIsConsistent | web/app.js:704-802 | in every reachable state the index is in range, the canvas is the replay of the history up to it, and the current request has no continuation |
| GraphHistory.BackAndForward | web/app.js:918-925 | back and then forward restores the whole state |
| GraphHistory.SaveAndLoad | web/app.js:955-1002 | a view saved in any state and loaded in any other shows the same canvas under the same request |
| GraphHistory.FiltersStay | web/app.js:641-646 | over any run of expands, search results and further pages the applied filters stay |
| GraphHistory.NewRootForgetsTraversal | web/app.js:658-663 | a search result takes no depth or direction of an earlier expand along, nor do the pages after it |
| GraphHistory.AppliedFilters | web/app.js:938-954 | applying filters sets exactly the given ones and leaves the rest of the request alone |
| GraphHistory.ExpandAsks | web/app.js:803-816 | an expand asks for its node, its direction and depth 1, with the rest of the request, and is merged as an expand |
| GraphHistory.ResultAsks | web/app.js:838 | a search result asks for its node without depth and direction and replaces the canvas |
| GraphHistory.FiltersAsk | web/app.js:938-954 | applied filters replace the canvas by the answer to the new request |
| GraphHistory.PageAsks | web/app.js:928-936 | a further page asks for the same request with the offered token and is merged as a page |
| GraphHistory.NewEntry | web/app.js:733-768 | each of these adds one entry behind the shown one, which records how it was merged, and drops the entries ahead |
| GraphHistory.JumpShows | web/app.js:789-796 | a jump ends at its entry, shows its replay under its request and leaves the history alone |
| GraphHistory.BackAndForwardMove | web/app.js:918-925 | back and forward move by one entry and not beyond the ends |
| GraphHistory.SavedIsShown | web/app.js:955-972 | a saved view holds the entries up to the shown one and the request, under its own name only |
| GraphHistory.TokenOfMerged | web/app.js:65-68 | after a further page its token decides; after an expand an explicit null takes the earlier token away, and a token of its own is offered, and only that, exactly if there is anything left to load |
| GraphHistory.LoadMoreContinuesTheRequest | web/app.js:748-769 | in every reachable state the offered token belongs to the current request, for a server that always sends the field (src/ui/graph_view.cpp:1730-1743) and binds each token to its request |
| GraphHistory.MissingFieldKeepsToken | web/app.js:65-67 | if an answer left the field out, the earlier token would stay on the canvas |

## Left out

- CMakeSoundness.GraphIsSound: for supported runs; `CMakeExactness.ReadableGraphIsSound` replaces that by conditions on the text, which are sufficient and each needed by a program of `CMakeEscapes` or `CMakeTextEscapes`, but a program outside them may still be covered.
- CMakeExpressions.PlainReferenceCovers: a condition is decided by its text, and what is inside a condition refers to no target; an expression with another key stands for its parameters or for nothing, as its key is decided.
- CMakeExactness.KnownWalkIsExact: compares item sets, not their order and repetition.
- GraphMergeLaws.StatusNeverRises: for expands only; a page that is partial only because of paging may be followed by a complete canvas by design.
- LoadMore.LastPageCompletes: for pages whose own marks say that only paging is missing; a page that offers another one must say that it is paged.
- GraphHistory.LoadMoreContinuesTheRequest: the server is a function of the request; that it binds tokens and always sends the field is assumed of it, from its code.
- CursorPaging.RunAllSitePages: the executor is given by its documented answers.
- CatalogLock.CompatibilityCheck: starts from the collected rows of each group; which complaint comes first is left open because the order of dictionaries is.
- LiteralPrinter.PrintLiteral: universal character names and multi-character prefixes are not read back; only simple escapes occur in what the printer writes.
- CycleChecks.FindCycles: the labels of messages are not modelled; the order in which nodes are visited is a parameter.
- PlatformLayers.ValidateContract: the status, owner, consumer, port, artifact, ownership, behaviour and delivery entries of the same function are single comparisons and are not modelled.
- LeastSquares.FitIsOptimal: exact reals; rounding, the standard errors and the information criterion of `fit_model` are not modelled.
- CMake: tokenising (with the difference of quoted and unquoted arguments: lists are split in both), cache and parent-scope forms, file globbing, and the Python import checks; the model starts from a parsed command list, and the cache and parent-scope forms of `set` and references to the environment and the cache have no concrete meaning in it.
- CMake: commands that the walk does not read (loops, functions, `unset`, `find_package` and others that assign variables), alias targets, and dependencies through custom commands.
- Graph records: names, labels, file positions and other fields that the merge copies from the later record; `result_chain`, markers and composite result ids; statuses are words, so names on JavaScript's object prototype do not occur.
- Explorer: drawing, camera state, browser budgets that refuse a view, background freshness polls, the stale-refresh button, failed fetches and actions that overlap; a fetch is a function of its request.
- Catalog generator: reading and validating manifests, and the other rendered files.
- SQLite access, subprocesses, the verdicts of gates and service levels, schema validation and the C++ constant-expression matcher: mostly single-branch checks or text templates.
