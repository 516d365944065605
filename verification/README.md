# Verification of the constraint compiler

This project models, in Dafny, how the circom compiler turns a graph of templates into a rank-1 constraint system
(R1CS), and proves what the compiled constraints mean. Signals are natural numbers, 0 is the constant wire; a linear
form is a map from signals to coefficients and stands for its value under an assignment; a constraint A*B - C = 0
stands for the assignments under which it holds modulo a prime.

- `Field`, `LinearForms`, `Algebra`, `Bits`: modular arithmetic with inverses, linear forms and the loops that update
  them, symbolic expressions, substitutions and constraints.
- `Rows`, `MaxElimination`, `OccurrenceElimination`, `Elimination`, `Extension`: Gaussian elimination with two pivot
  heuristics, batch inversion and back-substitution; the leftovers determine all solutions.
- `Clusters`, `ClusterFacts`, `Equalities`, `ClusterPass`: union-find of constraints that share signals; collapsing
  equalities; simplifying the clusters in any order.
- `EncodedSubstitution`, `Constants`, `Conflicts`, `Relevance`, `NonLinear`: substitutions as maps, constant equalities
  and what the map loses of them, the storage of quadratic constraints and its index from signals to constraints.
- `Simplification`, `WholePass`: the stages and rounds of the simplification, and the theorems about it.
- `Renaming`, `Witness`: the dense numbering of the signals that are left.
- `Dag`, `Flattening`, `Mapping`, `Compilation`: the graph of templates, its numbering and flattening, the mapping to
  lists of constraints, and the whole compilation.
- `SingleAssignment`, `SettledAssignment`: the check that a signal is assigned at most once whatever the unknown
  conditions turn out to be, and when it knows that the signal is assigned.
- `R1csFormat`, `R1csWriter`, `R1csReader`, `R1csRoundTrip`, `R1csLayout`: the binary file, its round trip, and where in it
  each number is.
- `Export`: the compiled constraints as a file, and what the file means for the templates.

`Wrappers` and `Orders` hold common datatypes and the ascending order of ordered maps and sets.

## What does not hold

Three promises fail, and the conditions under which they hold are proved.

- The simplification keeps the solutions only if no two constant equalities fix one eliminable signal to different
  values, directly or through equalities, or if the rest of the circuit has no solution anyway
  (`WholePass.PreservedExactly`; `WholePass.DecideConflict` tells beforehand): the map of constant substitutions keeps one binding per signal. `WholePass.ConstraintLost`
  gives the circuit that fixes a signal to 0 and to -1.
- Complementing twice gives a number back only if the bits cut off vanish in the field (`Bits.ComplementBeyondField`).
  The unit test at modular_arithmetic.rs:250-259 expects 206 for 1234 modulo 257; the complement of the complement
  is proved to be 210 (`Bits.ComplementLosesBits`). On elements of the field it is an involution.
- A signal that is assigned once on every outcome ends as assigned exactly if the program settles it
  (`SettledAssignment.AlwaysAssignedExactly`), that is, if every else branch that completes a true branch assigns the signal
  under no further unknown condition; otherwise it ends as perhaps assigned, because the state keeps one path only.
  `SettledAssignment.AlwaysAssignedUnnoticed` gives such a program.

## Conditions on the input

Coefficients are residues of a prime field, linear constraints have no zero coefficient except perhaps the constant's,
the constant wire is forbidden, and signals are below the number of labels. `Compilation.MappedIsValid` derives them from
the same conditions on the constraints of each template. Names of local signals
in one node are distinct: adding one that is taken makes the graph invalid, and `Mapping.DuplicateIsLost` says which signal
the flattening then misses.

## Model

| member | source | states |
|---|---|---|
| Compilation.CompileIsEquivalent | circom/dag/src/map_to_constraint_list.rs:110-147 | End to end: unless two constant equalities conflict, an assignment of the exported wires satisfies the exported constraints exactly if it carries the kept signals of an assignment under which the main template and all its components hold |
| Compilation.Compile | circom/constraint_list/src/lib.rs:130-144 | Mapping, simplification and renumbering of any valid graph, for any number of rounds and either heuristic; without linear simplification only signals of equalities are eliminated, and with it and enough rounds every linear constraint left is over forbidden signals |
| Export.FileIsEquivalent | circom/constraint_list/src/r1cs_porting.rs:4-55 | From the templates to the bytes: without a conflict, the constraints read back from the written file, whatever the order of its sections, hold exactly for the wires that carry the listed signals of an assignment under which the main template and all its components hold; the header read back has the counts of wires, outputs, inputs, labels and constraints |
| Export.ExportedBack | circom/constraint_list/src/r1cs_porting.rs:22-53 | Reading the file gives back the exported constraints, the signal of every wire, every number of the header and the custom gates |
| Export.ExportedLayout | circom/constraint_list/src/r1cs_porting.rs:22-111 | Where in the bytes each of these numbers is, without the reader |
| Export.PortR1cs | circom/constraint_list/src/r1cs_porting.rs:4-111 | Writes constraints, header and signals in this order, then the custom gates used and applied if there are any |
| Export.FileFits | circom/constraint_list/src/r1cs_porting.rs:37-53 | Once the numbers of wires, constraints and labels fit, every identifier, coefficient and count in the file fits its width |
| Export.FieldFits | circom/constraint_list/src/r1cs_porting.rs:6-10 | The field size computed from the bits holds the field and all its elements |
| Export.FieldLeast | circom/constraint_list/src/r1cs_porting.rs:6-10 | And no smaller multiple of eight bytes does |
| Export.FirstWires | circom/constraint_list/src/constraint_simplification.rs:101-124 | Forbidden signals that come first keep their numbers as wires |
| Export.InterfaceWires | circom/constraint_list/src/r1cs_porting.rs:37-45 | If outputs and public inputs are numbered first, the wires after the constant one, as many as the header says, are theirs |
| WholePass.PreservedExactly | circom/constraint_list/src/constraint_simplification.rs:442-700 | Every solution of the simplified constraints extends, on the kept signals, to a solution of the circuit exactly if no two constant equalities conflict, or the circuit without the overwritten ones has no solution |
| WholePass.SolutionsStay | circom/constraint_list/src/constraint_simplification.rs:442-700 | Every solution of the circuit satisfies the simplified constraints |
| WholePass.SolutionsExtend | circom/constraint_list/src/constraint_simplification.rs:442-700 | Every solution of the simplified constraints, changed on eliminated signals only, satisfies the circuit without the overwritten constant equalities |
| WholePass.EliminatedAreDetermined | circom/constraint_list/src/constraint_simplification.rs:442-700 | Two solutions of the circuit that agree modulo the field on the signals that were not eliminated agree on all |
| WholePass.ConstraintLost | circom/constraint_list/src/constraint_simplification.rs:253-273 | Concrete failure: for one signal fixed to 0 and then to -1, over every field, the result has solutions and the circuit has none |
| WholePass.SurvivingIsAll | circom/constraint_list/src/constraint_simplification.rs:253-273 | Without a conflict the constant equalities that survive imply the overwritten ones |
| WholePass.ConflictMeansNone | circom/constraint_list/src/constraint_simplification.rs:253-273 | A circuit with a conflict has no solution |
| WholePass.CompiledIsEquivalent | circom/constraint_list/src/r1cs_porting.rs:22-34 | Without a conflict, dense witnesses of the renumbered constraints and solutions of the circuit correspond |
| WholePass.PreservedUnlessConflict | circom/constraint_list/src/constraint_simplification.rs:442-700 | While what is left of the circuit has a solution, solutions are preserved exactly if there is no conflict |
| WholePass.DecideConflict | circom/constraint_list/src/constraint_simplification.rs:480-530 | The stages for equalities and constants decide, before the rest runs, whether two constant equalities conflict |
| Conflicts.ConflictIsDisagreement | circom/constraint_list/src/constraint_simplification.rs:253-273 | Constant equalities conflict exactly if, after renaming, two constants substituted for one signal differ |
| WholePass.RenumberedHold | circom/circom_algebra/src/algebra.rs:1037-1050 | Renumbered constraints hold under an assignment of the new numbers exactly where the constraints hold under it read back |
| WholePass.Renumber | circom/constraint_list/src/r1cs_porting.rs:23-25 | Renames every constraint by an injective numbering that fixes the constant wire |
| Simplification.SimplifyCircuit | circom/constraint_list/src/constraint_simplification.rs:442-700 | For every valid circuit: the substitutions in elimination order together with the stored constraints hold exactly where the surviving circuit does; no stored constraint mentions an eliminated signal; the numbering is the ranking of the kept signals, which are the forbidden ones and, of the rest, only signals of the circuit, before any round only those of the result. Without linear simplification no linear constraint is used up; with it the passes end only when every linear constraint left is over forbidden signals or their number is used up; in each pass the heuristics chose the signals |
| Simplification.Rounds | circom/constraint_list/src/constraint_simplification.rs:586-646 | Every round keeps the meaning and all invariants and is a pass over the linear constraints left; rounds are run exactly while linear simplification is on, linear constraints are left and the number allowed is not used up; at most one round more than there are signals in use is run; the kept linear constraints stay over forbidden signals, and no signal comes into use |
| Simplification.RoundProgress | circom/constraint_list/src/constraint_simplification.rs:602-640 | One round keeps the exact meaning, the elimination order and the disjointness of eliminated and used signals; the signals in use shrink by the ones it eliminates |
| Simplification.RoundExact | circom/constraint_list/src/constraint_simplification.rs:602-640 | The circuit holds exactly where all substitutions so far, the kept, the linear and the stored constraints hold, before and after a round |
| Simplification.StagesExact | circom/constraint_list/src/constraint_simplification.rs:475-585 | After the equality, constant and linear stages and the first propagation the same exact equivalence holds |
| Simplification.StagesTriangular | circom/constraint_list/src/constraint_simplification.rs:480-572 | The substitutions of the three stages eliminate distinct unforbidden signals, each without mentioning an earlier one |
| Simplification.FramesClear | circom/constraint_list/src/constraint_simplification.rs:565-580 | The three frames, though restricted to relevant signals, leave no eliminated signal in a quadratic constraint |
| Simplification.StagesProgress | circom/constraint_list/src/constraint_simplification.rs:475-600 | All invariants of the rounds hold before the first one |
| Simplification.EqualityPart | circom/constraint_list/src/constraint_simplification.rs:480-510 | Collapses the equalities, each class to its least signal, and rewrites the linear and constant constraints by the renamings |
| Simplification.ConstantPart | circom/constraint_list/src/constraint_simplification.rs:512-530 | Substitutes the constants in the linear constraints |
| Simplification.LinearPart | circom/constraint_list/src/constraint_simplification.rs:543-576 | With linear simplification only constraints over forbidden signals are left, and in every cluster the heuristics chose the signals; without it nothing is eliminated and the linear constraints are kept as they are |
| Simplification.RunStages | circom/constraint_list/src/constraint_simplification.rs:475-585 | The three stages, the frames they leave for the quadratic constraints and the signals deleted |
| Simplification.FirstPropagation | circom/constraint_list/src/non_linear_utils.rs:6-32 | After the stages the quadratic constraints are stored and indexed by exactly their signals, all of which the circuit has |
| Simplification.StagesUse | circom/constraint_list/src/constraint_simplification.rs:475-600 | The stages and the first propagation bring in no signal that the circuit does not have |
| Simplification.StoreRest | circom/constraint_list/src/constraint_simplification.rs:648-712 | Stores what is left, drops empty constraints and numbers the signals still used |
| Simplification.FinishKept | circom/constraint_list/src/constraint_simplification.rs:101-124 | A signal keeps its wire only if it is forbidden or used; without a round before, only if it is forbidden or in the result |
| Simplification.PassesEliminate | circom/constraint_list/src/constraint_simplification.rs:543-640 | The signals eliminated are some of the equalities and constants, then those of the passes; with the old heuristics each is the largest of its substitution that is not forbidden |
| Simplification.FinishLinear | circom/constraint_list/src/constraint_simplification.rs:586-697 | Once no linear constraint waits, every linear constraint stored is over forbidden signals |
| Simplification.StagesFroms | circom/constraint_list/src/constraint_simplification.rs:480-572 | The stages eliminate signals of equalities, constant equalities and linear constraints, of the last only if linear simplification is on |
| Simplification.AddConstraints | circom/constraint_list/src/constraint_simplification.rs:648-664 | Appending constraints keeps the index covering the storage and adds exactly their signals to it |
| Simplification.WithoutEmpty | circom/constraint_list/src/constraint_simplification.rs:697 | Dropping empty constraints changes nothing |
| Simplification.TriangularAppend | circom/constraint_list/src/constraint_simplification.rs:613-616 | A round over signals still in use keeps the elimination order |
| Conflicts.NoConflictKeepsAll | circom/constraint_list/src/constraint_simplification.rs:253-273 | Without a conflict, and where the equalities hold, the surviving constant equalities hold exactly where all do |
| Conflicts.ConflictIsUnsatisfiable | circom/constraint_list/src/constraint_simplification.rs:253-273 | Conflicting constant equalities and the equalities that tie their signals have no common solution |
| Conflicts.ConstantsMean | circom/constraint_list/src/constraint_simplification.rs:253-273 | Where the renamings hold, the explicit constraints and the map of constants say exactly what the surviving constant equalities of the circuit say |
| Conflicts.ConstantsHold | circom/constraint_list/src/constraint_simplification.rs:253-273 | Explicit constraints and map together hold exactly where every constant equality whose place was not taken does |
| Conflicts.EncodeIsLast | circom/circom_algebra/src/simplification_utils.rs:520-527 | An encoded map holds exactly where the last substitution of every signal does |
| Conflicts.OverwrittenIsTakenOver | circom/constraint_list/src/constraint_simplification.rs:494-498 | A constant equality loses its place exactly if a later one fixes a signal tied to its own and no forbidden signal is tied to them |
| Conflicts.SameImage | circom/constraint_list/src/constraint_simplification.rs:126-251 | Two signals are renamed to one unforbidden signal exactly if equalities tie them together and tie no forbidden signal to them |
| Conflicts.FixesRenamed | circom/constraint_list/src/constraint_simplification.rs:494-498 | A constant equality stays one on exactly one signal after renaming, so taking its signal cannot fail |
| Conflicts.OneValue | circom/constraint_list/src/constraint_simplification.rs:253-273 | A constant equality allows exactly one value modulo the field |
| Constants.ConstantEqSimplification | circom/constraint_list/src/constraint_simplification.rs:253-273 | Every constant equality is kept if its signal is forbidden, and otherwise becomes, in order, a constant substitution with the same meaning |
| Constants.ClearFromLinear | circom/circom_algebra/src/algebra.rs:1056-1066 | Dividing by the pivot succeeds and gives a substitution that holds exactly where the constraint does |
| Constants.EncodingLossless | circom/circom_algebra/src/simplification_utils.rs:520-527 | The map says what the list of constant substitutions says exactly if no two give a signal different values |
| Constants.SameConstantIsConsistent | circom/constraint_list/src/constraint_simplification.rs:253-273 | Two substitutions of a signal agree exactly if the constraints they were made from do not contradict |
| Relevance.BuildRelevantSet | circom/constraint_list/src/constraint_simplification.rs:398-429 | The relevant signals are those of the quadratic constraints after renaming, without the deleted ones |
| Relevance.RemoveNotRelevant | circom/constraint_list/src/constraint_simplification.rs:431-438 | Keeps exactly the entries of relevant signals |
| Relevance.FramesEliminate | circom/constraint_list/src/constraint_simplification.rs:398-438 | Restricting the frames to relevant signals changes no image: every signal of the unrestricted frames is still eliminated |
| NonLinear.ObtainAndSimplifyNonLinear | circom/constraint_list/src/non_linear_utils.rs:6-32 | Where the frames hold, the linear and the stored constraints together say what the quadratic constraints said; each comes from one of them, in order |
| NonLinear.BuildNonLinearSignalMap | circom/constraint_list/src/constraint_simplification.rs:328-343 | Every signal of every stored constraint lists it, only stored constraints are listed, and no other signal is in the index |
| NonLinear.ApplySubstitutionToMap | circom/constraint_list/src/constraint_simplification.rs:345-396 | After the substitutions of a round every stored constraint was updated by all of them, linear ones are moved out and none stays, the index still covers the storage, and nothing is moved unless something was substituted |
| NonLinear.ConstraintProcessing | circom/constraint_list/src/constraint_simplification.rs:351-378 | Updates the listed constraints and no other, returns only linear ones, and keeps the index covering |
| NonLinear.RoundSignals | circom/constraint_list/src/constraint_simplification.rs:345-396 | After a round neither a stored nor a moved constraint mentions an eliminated signal |
| NonLinear.RoundHolds | circom/constraint_list/src/constraint_simplification.rs:345-396 | Where the substitutions hold, stored and moved constraints say what the stored ones said before |
| NonLinear.FromListHolds | circom/constraint_list/src/non_linear_utils.rs:6-32 | Framed constraints and the originals hold together where the frames hold |
| NonLinear.ApplySubstitutions | circom/constraint_list/src/constraint_simplification.rs:617-622 | Applying all substitutions of a round in turn removes their signals and keeps the meaning where they hold |
| NonLinear.SelectMembers | circom/circom_algebra/src/constraint_storage/mod.rs:48-60 | Extracting by a filter keeps exactly the constraints the filter refuses |
| NonLinear.ConstraintStorage.ExtractWith | circom/circom_algebra/src/constraint_storage/mod.rs:48-60 | Splits the storage into what the filter accepts and refuses, in order |
| NonLinear.ConstraintStorage.AddConstraint | circom/circom_algebra/src/constraint_storage/mod.rs:27-32 | Appends and returns the position |
| NonLinear.ConstraintStorage.Replace | circom/circom_algebra/src/constraint_storage/mod.rs:42-46 | Replaces the one constraint if it exists |
| EncodedSubstitution.FastEncodedConstraintSubstitution | circom/circom_algebra/src/simplification_utils.rs:496-507 | For any order of visiting the signals, the result is the simultaneous substitution, mentions no signal of the map and keeps the meaning where the map holds |
| EncodedSubstitution.SimultaneousStep | circom/circom_algebra/src/simplification_utils.rs:496-507 | Substituting one more signal extends the simultaneous reading by it |
| EncodedSubstitution.ImageAvoidsKeys | circom/circom_algebra/src/simplification_utils.rs:496-507 | No signal of a solved map is left in its image |
| EncodedSubstitution.EncodeHolds | circom/circom_algebra/src/simplification_utils.rs:520-527 | A list in solved form and its map say the same |
| EncodedSubstitution.RoundTripHolds | circom/circom_algebra/src/algebra.rs:906-937 | Encoding a substitution as an expression and decoding it keeps its meaning |
| EncodedSubstitution.BuildEncodedFastSubstitutions | circom/circom_algebra/src/simplification_utils.rs:520-527 | Builds the map by insertion, the last substitution of a signal winning |
| EncodedSubstitution.SubstituteAll | circom/constraint_list/src/constraint_simplification.rs:489-498 | Rewrites every constraint of a list and normalises the changed ones |
| EncodedSubstitution.RewrittenListHolds | circom/constraint_list/src/constraint_simplification.rs:489-498 | Where the map holds, a rewritten list says what the list said |
| ClusterPass.LinearSimplification | circom/constraint_list/src/constraint_simplification.rs:275-325 | For any order in which the clusters finish: the results together are equivalent to the list, in solved form, and leave only constraints over forbidden signals; in every connected component the signals are chosen by the heuristic for its size |
| ClusterPass.EqSimplification | circom/constraint_list/src/constraint_simplification.rs:198-251 | The same for equalities; every signal is renamed to the least forbidden signal tied to it, or to the least one tied to it if none is forbidden |
| ClusterPass.LeastFromRepresentatives | circom/constraint_list/src/constraint_simplification.rs:126-196 | The representatives of the clusters are those least signals |
| ClusterPass.OldHeuristics | circom/circom_algebra/src/simplification_utils.rs:543-581 | With the old heuristics every substitution is for the largest of its signals that is not forbidden |
| ClusterPass.ChosenStep | circom/constraint_list/src/constraint_simplification.rs:313-323 | The choices in one cluster are not touched by the results of another |
| ClusterPass.Accumulate | circom/constraint_list/src/constraint_simplification.rs:313-323 | Adding the result of one more cluster keeps everything, because clusters have disjoint signals |
| ClusterPass.TiedEqual | circom/constraint_list/src/constraint_simplification.rs:126-196 | Signals tied by equalities are equal in every solution |
| ClusterPass.TiedSameCluster | circom/constraint_list/src/constraint_simplification.rs:45-99 | Nothing outside a cluster is tied to a signal in it |
| Equalities.EqClusterSimplification | circom/constraint_list/src/constraint_simplification.rs:126-196 | A connected cluster of equalities holds exactly where the renamings to one representative and the explicit constraints of forbidden signals hold |
| Equalities.EqualitiesAreAllEqual | circom/constraint_list/src/constraint_simplification.rs:126-196 | Connected equalities say exactly that every signal has the representative's value |
| Equalities.EqualityHolds | circom/circom_algebra/src/algebra.rs:1346-1360 | An equality holds exactly where its two signals are equal in the field |
| Equalities.EqualityExactly | circom/circom_algebra/src/algebra.rs:1180-1182 | A linear constraint of two signals is an equality exactly if it holds wherever the two signals are equal |
| Equalities.ConstantEqualityExactly | circom/circom_algebra/src/algebra.rs:1184-1186 | A constraint is a constant equality exactly if it is linear with one signal |
| Equalities.DifferenceHolds | circom/constraint_list/src/constraint_simplification.rs:182-188 | The explicit constraint holds exactly where the two signals are equal |
| Clusters.BuildClusters | circom/constraint_list/src/constraint_simplification.rs:45-99 | Every nonempty constraint is in exactly one cluster at one place, two share a cluster exactly if they are linked by shared signals, and the signal count of every cluster is exact |
| Clusters.LinkedIsChain | circom/constraint_list/src/constraint_simplification.rs:45-99 | Being linked is being joined by a chain of constraints that share signals |
| Clusters.ShrinkJumpsAndFind | circom/constraint_list/src/constraint_simplification.rs:48-59 | Finds the root and points exactly the nodes on the way at it, without changing any root; ends because parents are never smaller |
| Clusters.ArenaMerge | circom/constraint_list/src/constraint_simplification.rs:61-69 | Moves the whole group of the source to the destination |
| Clusters.LinkSignals | circom/constraint_list/src/constraint_simplification.rs:75-89 | Linking the signals of a new constraint keeps groups, index and signal counts right, a group merged with itself included |
| Clusters.PendingAfter | circom/constraint_list/src/constraint_simplification.rs:32-38 | Counting one shared signal down per merge gives the exact count of distinct signals once all are treated |
| ClusterFacts.ClustersHold | circom/constraint_list/src/constraint_simplification.rs:45-99 | The list holds exactly where every cluster holds |
| ClusterFacts.ClustersDisjoint | circom/constraint_list/src/constraint_simplification.rs:45-99 | Different clusters have no signal in common |
| ClusterFacts.ClusterConnected | circom/constraint_list/src/constraint_simplification.rs:45-99 | A cluster is connected by its own constraints |
| ClusterFacts.SolvedAppend | circom/constraint_list/src/constraint_simplification.rs:313-323 | Solved forms over disjoint signals are together in solved form |
| Elimination.FullSimplification | circom/circom_algebra/src/simplification_utils.rs:543-581 | Linear constraints hold exactly where the leftovers and the substitutions do, for either heuristic and inconsistent input; substitutions are in solved form and never of forbidden signals; leftovers mention forbidden signals only. From 350 to 999999 constraints, unless the old heuristics are asked for, a constraint with a signal that occurs in no other is solved for such a signal; otherwise the largest signal is eliminated |
| Elimination.NormalizeSubstitutions | circom/circom_algebra/src/simplification_utils.rs:414-436 | Dividing all rows by their pivots with one batch inversion keeps their meaning |
| Elimination.ResolveInOrder | circom/circom_algebra/src/simplification_utils.rs:451-479 | Back-substitution keeps the meaning and leaves no eliminated signal on a right-hand side |
| Elimination.CreateNonoverlappingSubstitutions | circom/circom_algebra/src/simplification_utils.rs:451-463 | Ascending order resolves the rows of heuristic 3 |
| Elimination.CreateNonoverlappingSubstitutions4 | circom/circom_algebra/src/simplification_utils.rs:465-479 | Reverse elimination order resolves the rows of heuristic 4 |
| Elimination.ResolveOne | circom/circom_algebra/src/simplification_utils.rs:439-463 | Resolving one substitution removes every signal resolved before and keeps its meaning where those hold |
| Elimination.NormalizedHolds | circom/circom_algebra/src/simplification_utils.rs:414-436 | A row divided by its pivot holds exactly where the row does |
| Extension.LeftoversExtend | circom/circom_algebra/src/simplification_utils.rs:543-581 | Every solution of the leftovers extends to a solution of the constraints, changing eliminated signals only |
| Extension.LeftoversExtendOnce | circom/circom_algebra/src/simplification_utils.rs:543-581 | The extension is unique modulo the field |
| Extension.HeuristicsAgree | circom/circom_algebra/src/simplification_utils.rs:543-581 | Two eliminations of the same constraints, by whatever heuristics, are equivalent systems |
| Extension.ExtendHolds | circom/circom_algebra/src/simplification_utils.rs:451-479 | Substitutions in elimination order are satisfied by evaluating them from the last to the first |
| Extension.ExtensionUnique | circom/circom_algebra/src/simplification_utils.rs:451-479 | And by no other values modulo the field |
| MaxElimination.SubstitutionProcess3 | circom/circom_algebra/src/simplification_utils.rs:143-154 | Heuristic 3: rows and leftovers hold exactly where the constraints do, and every row mentions smaller or forbidden signals only |
| MaxElimination.TreatConstraint3 | circom/circom_algebra/src/simplification_utils.rs:259-294 | Reduces a constraint against the rows until it is empty, a leftover or a new row; ends because the largest eliminable signal falls |
| MaxElimination.TakeSignal3 | circom/circom_algebra/src/simplification_utils.rs:368-377 | The largest eliminable signal, whatever the order of the map |
| OccurrenceElimination.SubstitutionProcess4 | circom/circom_algebra/src/simplification_utils.rs:156-185 | Heuristic 4: the same equivalence, every row holding no signal eliminated before it, the order listing the eliminated signals |
| OccurrenceElimination.TreatConstraint4 | circom/circom_algebra/src/simplification_utils.rs:312-349 | Reduces a constraint though any eliminated signal may be taken; ends because the binary weight of the eliminated signals in it falls |
| OccurrenceElimination.TreatUniqueConstraint4 | circom/circom_algebra/src/simplification_utils.rs:296-310 | A constraint whose signal occurs nowhere else becomes that signal's row |
| OccurrenceElimination.TakeSignal4 | circom/circom_algebra/src/simplification_utils.rs:379-411 | Every untaken eliminable signal of the constraint has a count, so looking it up cannot fail; the choice is never forbidden |
| OccurrenceElimination.NewSignalsInformation | circom/circom_algebra/src/simplification_utils.rs:66-92 | Counts are exact, and the signals that occur once are found with a constraint that holds them |
| OccurrenceElimination.TreatUniques | circom/circom_algebra/src/simplification_utils.rs:166-176 | The counts stay those of the constraints still waiting |
| OccurrenceElimination.SignalsInformation.RemoveConstraint | circom/circom_algebra/src/simplification_utils.rs:94-107 | Every tracked signal of the constraint is counted down by one and never below zero |
| OccurrenceElimination.SignalsInformation.RemoveSignal | circom/circom_algebra/src/simplification_utils.rs:109-111 | Forgets the signal |
| OccurrenceElimination.CancelFalls | circom/circom_algebra/src/simplification_utils.rs:312-349 | Cancelling an eliminated signal against its row lowers the weight |
| Rows.MergeHolds | circom/circom_algebra/src/simplification_utils.rs:280-290 | Where the pivot's row holds, the merged constraint says exactly what the other row said |
| Rows.ClearHolds | circom/circom_algebra/src/algebra.rs:1067-1077 | Moving a signal to the left-hand side keeps the constraint's meaning |
| Rows.MergeShape | circom/circom_algebra/src/simplification_utils.rs:280-290 | A merge is a linear row again, over the signals of its parts |
| Algebra.AddHomomorphism | circom/circom_algebra/src/algebra.rs:247-347 | A sum that is not NonQuadratic evaluates to the sum of the operands |
| Algebra.MulHomomorphism | circom/circom_algebra/src/algebra.rs:349-439 | A product that is not NonQuadratic evaluates to the product |
| Algebra.SubHomomorphism | circom/circom_algebra/src/algebra.rs:441-450 | A difference that is not NonQuadratic evaluates to the difference |
| Algebra.DivHomomorphism | circom/circom_algebra/src/algebra.rs:452-497 | A quotient times the divisor is the dividend; division fails exactly on divisors without inverse |
| Algebra.PowHomomorphism | circom/circom_algebra/src/algebra.rs:526-548 | A power that is not NonQuadratic evaluates to the power |
| Algebra.AddExpr | circom/circom_algebra/src/algebra.rs:247-347 | A sum is NonQuadratic exactly if an operand is, or both are quadratic |
| Algebra.MulExpr | circom/circom_algebra/src/algebra.rs:349-439 | A product is NonQuadratic exactly if an operand is, or a quadratic one meets anything but a number |
| Algebra.SubExpr | circom/circom_algebra/src/algebra.rs:441-450 | A difference is NonQuadratic exactly as a sum is |
| Algebra.DivExpr | circom/circom_algebra/src/algebra.rs:452-497 | A quotient is NonQuadratic exactly if the dividend is or the divisor is not a number |
| Algebra.PowExpr | circom/circom_algebra/src/algebra.rs:526-548 | A power is NonQuadratic exactly if the exponent is not a number, or the base is quadratic or worse, or neither is the base a number nor the exponent 2 |
| Algebra.MulFactors | circom/circom_algebra/src/algebra.rs:349-439 | The factors of a product are its operands, a linear one before a signal; a number multiplies the first factor |
| Algebra.DegreesAdd | circom/circom_algebra/src/algebra.rs:247-347 | The degree of a sum is the larger degree, two quadratic operands apart |
| Algebra.DegreesMul | circom/circom_algebra/src/algebra.rs:349-439 | The degree of a product is the sum of the degrees, cut off above quadratic |
| Algebra.DegreesDiv | circom/circom_algebra/src/algebra.rs:452-497 | Dividing by a number keeps the degree |
| Algebra.DegreesPow | circom/circom_algebra/src/algebra.rs:526-548 | Only squares of linear expressions are quadratic |
| Algebra.ResiduesMul | circom/circom_algebra/src/algebra.rs:349-439 | Products of residues have residues as coefficients again |
| Algebra.ResiduesAdd | circom/circom_algebra/src/algebra.rs:247-347 | So have sums of residues |
| Algebra.ResiduesSub | circom/circom_algebra/src/algebra.rs:441-450 | And differences |
| Algebra.ResiduesDiv | circom/circom_algebra/src/algebra.rs:452-497 | And quotients |
| Algebra.ResiduesPow | circom/circom_algebra/src/algebra.rs:526-548 | And powers |
| Algebra.TransformShape | circom/circom_algebra/src/algebra.rs:113-145 | The constraint made from an expression with residues is canonical; it has the factors of a quadratic expression, and is linear for any other |
| Algebra.TransformHolds | circom/circom_algebra/src/algebra.rs:113-145 | The constraint made from an expression holds exactly where the expression is zero |
| Algebra.ApplyIsUpdate | circom/circom_algebra/src/algebra.rs:1138-1147 | A substituted constraint holds where the constraint does after updating the signal, and so reads each of its forms |
| Algebra.ApplySame | circom/circom_algebra/src/algebra.rs:1138-1147 | Where the substitution itself holds, applying it changes nothing |
| Algebra.FixHolds | circom/circom_algebra/src/algebra.rs:1309-1324 | Normalising keeps what a constraint says |
| Algebra.FixShape | circom/circom_algebra/src/algebra.rs:1309-1344 | Normalising leaves nonzero residues only and introduces no signal |
| Algebra.FixRawConstraint | circom/circom_algebra/src/algebra.rs:1309-1324 | The in-place normalisation computes the normal form |
| Algebra.NewSubstitution | circom/circom_algebra/src/algebra.rs:844-862 | A substitution exists exactly for numbers, signals and linear expressions without the signal itself |
| Algebra.FormIntoExprMeans | circom/circom_algebra/src/algebra.rs:804-833 | A form read back as an expression has the form's value |
| Algebra.HoldsAgree | circom/circom_algebra/src/algebra.rs:1078-1090 | Only the signals of a constraint decide whether it holds |
| LinearForms.SubstituteIsUpdate | circom/circom_algebra/src/algebra.rs:1279-1294 | Substituting in a form evaluates like updating the assignment at the signal |
| LinearForms.RawSubstitution | circom/circom_algebra/src/algebra.rs:1279-1294 | The in-place substitution computes the substituted form |
| LinearForms.EvalAddForms | circom/circom_algebra/src/algebra.rs:202-218 | Adding coefficient maps adds values |
| LinearForms.EvalScale | circom/circom_algebra/src/algebra.rs:220-229 | Multiplying all coefficients multiplies the value |
| LinearForms.EvalRemoveZeros | circom/circom_algebra/src/algebra.rs:1296-1307 | Removing zero coefficients keeps the value |
| LinearForms.AddCoefficientsToCoefficients | circom/circom_algebra/src/algebra.rs:202-218 | For any order of the keys the loop adds every coefficient once |
| LinearForms.MultiplyCoefficientsByConstant | circom/circom_algebra/src/algebra.rs:220-229 | The loop multiplies every coefficient once |
| LinearForms.RemoveZeroValueCoefficients | circom/circom_algebra/src/algebra.rs:1296-1307 | The loop keeps exactly the nonzero coefficients |
| Field.MultiInv | circom/circom_algebra/src/modular_arithmetic.rs:71-92 | With one inversion, every output times its value is one modulo a prime |
| Field.Cancel | circom/circom_algebra/src/modular_arithmetic.rs:41-47 | A factor that is not zero modulo a prime can be cancelled on both sides of an equality |
| Field.Div | circom/circom_algebra/src/modular_arithmetic.rs:41-47 | The quotient times the divisor is the dividend; fails exactly if the divisor has no inverse |
| Field.ModInverse | circom/circom_algebra/src/modular_arithmetic.rs:42-44 | Found exactly if it exists, by the extended Euclidean algorithm |
| Field.Modulus | circom/circom_algebra/src/modular_arithmetic.rs:9-11 | Truncating remainders give the representative in the field, for negative numbers too |
| Bits.Complement | circom/circom_algebra/src/modular_arithmetic.rs:94-109 | Cutting, filling and flipping the bits computes the complement |
| Bits.ComplementInvolution | circom/circom_algebra/src/modular_arithmetic.rs:94-109 | An involution on the elements of the field, for every modulus |
| Bits.ComplementBeyondField | circom/circom_algebra/src/modular_arithmetic.rs:94-109 | On larger numbers, complementing twice gives the number back exactly if the cut-off bits vanish in the field |
| Bits.ComplementOfNegative | circom/circom_algebra/src/modular_arithmetic.rs:94-109 | The exact condition on negative numbers |
| Bits.ComplementLosesBits | circom/circom_algebra/src/modular_arithmetic.rs:250-259 | For 1234 modulo 257 complementing twice gives 210, not 206 |
| Renaming.RenamedHolds | circom/circom_algebra/src/algebra.rs:1037-1050 | Renaming signals injectively keeps what a constraint says |
| Renaming.ApplyRawCorrespondence | circom/circom_algebra/src/algebra.rs:1245-1264 | Renames every signal, keeps the constant wire and every coefficient |
| Renaming.ApplyCorrespondence | circom/circom_algebra/src/algebra.rs:1037-1050 | Renames the three forms |
| Witness.RebuildWitness | circom/constraint_list/src/constraint_simplification.rs:101-124 | The queue of free places gives every kept signal the number of kept signals below it; the unused are deleted |
| Witness.GetWitnessAsVec | circom/constraint_list/src/lib.rs:187-193 | The inverse of the numbering, ascending |
| Witness.RankHit | circom/constraint_list/src/constraint_simplification.rs:101-124 | The numbering has no gaps |
| Witness.RankingKeepsConstant | circom/constraint_list/src/constraint_simplification.rs:101-124 | The constant wire stays at zero and nothing else goes there |
| Dag.DAG.AddEdge | circom/dag/src/lib.rs:328-371 | Reserves the next numbers for a component, only of earlier nodes, and records its signals' names, replacing equal ones; the graph stays valid exactly if none of those was a local signal's |
| Dag.DAG.AddNode | circom/dag/src/lib.rs:373-386 | A new node starts empty, the constant wire forbidden |
| Dag.DAG.AddInput | circom/dag/src/lib.rs:179-192 | The next number under the name, forbidden if public; the name replaces an equal one, and the graph stays valid exactly if that was no local signal's |
| Dag.DAG.AddOutput | circom/dag/src/lib.rs:194-204 | The next number under the name, forbidden; valid under the same exact condition |
| Dag.DAG.AddIntermediate | circom/dag/src/lib.rs:206-214 | The next number under the name; valid under the same exact condition |
| Dag.InputCounted | circom/dag/src/lib.rs:179-192 | The lengths count the signals of each kind, and the main template forbids exactly as many signals as there are outputs and public inputs, besides the constant wire |
| Dag.OutputCounted | circom/dag/src/lib.rs:194-204 | The same for an output |
| Dag.EdgeCounted | circom/dag/src/lib.rs:328-371 | A component changes neither these counts nor the interface |
| Dag.CountsFollow | circom/dag/src/lib.rs:160-214 | An output, a public input and a private input are counted each as what it is, an intermediate signal as none |
| Dag.LocalNamed | circom/dag/src/lib.rs:179-214 | A name taken twice leaves exactly the signal that had it without a name |
| Dag.ExtendedNamed | circom/dag/src/lib.rs:348-366 | The names of a component leave every local signal its name exactly if they are free |
| Dag.DAG.AddConstraint | circom/dag/src/lib.rs:220-222 | Appends the constraint; the numbering is untouched |
| Dag.KeepsEarlier | circom/dag/src/lib.rs:388-416 | Changing or adding the last node leaves every earlier one valid |
| Flattening.FlattenedHolds | circom/dag/src/lib.rs:56-80 | The flattened constraints of a node hold exactly where its own constraints and, at their places, those of all its components do |
| Flattening.OffsetHolds | circom/circom_algebra/src/algebra.rs:1217-1222 | A moved constraint says of the moved signals what the constraint said, form by form |
| Flattening.ApplyRawOffset | circom/circom_algebra/src/algebra.rs:1266-1277 | The loop moves every signal and keeps the constant wire |
| Flattening.PickCounts | circom/dag/src/map_to_constraint_list.rs:12-44 | Every constraint goes to the list of its kind, as often as it occurs, and to no other |
| Flattening.PickHolds | circom/dag/src/map_to_constraint_list.rs:12-44 | The four lists together say what the constraints said |
| Mapping.MapTree | circom/dag/src/map_to_constraint_list.rs:12-44 | Lists every number of the node's range once, sorts every flattened constraint by its kind, counts the quadratic ones, and forbids the signals of custom gates |
| Mapping.ProduceWitness | circom/dag/src/witness_producer.rs:3-9 | The constant wire and all signals of the circuit, each once, none beyond their number |
| Mapping.ProduceTreeWitness | circom/dag/src/witness_producer.rs:11-19 | The signals of a node at an offset are the numbers above the offset up to its size, each once |
| Mapping.PartlyAll | circom/dag/src/lib.rs:328-371 | Local signals and component ranges fill a node's range without gap or overlap |
| Mapping.EnumeratesOnce | circom/dag/src/witness_producer.rs:3-9 | A list of n entries that holds n numbers has no duplicates |
| Mapping.CollectLocals | circom/dag/src/lib.rs:39-46 | The local signals of a node that have a name, sorted; all of them exactly if every one has its name |
| Mapping.DuplicateIsLost | circom/dag/src/lib.rs:39-46 | After a duplicated name the list of local signals misses exactly the signal whose name was taken, though it stays a signal of the node |
| Mapping.GoToSubtree | circom/dag/src/lib.rs:56-80 | The offset of a component is the node's plus the edge's; its nonempty constraints are moved there |
| Mapping.ProduceEncoding | circom/dag/src/map_to_constraint_list.rs:46-108 | Keeps the edges and, per node, the constraints that are not linear |
| Mapping.Replay | circom/constraint_list/src/lib.rs:75-101 | The encoding yields exactly the quadratic constraints of the flattened graph, in the same order at the same offsets |
| Mapping.NotLinearPicks | circom/constraint_list/src/state_utils.rs:14-35 | Filtering before moving and moving before filtering give the same quadratic constraints |
| Compilation.Map | circom/dag/src/map_to_constraint_list.rs:110-147 | One list per kind, the quadratic ones from the encoding, the largest signal number, and the forbidden signals |
| Compilation.MappedHolds | circom/dag/src/map_to_constraint_list.rs:110-147 | The mapped circuit holds exactly where the main node and all components hold: no constraint is lost or changed |
| Compilation.MappedIsValid | circom/dag/src/map_to_constraint_list.rs:110-147 | The mapped circuit has the kinds and the signal range the simplification relies on |
| Compilation.FlattenedGood | circom/dag/src/lib.rs:56-80 | Every constraint of a component stays within the component's numbers |
| SingleAssignment.AssignmentIsExact | circom/constraint_generation/src/assignment_utils.rs:234-310 | For every program: it is refused for a signal exactly if some outcome of its conditions assigns the signal twice; a final Assigned means once on every outcome, NoAssigned never, a path once whenever the path is taken |
| SingleAssignment.RunIsJudged | circom/constraint_generation/src/execute.rs:2653-2701 | The account of assignments made is kept by every statement, in every branch |
| SettledAssignment.AssignedIsSettled | circom/constraint_generation/src/assignment_utils.rs:281-304 | A program ends in Assigned for a signal exactly if it settles it: of two statements one settles it and the other never assigns it, and an unknown condition has a true branch that settles it and an else branch that assigns it under no further unknown condition |
| SettledAssignment.AlwaysAssignedExactly | circom/constraint_generation/src/assignment_utils.rs:281-304 | A signal assigned once on every outcome ends as Assigned exactly if the program settles it, and as perhaps assigned otherwise |
| SettledAssignment.FalseBranch | circom/constraint_generation/src/assignment_utils.rs:281-304 | After a true branch that assigned the signal, the else branch merges the two paths into their parent exactly if the true branch filled its own path and the else branch assigns directly |
| SettledAssignment.PartedRuns | circom/constraint_generation/src/assignment_utils.rs:281-304 | A signal assigned under another branch ends under the current path, or is merged into the parent path by a direct assignment |
| SettledAssignment.BlockedRuns | circom/constraint_generation/src/assignment_utils.rs:250-308 | Once assigned under a path, a signal is refused by every further assignment below it |
| SettledAssignment.AlwaysAssignedUnnoticed | circom/constraint_generation/src/assignment_utils.rs:281-304 | A program that assigns a signal once on every outcome without settling it |
| SingleAssignment.PerformSignalAssignment | circom/constraint_generation/src/assignment_utils.rs:234-310 | Every cell of the slice changes by the rule for its state, others do not; refused exactly if some cell refuses |
| SingleAssignment.ComparePaths | circom/constraint_generation/src/assignment_utils.rs:266-291 | The loop finds the first difference of two paths and classifies it |
| SingleAssignment.Runtime.Execute | circom/constraint_generation/src/execute.rs:2636-2703 | Every cell ends in the state of its own run; the stack of conditions and the block type are restored, the counter never reuses a number |
| SingleAssignment.RefusedIsTwice | circom/constraint_generation/src/assignment_utils.rs:250-308 | A refused assignment is a second one under some outcome |
| SingleAssignment.AcceptedIsAccounted | circom/constraint_generation/src/assignment_utils.rs:250-308 | An accepted one never is, although the state keeps only one path |
| R1csRoundTrip.RoundTrip | circom/constraint_writers/src/r1cs_reader.rs:453-564 | Reading a written file, its sections in any order, gives back header, constraints, signals and custom gates |
| R1csRoundTrip.Write | circom/constraint_writers/src/r1cs_writer.rs:155-233 | Writes the sections of a file in any order, each of the five kinds under its own number |
| R1csLayout.FileIsLaidOut | circom/constraint_writers/src/r1cs_writer.rs:9-153 | Every byte of a written file, in literal numbers: magic, version and number of sections, then each section as its type in four bytes, its length in eight and its content, the header at fixed offsets, the blocks of a, b and c, the labels and the custom gates |
| R1csRoundTrip.WriteSection | circom/constraint_writers/src/r1cs_writer.rs:245-454 | Writes one section of any of the five kinds |
| R1csRoundTrip.StartsBack | circom/constraint_writers/src/r1cs_reader.rs:459-476 | The scan finds every section, whatever the order |
| R1csRoundTrip.BlockBack | circom/constraint_writers/src/r1cs_reader.rs:69-85 | A written linear combination is read back |
| R1csRoundTrip.HeaderBack | circom/constraint_writers/src/r1cs_reader.rs:241-261 | A written header is read back |
| R1csRoundTrip.ConstraintsBack | circom/constraint_writers/src/r1cs_reader.rs:273-294 | Written constraints are read back in order |
| R1csRoundTrip.GatesUsedBack | circom/constraint_writers/src/r1cs_reader.rs:342-369 | Names without zero bytes and their parameters are read back |
| R1csRoundTrip.GatesAppliedBack | circom/constraint_writers/src/r1cs_reader.rs:386-404 | Applied gates are read back |
| R1csFormat.LeFits | circom/constraint_writers/src/r1cs_writer.rs:16-28 | A number that fits its width takes exactly that many bytes and is read back |
| R1csFormat.LeOverflows | circom/constraint_writers/src/r1cs_writer.rs:16-28 | A number that does not fit takes more bytes than its field has |
| R1csWriter.IntoFormat | circom/constraint_writers/src/r1cs_writer.rs:16-23 | Fills up with zeros and reports the real size |
| R1csWriter.ObtainLinearCombinationBlock | circom/constraint_writers/src/r1cs_writer.rs:49-72 | The number of factors and the factors in the byte order of their signals; the size is the number of bytes |
| R1csWriter.SortByBytes | circom/constraint_writers/src/r1cs_writer.rs:60-61 | Orders the signals by their bytes, each once |
| R1csWriter.Section.constructor | circom/constraint_writers/src/r1cs_writer.rs:30-37 | Writes the type and a placeholder at the end of the file |
| R1csWriter.Section.WriteHeader | circom/constraint_writers/src/r1cs_writer.rs:246-269 | Appends the header and accounts for its size |
| R1csWriter.Section.WriteConstraint | circom/constraint_writers/src/r1cs_writer.rs:282-308 | Appends the three blocks and accounts for their size |
| R1csWriter.Section.WriteCustomGatesUsages | circom/constraint_writers/src/r1cs_writer.rs:358-391 | Appends names, parameters and counts |
| R1csWriter.Section.WriteCustomGatesApplications | circom/constraint_writers/src/r1cs_writer.rs:408-441 | Appends indices, signals and counts |
| R1csWriter.Section.EndSection | circom/constraint_writers/src/r1cs_writer.rs:39-47 | The placeholder becomes the number of bytes in the section; nothing else changes |
| R1csReader.Reader.Read | circom/constraint_writers/src/r1cs_reader.rs:453-480 | Reads any bytes, well formed or not, as the specification of the reader says |
| R1csReader.Reader.ReadAllSections | circom/constraint_writers/src/r1cs_reader.rs:498-564 | Reads the sections by type and reports the missing one |
| R1csReader.Reader.ReadLinearCombinationBlock | circom/constraint_writers/src/r1cs_reader.rs:69-85 | Identifiers as bytes stand for the numbers they write |
| R1csReader.ConvertKeys | circom/constraint_writers/src/r1cs_reader.rs:274-294 | Turning identifiers into numbers merges nothing |

## Left out

- Threads: the pool that simplifies clusters is modelled by finishing the clusters in an arbitrary order.
- Hash maps: an iteration over a map or a set visits the keys in an arbitrary order; ordered maps and sets visit them in ascending order.
- Clusters.ShrinkJumpsAndFind: the union-find vectors are sequences that the methods take and return, so sharing and update in place are not captured.
- NonLinear.ApplySubstitutionToMap: the index is a map that the method takes and returns; the storage is updated in place.
- NonLinear.ConstraintStorage.AddConstraint: the compressed encoding of stored constraints is not modelled, a storage is a growable list.
- NonLinear.ObtainAndSimplifyNonLinear: takes the quadratic constraints as one list in the order of the traversal, which Mapping.Replay produces, instead of walking the encoding again; the linear ones come back in that order.
- Dag.DAG.AddEdge: counters of components, parallel flags, ordered and underscored signals are not modelled; nodes are values in a list, since only the last one ever changes.
- R1csWriter.ByteFile.WriteAll: a write always writes everything, and writing, seeking and flushing never fail.
- R1csReader.Reader.ReadName: names are bytes; the conversion to text and its failure are not modelled.
- R1csFormat.HeaderFits: numbers are unbounded, so widths appear as conditions of the round trip instead of machine integers; a panic on a number too large for a machine word is not modelled.
- Export.PortR1cs: the numbers of outputs and inputs in the header (those of `Export.CountsOf`) and the data of the custom gates are parameters; that no section is longer than its size field can tell is a condition.
- Algebra.PowExpr: the library's modular power is repeated multiplication; negative exponents are excluded for numbers.
- SingleAssignment.Runtime.Execute: statements are sequences, assignments and conditionals; loops, returns, buses, tags and the locations kept for error messages are not modelled.
- Simplification.SimplifyCircuit: the JSON log of substitutions, the timing messages and the count of deleted inputs are not modelled; the stub that simplifies quadratic constraints further erases nothing.
- Unused variants of the elimination, the debug comparisons, shifts, comparisons and Boolean operators.
- Parsing, type checking and the rest of the symbolic execution.
