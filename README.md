# solvomatic, modelled in Dafny

solvomatic solves puzzles stated as variables with finite domains and constraints over them.
This project models the core of that solver and proves properties of the model:

- **Verdicts and the constraint algebra.**
  - Every constraint kind summarises the values a group of positions may take.
  - Each kind provides `singleton`, `and` (two disjoint groups), `or` (the same group, either alternative) and `check`.
  - `check` answers `Yes`, `No` or `Maybe`.
- **The constraint kinds.**
  - `Permutation`, `Subset`, `Superset` and `SubsetAndSuperset`, over ranges of sorted multisets (module `Permutation`).
  - `Count`, over occurrence bounds (module `Count`).
  - `Pred`, over partial assignments (module `Pred`).
  - `Seq`, over a bitset of still-possible sequences (module `SeqConstraint`).
- **The per-variable table and the guess-and-simplify solver.**
  - The table is module `Domains` for the functions and class `Tables.Table` for the methods.
  - The solver is module `GuessingSolver`.
  - It splits a table on a variable and deletes values a constraint rules out, until a fixpoint.
  - It collects the solved tables.
- **The `Solvomatic` driver** (module `Solvomatic`):
  - a registry of constraints with a one-way `done` latch;
  - the loop that applies constraints until a pass leaves the size unchanged;
  - the reduction that picks among merge candidates.

  The partition table it drives is abstract: its operations are function parameters.
- **The text layer.**
  - Reading and printing entries, in modules `Board` and `Textual`. A letter is an entry encoded as a number.
  - Cutting a layout template at its `*`s, and the layout-driven parser (module `Layouts`).
  - Right-aligned board printing.
  - The side-by-side text box that prints sets of states (module `TextBoxes`).
  - The row and column walk over a grid text (module `Jigsaw`).
- **The draft rule language** (modules `Rules`, `BagRules` and `Prod`):
  - bag ranges and their decoding as verdicts;
  - the default parallel application of a bag function;
  - the comparison of bags holding one value;
  - the interval product.

Module `Text` holds the string functions the text layer shares: lines, decimal numerals, byte lengths and letters.
Module `Options` holds `Option` and `Result`, and module `Algebra` holds the constraint record.

Integers are unbounded. The source's fixed widths are noted under "Left out" where they matter.
The one exception is the `u32` to `i32` cast when reading a board entry, which is modelled explicitly (`Board.AsI32`).

`src/rules/prod.rs` calls `as_range` as returning a pair. That is the signature in `src/rules/bag.rs`, not the `Option` of `src/rules/mod.rs`. `Prod` is therefore written over the `Bag` of module `BagRules`.

## Model

| member | source | states |
|---|---|---|
| Logic.And | src/rules/mod.rs:15-23 | `Yes` exactly when both are `Yes`; `No` exactly when either is `No`; `Maybe` otherwise |
| Logic.AndCommutative | src/rules/mod.rs:15-23 | the conjunction of verdicts does not depend on operand order |
| Logic.AndAssociative | src/rules/mod.rs:15-23 | the conjunction of verdicts may be regrouped |
| Logic.AndIdentityAbsorb | src/rules/mod.rs:15-23 | `Yes` is the identity of the conjunction and `No` absorbs it |
| Logic.FromBool | src/rules/bag.rs:122 | a boolean becomes a definite verdict, `Yes` exactly for true |
| Permutation.New | src/constraints/permutation.rs:253-257 | `Bag::new` keeps exactly the multiset of its input (its result is sorted, by construction) |
| Permutation.Singleton | src/constraints/permutation.rs:249-251 | `Bag::singleton` holds exactly the one element |
| Permutation.Insert | src/constraints/permutation.rs:253-257 | inserting into a sorted bag adds exactly that element |
| Permutation.Sum | src/constraints/permutation.rs:259-272 | the merge loop computes the merge, and each element occurs as often as in both inputs together |
| Permutation.MergeLoop | src/constraints/permutation.rs:259-272 | the two loops emit, before each element of the first bag, the elements of the second not above it, then the rest of the second |
| Permutation.MergeAccIsMerge | src/constraints/permutation.rs:259-272 | from any point of the loops, the output so far followed by the merge of what is left is what the loops produce |
| Permutation.MergeAccMerges | src/constraints/permutation.rs:259-272 | run from the start, the loops produce the merge of the two bags |
| Permutation.MergeFromIsMerge | src/constraints/permutation.rs:259-272 | the merge from positions `i` and `j` is the merge of what is left of each bag |
| Permutation.MergeCount | src/constraints/permutation.rs:259-272 | the merge is a permutation of the two inputs together |
| Permutation.MergeSorted | src/constraints/permutation.rs:259-272 | merging sorted bags gives a sorted bag |
| Permutation.BagUnion | src/constraints/permutation.rs:274-307 | the union loop computes the union walk, and each element occurs as often as in the input where it occurs most |
| Permutation.UnionSorted | src/constraints/permutation.rs:274-307 | the union of sorted bags is sorted |
| Permutation.UnionCount | src/constraints/permutation.rs:274-307 | on sorted inputs each element occurs as often as its larger count |
| Permutation.UnionCounts | src/constraints/permutation.rs:274-307 | the union of sorted bags is sorted, and each count is the larger of the two |
| Permutation.BagIntersection | src/constraints/permutation.rs:309-324 | the intersection loop computes the intersection walk, and each element occurs as often as in the input where it occurs least |
| Permutation.IntersectionSorted | src/constraints/permutation.rs:309-324 | the intersection of sorted bags is sorted |
| Permutation.IntersectionCount | src/constraints/permutation.rs:309-324 | on sorted inputs each element occurs as often as its smaller count |
| Permutation.IntersectionCounts | src/constraints/permutation.rs:309-324 | the intersection of sorted bags is sorted, and each count is the smaller of the two |
| Permutation.BagIsSubset | src/constraints/permutation.rs:326-342 | the peeking loop answers exactly whether the first bag's multiset is contained in the second's |
| Permutation.IsSubCount | src/constraints/permutation.rs:326-342 | on sorted bags the subset walk holds exactly when every count of the first is at most that of the second |
| Permutation.SumExample | src/constraints/permutation.rs:355 | "aabeeg" plus "abbcf" is "aaabbbceefg", with letters as numbers |
| Permutation.UnionExample | src/constraints/permutation.rs:356 | the union of "aabeeg" and "abbcf" is "aabbceefg" |
| Permutation.IntersectionExample | src/constraints/permutation.rs:357 | the intersection of "abbcdff" and "bceeffg" is "bcff" |
| Permutation.IsSubsetExamples | src/constraints/permutation.rs:358-361 | the four subset test cases, three true and one false |
| Permutation.RangeSingleton | src/constraints/permutation.rs:181-186 | the singleton range is consistent and contains exactly the one-element multiset |
| Permutation.RangeAnd | src/constraints/permutation.rs:188-193 | `and` adds the guaranteed members and adds the possible members |
| Permutation.RangeOr | src/constraints/permutation.rs:195-200 | `or` keeps the smaller count of guaranteed members and the larger count of possible ones |
| Permutation.AndSound | src/constraints/permutation.rs:188-193 | `and` keeps ranges consistent, and any choice from each side lies in the result |
| Permutation.OrSound | src/constraints/permutation.rs:195-200 | `or` keeps ranges consistent, and whatever either side allows is allowed |
| Permutation.IsEqual | src/constraints/permutation.rs:202-214 | `No` exactly when the bag is not between min and max; `Yes` exactly when it is and max is within min |
| Permutation.IsSubset | src/constraints/permutation.rs:216-226 | `Yes` exactly when max is within the bag; on consistent ranges, `No` exactly when min is not |
| Permutation.IsSuperset | src/constraints/permutation.rs:228-238 | `Yes` exactly when the bag is within min; on consistent ranges, `No` exactly when it is not within max |
| Permutation.NewSubset | src/constraints/permutation.rs:13-17 | the `Subset` constraint holds its elements sorted |
| Permutation.NewSuperset | src/constraints/permutation.rs:51-55 | the `Superset` constraint holds its elements sorted |
| Permutation.NewSubsetAndSuperset | src/constraints/permutation.rs:92-102 | the `SubsetAndSuperset` constraint holds both bounds sorted |
| Permutation.NewPermutation | src/constraints/permutation.rs:138-144 | the `Permutation` constraint holds its expected elements sorted |
| Permutation.CheckSound | src/constraints/permutation.rs:38-167 | each kind's `check` is sound: `Yes` means every multiset in the range satisfies the kind, and `No` that none does |
| Permutation.CheckExact | src/constraints/permutation.rs:38-167 | on a range pinned to one multiset, `check` is definite and says `Yes` exactly when that multiset satisfies the kind |
| Count.New | src/constraints/count.rs:11-17 | the insertion loop builds the map of the triples, a later triple for a value replacing an earlier one |
| Count.FromTriplesLastWins | src/constraints/count.rs:11-17 | each listed value maps to the bounds of the last triple that names it |
| Count.FromTriplesKeys | src/constraints/count.rs:11-17 | the keys are exactly the listed values |
| Count.Combine | src/constraints/count.rs:61-84 | the combined map ranges over the union of the keys, a missing key counting as (0, 0) |
| Count.Singleton | src/constraints/count.rs:25-27 | the one-entry map from the value to (1, 1), whatever the index |
| Count.And | src/constraints/count.rs:29-33 | over the union of keys, the bounds of the two sides added |
| Count.Or | src/constraints/count.rs:35-39 | over the union of keys, the lower minimum and the higher maximum |
| Count.AndCommutative | src/constraints/count.rs:29-33 | `and` does not depend on operand order |
| Count.OrCommutative | src/constraints/count.rs:35-39 | `or` does not depend on operand order |
| Count.SingletonSound | src/constraints/count.rs:25-27 | the singleton admits the one-value multiset |
| Count.AndSound | src/constraints/count.rs:29-33 | `and` of disjoint groups admits the sum of what the parts admit |
| Count.OrSound | src/constraints/count.rs:35-39 | `or` admits whatever either alternative admits |
| Count.KeyVerdictSound | src/constraints/count.rs:48-54 | a per-value `Yes` means every count the actual bounds allow is within the limits, and `No` that none is |
| Count.KeyVerdictComplete | src/constraints/count.rs:48-54 | a per-value verdict other than `No` leaves a count that both bounds allow |
| Count.Check | src/constraints/count.rs:41-58 | the accumulator loop over the union of keys gives `No` if some value is `No`, `Yes` if all are `Yes`, and `Maybe` otherwise |
| Count.CheckSound | src/constraints/count.rs:41-58 | `Yes` means every multiset the summary admits meets the limits, and `No` that none does |
| Count.UnlistedValueIsNo | src/constraints/count.rs:41-58 | a value without limits that certainly occurs makes the check `No` |
| Pred.New | src/constraints/pred.rs:13-28 | `new::<N>` fixes the number of parameters to N and the arity of the calls |
| Pred.NewWithLen | src/constraints/pred.rs:32-38 | `new_with_len` fixes only the number of parameters |
| Pred.Singleton | src/constraints/pred.rs:46-50 | the summary has one slot per parameter, the value at the index and nothing elsewhere |
| Pred.And | src/constraints/pred.rs:52-60 | the loop gives each slot `b`'s value where `b` knows it and `a`'s otherwise |
| Pred.Or | src/constraints/pred.rs:62-70 | the loop keeps a slot only where both sides agree |
| Pred.Values | src/constraints/pred.rs:72-86 | a fully known summary yields its values in slot order |
| Pred.Check | src/constraints/pred.rs:72-86 | `Maybe` exactly when some slot is unknown; otherwise `Yes` exactly when the predicate holds on the values |
| Pred.OrIdempotent | src/constraints/pred.rs:62-70 | `or` of a summary with itself changes nothing |
| Pred.OrOnlyForgets | src/constraints/pred.rs:62-70 | `or` never makes an unknown slot known, and a known result slot is the same on both sides |
| Pred.OrSound | src/constraints/pred.rs:62-70 | `or` admits whatever either alternative admits |
| Pred.AndSound | src/constraints/pred.rs:52-60 | `and` admits any assignment both sides admit |
| Pred.AndOnlyLearns | src/constraints/pred.rs:52-60 | a slot known on either side stays known after `and` |
| Pred.DisagreeingSingletons | src/constraints/pred.rs:62-70 | singletons at the same index with different values combine under `or` to nothing known |
| Pred.AndOfSingletons | src/constraints/pred.rs:52-60 | singletons at two indices combine under `and` to both values known |
| Pred.CheckSound | src/constraints/pred.rs:72-86 | a definite verdict on a summary describing an assignment is the predicate's verdict on that assignment |
| Pred.PredExample | src/constraints/pred.rs:88-107 | the test with `a < b` over two values |
| SeqConstraint.New | src/constraints/seq.rs:43-52 | the constraint is built only when every allowed sequence has the stated length |
| SeqConstraint.Singleton | src/constraints/seq.rs:71-79 | the loop sets bit `i` exactly when allowed sequence `i` has the element at the index, with count 1 |
| SeqConstraint.And | src/constraints/seq.rs:81-86 | `and` keeps the bitset length; bit `i` is set exactly when it is set in both, and the counts multiply |
| SeqConstraint.Or | src/constraints/seq.rs:88-93 | `or` keeps the bitset length; bit `i` is set exactly when it is set in either, and the counts add |
| SeqConstraint.Popcount | src/constraints/seq.rs:95-106 | the count of set bits is zero exactly when no bit is set |
| SeqConstraint.PopcountSplit | src/constraints/seq.rs:95-106 | the count of set bits adds up over a split of the bitset |
| SeqConstraint.Check | src/constraints/seq.rs:95-106 | `No` exactly when no bit is set; `Yes` exactly when some is and the set bits number the count |
| SeqConstraint.AndCommutative | src/constraints/seq.rs:81-86 | `and` does not depend on operand order |
| SeqConstraint.OrCommutative | src/constraints/seq.rs:88-93 | `or` does not depend on operand order |
| SeqConstraint.AndAssociative | src/constraints/seq.rs:81-86 | `and` may be regrouped |
| SeqConstraint.OrAssociative | src/constraints/seq.rs:88-93 | `or` may be regrouped |
| SeqConstraint.AndOfSingletons | src/constraints/seq.rs:71-86 | `and` of singletons at two positions keeps exactly the sequences matching at both |
| SeqConstraint.SeqExamplePattern | src/constraints/seq.rs:108-121 | exactly four of the test words have the form s?x |
| SeqConstraint.SeqExamplePinned | src/constraints/seq.rs:108-121 | pinning every letter of "too" leaves one word and a definite `Yes` |
| Domains.SizeConcat | src/table.rs:42-48 | `size` adds up over concatenated tables |
| Domains.PossibilitiesConcat | src/table.rs:50-56 | `possibilities` multiplies over concatenated tables |
| Domains.AppendDomain | src/table.rs:33-40 | adding a column adds its length to `size` and multiplies `possibilities` by it |
| Domains.SplitAt | src/table.rs:42-56 | `size` and `possibilities` split around one domain |
| Domains.ReplaceDomain | src/table.rs:65-67 | replacing a domain changes `size` by the difference of lengths and scales `possibilities` |
| Domains.ShrinkDomain | src/table.rs:65-67 | shrinking a domain never adds possibilities |
| Domains.PossibilitiesPositive | src/table.rs:50-56 | with no empty domain there is at least one assignment |
| Domains.SolvedIffOnePossibility | src/table.rs:173-180 | with no empty domain, a table is solved exactly when it stands for one assignment |
| Domains.GuessVarUpTo | src/table.rs:58-74 | the guessed variable has the greatest score, and it is the last such variable |
| Domains.SplitOnChildren | src/table.rs:65-81 | each child of a split fixes a different value of the variable and leaves every other domain alone |
| Domains.SplitOnShrinks | src/table.rs:65-81 | a child of a split on a domain of n values has n - 1 fewer values in all |
| Domains.SumOfEqual | src/table.rs:69-81 | tables with equal possibilities total their number times that |
| Domains.SplitOnPartitions | src/table.rs:69-81 | the children of a split together stand for exactly the parent's possibilities |
| Domains.ChildrenPossibilities | src/table.rs:69-81 | every child of a split has the possibilities of the other domains |
| Domains.GuessPicksSingletonPastAMillion | src/table.rs:58-63 | with a domain over a million values, the score picks a singleton domain and the split gives back the table itself |
| Domains.BestGuessUpTo | src/table.rs:58-74 | the corrected choice is at least as good as every other domain |
| Domains.BestGuess | src/table.rs:58-74 | the corrected choice is the smallest domain with two or more values |
| Domains.ScoreMatchesPreference | src/table.rs:58-63 | below a million values the score orders domains the intended way |
| Domains.GuessVarUpToAgrees | src/table.rs:58-74 | while every domain has fewer than a million values, `guess` picks the intended variable |
| Domains.GuessesCorrected | src/table.rs:69-81 | the corrected split has at least two children, each strictly smaller, which together keep every possibility |
| Domains.IndexOf | src/table.rs:83-104 | the position of a variable is the first index holding it |
| Domains.FixingIsGuessForParam | src/table.rs:83-104 | the summary of one parameter with a value fixed equals its summary in the table where that guess was made |
| Domains.FixingIsGuessUpTo | src/table.rs:144-171 | the `and` of the first n summaries with a value fixed equals the same fold in the guessed table |
| Domains.FixingIsGuess | src/table.rs:144-171 | evaluating with a value fixed equals evaluating the table in which that guess was made |
| Tables.Table.constructor | src/table.rs:26-31 | a new table has no variables |
| Tables.Table.Clone | src/table.rs:16-23 | a clone has the same variables and domains |
| Tables.Table.AddColumn | src/table.rs:33-40 | appends the variable and its domain, keeps the table valid, adds the domain length to `size` and multiplies `possibilities` by it |
| Tables.Table.Size | src/table.rs:42-48 | the accumulator loop returns the sum of the domain lengths |
| Tables.Table.Possibilities | src/table.rs:50-56 | the loop returns the product of the domain lengths; on a valid table it is at least 1, and 1 exactly when the table is solved |
| Tables.Table.MakeGuess | src/table.rs:65-67 | the domain keeps only the guessed value and nothing else changes |
| Tables.Table.Guess | src/table.rs:69-81 | one fresh table per value of the chosen variable, each with that value fixed |
| Tables.Table.EvalConstraintForParam | src/table.rs:83-104 | the singleton of the fixed value for the fixed variable, else the `or` fold over the domain's singletons |
| Tables.Table.EvalOthers | src/table.rs:106-142 | the `and` of the summaries of every parameter other than the one being fixed |
| Tables.Table.EvalConstraintForAll | src/table.rs:106-142 | one verdict per value of the chosen parameter, in domain order |
| Tables.Table.EvalConstraint | src/table.rs:144-171 | `Yes` without evaluating when the fixed variable is not a parameter; otherwise the check of the `and` of all parameter summaries |
| Tables.Table.IsSolved | src/table.rs:173-180 | true exactly when no domain has two values or more |
| Tables.Table.IntoState | src/table.rs:182-190 | sets exactly the variables whose domain holds one value, to that value |
| Tables.SetCalls | src/table.rs:182-190 | at most one `set` call per variable |
| Tables.SetCallsMembers | src/table.rs:182-190 | every single-valued variable is set to its value, and nothing else is |
| Tables.OthersUpTo | src/table.rs:106-142 | the fold of the other parameters is defined exactly when some other parameter was folded |
| Tables.ForAllIsFixedEval | src/table.rs:106-142 | verdict k of `eval_constraint_for_all` equals `eval_constraint` with value k fixed, when `and` may be regrouped |
| Tables.FixedFoldRegroups | src/table.rs:106-142 | the fold with the fixed parameter's singleton moved last equals the fold in parameter order |
| Tables.UnfixedPrefix | src/table.rs:106-142 | before the fixed parameter, the fold with the value fixed equals the others' summary |
| Tables.FixingElsewhereIsIgnored | src/table.rs:144-171 | a constraint whose parameters do not include the fixed variable does not see the fixing |
| Tables.FixingElsewhereUpTo | src/table.rs:144-171 | the same, for every prefix of the `and` fold |
| GuessingSolver.AddColumn | src/guessing_solver.rs:49-56 | appends the variable and its domain, keeps the table well formed, and adds the domain length to the size |
| GuessingSolver.IntoSolution | src/guessing_solver.rs:139-148 | a solved table gives up each domain's single value |
| GuessingSolver.IntoSolutionRoundTrip | src/guessing_solver.rs:139-148 | the table of the solution is the solved table again |
| GuessingSolver.NewDynConstraint | src/guessing_solver.rs:178-197 | the record keeps the constraint's name and the parameters in order |
| GuessingSolver.DynEvalIsGuess | src/guessing_solver.rs:178-197 | the erased evaluation with a value fixed equals evaluating the table in which that guess was made |
| GuessingSolver.FlagsOf | src/guessing_solver.rs:249-262 | the flagged entries of one variable are exactly those some constraint rules out, ascending |
| GuessingSolver.FlagsUpTo | src/guessing_solver.rs:249-262 | the flagged pairs are exactly those some constraint rules out, in ascending (variable, entry) order |
| GuessingSolver.AscendingConcat | src/guessing_solver.rs:249-262 | ascending runs of consecutive variables join into one ascending run |
| GuessingSolver.KeepUnflagged | src/guessing_solver.rs:266-271 | with nothing flagged, the domain is kept as it is |
| GuessingSolver.KeepSubset | src/guessing_solver.rs:266-271 | what is kept of a domain is within the domain |
| GuessingSolver.KeepOtherVar | src/guessing_solver.rs:266-271 | flagging another variable's entry keeps the same values |
| GuessingSolver.KeepRemoveBelow | src/guessing_solver.rs:266-271 | removing an entry below every flagged one removes exactly that position |
| GuessingSolver.RemoveStep | src/guessing_solver.rs:266-271 | one step of the reverse removal deletes exactly the next flagged entry and one value |
| GuessingSolver.KeptShrinks | src/guessing_solver.rs:266-271 | the removal only takes values away |
| GuessingSolver.RemoveFlagged | src/guessing_solver.rs:266-271 | the reverse loop computes `RemoveRun` of the flagged list: it deletes exactly the flagged entries, and reports `true` exactly when a domain became empty |
| GuessingSolver.RemoveRunFacts | src/guessing_solver.rs:266-271 | the reverse removal only takes values away; it stops exactly when a domain empties, and otherwise deletes every flagged entry, one value each |
| GuessingSolver.FlaggedInRange | src/guessing_solver.rs:249-262 | the flagged pairs are ascending and name existing entries |
| GuessingSolver.SimplifiedFacts | src/guessing_solver.rs:245-274 | simplifying keeps the variables and only removes values; it reports `true` exactly when a domain is left empty, and otherwise ends with a well-formed table in which no constraint rejects any value |
| GuessingSolver.SimplifyEach | src/guessing_solver.rs:298-302 | the tables the first loop of `simplify` keeps are well formed |
| GuessingSolver.SimplifyEachFacts | src/guessing_solver.rs:298-302 | the tables the first loop keeps are stable and weigh no more than the tables it was given |
| GuessingSolver.UnsolvedFacts | src/guessing_solver.rs:303-307 | the tables the second loop leaves are well formed, unsolved, stable if they were, and no heavier |
| GuessingSolver.SolvedRevAccepted | src/guessing_solver.rs:303-307 | every solution the second loop adds from stable tables is accepted by every constraint |
| GuessingSolver.SearchAccepted | src/guessing_solver.rs:310-317 | every solution the split-and-simplify search finds is accepted by every constraint |
| GuessingSolver.SolutionsAccepted | src/guessing_solver.rs:288-317 | every solution `solve` returns is accepted by every constraint |
| GuessingSolver.MeasureConcat | src/guessing_solver.rs:310-317 | the termination measure adds up over concatenated table lists |
| GuessingSolver.PossibilitiesMonotone | src/guessing_solver.rs:266-271 | smaller domains never mean more possibilities |
| GuessingSolver.MeasureOfChildren | src/guessing_solver.rs:310-317 | the children of a split weigh twice their possibilities less their number |
| GuessingSolver.SplitLowersMeasure | src/guessing_solver.rs:310-317 | a split on the smallest open domain lowers the measure, and its children are well formed |
| GuessingSolver.GuessingSolver.constructor | src/guessing_solver.rs:210-218 | one table without variables, no solutions and no constraints |
| GuessingSolver.GuessingSolver.Var | src/guessing_solver.rs:225-229 | only while there is exactly one table, adds the column to it and changes nothing else |
| GuessingSolver.GuessingSolver.Constraint | src/guessing_solver.rs:231-238 | appends exactly one constraint record and changes nothing else |
| GuessingSolver.GuessingSolver.Rejects | src/guessing_solver.rs:252-259 | true exactly when some constraint says `No` with the entry fixed |
| GuessingSolver.GuessingSolver.FlagPass | src/guessing_solver.rs:249-262 | one pass flags exactly what the flagged-pairs function lists, against the table as it stood at the start |
| GuessingSolver.GuessingSolver.SimplifyPasses | src/guessing_solver.rs:248-274 | the outcome and table are `Simplified` of the table: flag, delete last first, repeat until a pass flags nothing or a domain empties; values only go away, `true` exactly when a domain became empty, and otherwise no constraint rejects a value left |
| GuessingSolver.GuessingSolver.SimplifyTable | src/guessing_solver.rs:245-274 | the table at the index becomes `Simplified` of itself, with the same outcome, and nothing else changes |
| GuessingSolver.GuessingSolver.Possibilities | src/guessing_solver.rs:276-286 | the total of the tables' possibilities |
| GuessingSolver.GuessingSolver.Simplify | src/guessing_solver.rs:288-308 | the tables become the unsolved ones among the simplified tables, in order, and the solutions gain one solution per solved simplified table, the last first; no table left is solved or rejectable, every new solution is accepted, and the measure does not grow |
| GuessingSolver.GuessingSolver.SimplifyAll | src/guessing_solver.rs:298-302 | the tables become `SimplifyEach` of the old ones: each simplified, in order, those that emptied a domain dropped; all stable, and the measure does not grow |
| GuessingSolver.GuessingSolver.MoveSolved | src/guessing_solver.rs:303-307 | the tables become the unsolved ones, in order, and the solutions gain `IntoSolution` of each solved table, the last first, each accepted by every constraint |
| GuessingSolver.GuessingSolver.Solve | src/guessing_solver.rs:310-317 | returns the earlier solutions followed by `Solutions` of the tables (`simplify`, then split the last table and simplify again until none is left), every one accepted; ends with no tables and no kept solutions |
| GuessingSolver.SolutionAccepted | src/guessing_solver.rs:303-307 | a solved table no constraint rejects gives an accepted solution |
| Solvomatic.PassSplit | src/lib.rs:511-533 | a pass over the constraints is a pass over a prefix followed by a pass over the rest |
| Solvomatic.FirstFailure | src/lib.rs:519-528 | the first active constraint that fails ends the pass with its name and parameters |
| Solvomatic.PassFailureNamed | src/lib.rs:519-528 | a failed pass names an active constraint |
| Solvomatic.Active | src/lib.rs:516-518 | the active constraints are those not retired |
| Solvomatic.PassSkipsDone | src/lib.rs:516-518 | retired constraints play no part in a pass |
| Solvomatic.AllDoneChangesNothing | src/lib.rs:511-533 | with every constraint retired, the table comes back unchanged |
| Solvomatic.FixpointStable | src/lib.rs:511-533 | the loop stops only after a pass that leaves the size where it was |
| Solvomatic.FixpointFailureNamed | src/lib.rs:519-528 | a failure of `apply_constraints` names an active constraint |
| Solvomatic.PassKeepsPartitions | src/lib.rs:511-533 | a pass does not add partitions when no constraint does |
| Solvomatic.FixpointKeepsPartitions | src/lib.rs:511-533 | the fixpoint does not add partitions when no constraint does |
| Solvomatic.Completed | src/lib.rs:536-551 | constraints are only retired, and exactly those reporting `Ok(true)` on the table |
| Solvomatic.LatchedTransitive | src/lib.rs:536-551 | the one-way latch composes |
| Solvomatic.CompletedIdempotent | src/lib.rs:536-551 | marking twice against the same table retires nothing more |
| Solvomatic.CombineAssociative | src/lib.rs:487-496 | the reduction may be regrouped, so a parallel reduction agrees with the sequential one |
| Solvomatic.Reduce | src/lib.rs:487-498 | the reduction has a result exactly when there are candidates |
| Solvomatic.ReduceFirstError | src/lib.rs:487-496 | with some candidate failing, the result is the first failure |
| Solvomatic.ReduceAllOk | src/lib.rs:487-496 | with every candidate a table, the result is the first of the cheapest |
| Solvomatic.ReduceOkMeansAllOk | src/lib.rs:487-496 | a reduction that yields a table saw no failure |
| Solvomatic.RowMembers | src/lib.rs:458-468 | a row of merge options holds exactly the pairs starting at its index |
| Solvomatic.RowsMembers | src/lib.rs:458-468 | the rows hold exactly the ordered pairs of their first indices |
| Solvomatic.PairsMembers | src/lib.rs:458-468 | the merge options are exactly the pairs i < j < n |
| Solvomatic.Candidates | src/lib.rs:480-486 | one candidate per merge option |
| Solvomatic.StepShrinks | src/lib.rs:449-509 | under the partition laws, a successful step with several partitions leaves fewer of them |
| Solvomatic.ReduceErrFrom | src/lib.rs:487-498 | an error that comes out of the reduction is one of the candidates |
| Solvomatic.StepFailureNamed | src/lib.rs:449-509 | a failed step names a constraint that was active during it |
| Solvomatic.CompletedKeepsPartitions | src/lib.rs:536-548 | retiring constraints changes none of their applications, so none starts adding partitions |
| Solvomatic.StepProgress | src/lib.rs:435-437 | a successful step from a table with several partitions leaves fewer partitions |
| Solvomatic.SolveStepsFailureNamed | src/lib.rs:435-437 | a failure of the stepping loop names a constraint still active when it ends |
| Solvomatic.SolveFailureNamed | src/lib.rs:431-447 | a failure of `solve` names a constraint still active when it ends |
| Solvomatic.SolveStepsLatched | src/lib.rs:435-438 | the stepping loop only retires constraints, and on success ends with the constants merged in a table of one partition or one possibility |
| Solvomatic.StepKeepsCheapest | src/lib.rs:480-498 | the table a successful step keeps is a tried merge no dearer than any other |
| Solvomatic.Solvomatic.constructor | src/lib.rs:375-382 | an empty table and no constraints |
| Solvomatic.Solvomatic.AddVar | src/lib.rs:389-391 | adds the column to the table and changes no constraint |
| Solvomatic.Solvomatic.MappedConstraint | src/lib.rs:404-427 | appends exactly one active record with the kind's name and the parameters in order |
| Solvomatic.Solvomatic.Constraint | src/lib.rs:394-402 | the same as `mapped_constraint` with the identity map |
| Solvomatic.Solvomatic.ApplyConstraints | src/lib.rs:511-533 | the loop computes the fixpoint of passes: at least one pass, until the size stops falling |
| Solvomatic.Solvomatic.MarkCompletedConstraints | src/lib.rs:536-551 | the registry becomes its completed form and the table does not change |
| Solvomatic.Solvomatic.MergeOptions | src/lib.rs:458-468 | the nested loops list every pair i < j of partitions, in order |
| Solvomatic.Solvomatic.Step | src/lib.rs:449-509 | retires completed constraints, merges the constant partitions, then keeps the outcome of the reduction over every merge of two partitions |
| Solvomatic.Solvomatic.Solve | src/lib.rs:431-447 | the outcome, final table and registry are `SolveOutcome` of the starting ones: `apply_constraints`, then steps while there are several partitions and more than one possibility, then merged constants; constraints are only retired, success ends with constants merged in a table of one partition or one possibility, and a failure names a constraint still active |
| TextBoxes.PadTo | src/state.rs:63-68 | the row padded with spaces on the right to the column, unchanged if it is already that long |
| TextBoxes.Printed | src/state.rs:58-70 | after `print_line`, the rows reach the row printed on, that row is padded and followed by the line, and the others are unchanged |
| TextBoxes.Longest | src/state.rs:73-77 | no line is longer than the state's width |
| TextBoxes.LongestAttained | src/state.rs:73-77 | the longest line is one of the lines |
| TextBoxes.PlaceAllRows | src/state.rs:79-85 | each line of the state lands on its own row after that row's padding, and rows below are unchanged |
| TextBoxes.PlaceAllBeside | src/state.rs:79-85 | on rows shorter than the column, each line starts exactly at the column |
| TextBoxes.Indented | src/state.rs:86-98 | one indented line per line of the state |
| TextBoxes.AppendSideBySide | src/state.rs:79-85 | when the state fits, line k goes on row k at column `cur_width + 4`, and the width grows by the state's width |
| TextBoxes.AppendWraps | src/state.rs:86-98 | otherwise the current lines and one empty line are finished, and the indented state starts a new block |
| TextBoxes.AppendBounded | src/state.rs:72-98 | no current line grows past the current width |
| TextBoxes.Boxed | src/state.rs:6-27 | the box `StateSet` fills is 90 wide |
| TextBoxes.BoxedBounded | src/state.rs:25-39 | no current line is longer than the current width after any number of states |
| TextBoxes.CompletedOnlyGrows | src/state.rs:86-98 | finished lines are never taken back |
| TextBoxes.RenderedSingle | src/state.rs:25-39 | a single state prints alone, every line indented |
| TextBoxes.TextBox.constructor | src/state.rs:49-56 | an empty box of the given width |
| TextBoxes.TextBox.PrintLine | src/state.rs:58-70 | the loop grows the rows, then the row is padded and the line appended; nothing else changes |
| TextBoxes.TextBox.PrintBeside | src/state.rs:79-85 | the loop prints each line of the state at the column |
| TextBoxes.TextBox.StartBlock | src/state.rs:86-98 | the current lines and an empty line are finished, and the state's indented lines become the current ones |
| TextBoxes.TextBox.Append | src/state.rs:72-98 | the box becomes the appended box |
| TextBoxes.Render | src/state.rs:25-39 | the printed text is the finished lines, then the current lines, each followed by a line break |
| Text.Spaces | src/main.rs:229-235 | the padding of n characters, all spaces |
| Text.ByteLen | src/main.rs:225-235 | the UTF-8 length is between the number of characters and four times it |
| Text.ByteLenConcat | src/main.rs:225-235 | byte lengths add up over concatenation |
| Text.ByteLenAscii | src/main.rs:225-235 | ASCII text has one byte per character |
| Text.AlphabetIndex | src/main.rs:31-46 | a letter's place in the alphabet is between 1 and 26 |
| Text.Upper | src/main.rs:67-75 | the upper-case letter at the same place in the alphabet |
| Text.FindFrom | src/main.rs:163-175 | the first occurrence of the pattern at or after the start, or none |
| Text.Find | src/main.rs:163-175 | the first occurrence of the pattern, or none |
| Text.IndexOf | src/main.rs:90-106 | the first position of the character, or none when it does not occur |
| Text.IndexOfAt | src/main.rs:90-106 | the position with no earlier occurrence is the one found |
| Text.Lines | src/main.rs:132-175 | no line holds a line break, and there are lines exactly when the text is not empty |
| Text.UnlinesConcat | src/state.rs:31-36 | printing lines adds up over concatenation |
| Text.LinesOfUnlines | src/state.rs:25-39 | splitting printed lines gives them back, when none holds a line break or ends in a carriage return |
| Text.Decimal | src/main.rs:67-75 | the decimal numeral has no leading zero and has the number's value |
| Text.SignedDecimal | examples/textual.rs:64-74 | the signed decimal numeral is not empty |
| Text.DecimalUnique | src/main.rs:51-64 | a numeral without leading zeros is the one printed for its value |
| Text.DigitsNotZero | src/main.rs:51-64 | a numeral not starting with 0 has a non-zero value |
| Text.ParseUnsigned | src/main.rs:51-64 | a parsed `u32` is within range |
| Text.ParseSigned | examples/textual.rs:45-62 | a parsed `i32` is within range |
| Text.ParseUnsignedDecimal | src/main.rs:51-64 | printing a number in range and parsing it back gives the number |
| Text.ParseSignedDecimal | examples/textual.rs:45-62 | printing a signed number in range and parsing it back gives the number |
| Layouts.SplitStars | src/main.rs:90-106 | the pieces contain no `*`, and joining them with `*` gives back the template |
| Layouts.StarCount | src/main.rs:90-106 | there is one more piece than there are `*`s in the template |
| Layouts.SplitUnique | src/main.rs:90-106 | the pieces are the only star-free cut of the template |
| Layouts.FirstStar | src/main.rs:90-106 | the first `*` ends the first piece |
| Layouts.JoinStarFront | src/main.rs:90-106 | the join starts with the first piece, then a `*` and the join of the rest |
| Layouts.AdvanceOutcome | src/main.rs:130-180 | the entries end only when pieces and input are both exhausted, and an entry is read only past a matching leading piece |
| Layouts.TakeWordConsumes | src/main.rs:158-175 | an empty separator makes the word one character; otherwise the word runs to the separator, and both are consumed |
| Layouts.AdvanceAtEnd | src/main.rs:131-141 | past the last piece, the end if no input is left and "too much input" otherwise |
| Layouts.AdvanceWithoutStarPanics | src/main.rs:143-160 | a template without `*` panics once its piece matches |
| Layouts.AdvanceMismatch | src/main.rs:143-153 | the first call fails, naming the expected piece, when the input does not start with it |
| Layouts.Inner | src/main.rs:143-156 | consuming the leading piece leaves the input after it and the remaining pieces |
| Layouts.LayoutParser.constructor | src/main.rs:108-117 | a parser at the start of the pieces and the input |
| Layouts.LayoutParser.Next | src/main.rs:130-180 | `next` yields what one step yields and leaves the fields the step leaves |
| Layouts.InterleavePrefix | src/main.rs:218-240 | one more piece and word extend the text by them |
| Layouts.ProgressStep | src/main.rs:108-180 | each entry read extends the consumed input by its word and separator |
| Layouts.ParseAll | src/main.rs:108-119 | the entries come back only if the input is the pieces with one word read as each entry between them |
| Board.ReadLetter | src/main.rs:31-46 | a one-byte letter reads as minus its place in the alphabet; nothing else is a letter |
| Board.AsI32 | src/main.rs:59-60 | the cast stays in the `i32` range and wraps around from 2^31 |
| Board.FromStr | src/main.rs:51-64 | `.` is the only unknown, a rejected word is reported as `BadEntry` of itself, and every value fits an `i32` |
| Board.ReadWordIsFromStr | src/main.rs:177-178 | the parser yields exactly what `from_str` returns |
| Board.Show | src/main.rs:67-75 | every entry prints as some text |
| Board.LetterShowsUpper | src/main.rs:67-75 | a letter read from the input prints back in upper case |
| Board.ShowRoundTrip | src/main.rs:51-75 | printing an unknown, a letter or a number below 2^31 and reading it back gives the entry |
| Board.LargeNumeralWraps | src/main.rs:59-60 | a numeral from 2^31 on reads back as a negative entry |
| Board.StarShowsBracket | src/main.rs:55-75 | the `*` placeholder reads as -27 and prints as `[` |
| Board.MaxLen | src/main.rs:225 | no printed entry is longer than the width |
| Board.MaxLenAttained | src/main.rs:225 | some printed entry is as long as the width |
| Board.Fields | src/main.rs:220-236 | one field per entry |
| Board.FieldsAligned | src/main.rs:226-236 | every field is its entry's text right-aligned to the common width |
| Board.FieldAligned | src/main.rs:226-236 | field i is entry i's text right-aligned to the common width |
| Board.WidthTight | src/main.rs:225-236 | the width is no wider than needed: some field has no padding |
| Board.Data.constructor | src/main.rs:201-206 | a blank board has one unknown entry between each two pieces |
| Board.Data.FromEntries | src/main.rs:210-215 | the board holds the entries read |
| Board.Data.Set | src/main.rs:197-199 | exactly one entry becomes known |
| Board.Data.Render | src/main.rs:218-240 | the first piece, then each right-aligned field followed by the next piece |
| Board.NewData | src/main.rs:210-215 | a board comes back only if the input is the pieces with one word read as each entry between them |
| Textual.ReadLetter | examples/textual.rs:28-41 | a one-byte letter reads as its place in the alphabet; nothing else is a letter |
| Textual.Read | examples/textual.rs:45-62 | `.` is the only unknown, and every value fits an `i32` |
| Textual.Write | examples/textual.rs:64-74 | every entry writes as some text |
| Textual.ReadCaseInsensitive | examples/textual.rs:28-41 | reading does not depend on the case of a letter |
| Textual.WriteReadRoundTrip | examples/textual.rs:45-74 | what is written, as a letter or a numeral, reads back as the entry |
| Textual.WriteReadNegative | examples/textual.rs:45-74 | with negative letters, a written letter reads back negated |
| Textual.StarReadsAsZero | examples/textual.rs:45-74 | `*` reads as 0, which writes as `0` |
| Textual.NewLayout | examples/textual.rs:93-112 | the pieces join back to the template, and no entry is a letter, one flag per entry |
| Textual.Written | examples/textual.rs:232-240 | one text per entry |
| Textual.WrittenReadBack | examples/textual.rs:45-74 | every written entry reads back as itself |
| Textual.Data.constructor | examples/textual.rs:213-218 | a blank board has one unknown entry per letter flag |
| Textual.Data.FromEntries | examples/textual.rs:222-230 | the board holds the entries read |
| Textual.Data.Set | examples/textual.rs:209-211 | exactly one entry becomes known |
| Textual.Data.Render | examples/textual.rs:232-240 | the first piece, then each written entry followed by the next piece |
| Textual.NewData | examples/textual.rs:222-230 | a board comes back only if the input is the pieces with one word read as each entry between them |
| Jigsaw.Col | examples/jigsaw_sudoku.rs:54-62 | the column never exceeds the text read |
| Jigsaw.CallbackByRowCol | examples/jigsaw_sudoku.rs:53-64 | the counter loop makes exactly the calls of the specification |
| Jigsaw.ColSinceNewline | examples/jigsaw_sudoku.rs:58-61 | the column counts the characters since the last line break |
| Jigsaw.CallsCount | examples/jigsaw_sudoku.rs:55-62 | no line break is passed on, and there is one call per other character |
| Jigsaw.CallsAt | examples/jigsaw_sudoku.rs:54-62 | each other character is passed in order, with the line breaks before it as the row and the column since the last one |
| Jigsaw.CallsPrefix | examples/jigsaw_sudoku.rs:55-62 | the calls come in string order |
| Rules.AsRange | src/rules/mod.rs:44-52 | `None` exactly for `Empty`; otherwise a range holding every possible value |
| Rules.AsRangeTight | src/rules/mod.rs:44-52 | both ends of the range are possible values |
| Rules.YesNo | src/rules/mod.rs:54-82 | `No`, `Yes` and `Maybe` exactly for the listed encodings of 0, 1 and both |
| Rules.YesNoMeaning | src/rules/mod.rs:54-82 | on a bag holding one value, a verdict exactly when all values are 0 or 1, and it stands for exactly those values |
| Rules.SetOfBits | src/rules/mod.rs:54-82 | a set of distinct values all 0 or 1 is one of the three encodings |
| Rules.Spread | src/rules/mod.rs:31-38 | distinct sorted values span at least one less than their number |
| Rules.Substituted | src/rules/mod.rs:110-121 | the arguments keep their number |
| Rules.SubstitutedIsUpdate | src/rules/mod.rs:110-121 | substituting updates only the parallel slot |
| Rules.Parallel | src/rules/mod.rs:102-124 | one output per option |
| Rules.ParallelApply | src/rules/mod.rs:102-124 | output k is `apply` of the arguments with option k in the parallel slot, in order |
| Rules.Vars | src/rules/mod.rs:138-143 | the one variable of a variable formula, the stored list of a function formula |
| BagRules.AsRange | src/rules/bag.rs:42-49 | the least and greatest possible values, both attained |
| BagRules.IsSubsetSorted | src/rules/bag.rs:249-265 | the peeking loop decides the subset walk, and on sorted inputs exactly the sub-multiset relation |
| BagRules.IsSubsetMeaning | src/rules/bag.rs:117-176 | `IsSubset` (`Bag::is_subset` on comparable bags) says `Yes` exactly when every pair of possible values is equal, `No` exactly when none is |
| BagRules.IsSubsetSymmetric | src/rules/bag.rs:117-176 | the comparison does not depend on operand order |
| BagRules.SingleSetMeaning | src/rules/bag.rs:123-131 | `SingleSet`, a value against a set: `Yes` exactly when the set is that value, `No` exactly when it lacks it |
| BagRules.SingleRangeMeaning | src/rules/bag.rs:141-149 | `SingleRange`, a value against a range: `Yes` exactly when the range is that value, `No` exactly when it lies outside |
| BagRules.SetRangeMeaning | src/rules/bag.rs:150-158 | `SetRange`, a set against a range: `Yes` exactly when both are one same value, `No` exactly when no value is shared |
| BagRules.SetOfOne | src/rules/bag.rs:123-131 | a set all of whose values are v is exactly [v] |
| Prod.Lows | src/rules/prod.rs:19-28 | one lower end per argument |
| Prod.Highs | src/rules/prod.rs:19-28 | one upper end per argument |
| Prod.Apply | src/rules/prod.rs:19-28 | the loop returns the range from the product of the lower ends to the product of the upper ends |
| Prod.ProductMonotone | src/rules/prod.rs:19-28 | products of values between non-negative bounds lie between the products of the bounds |
| Prod.ApplyCovers | src/rules/prod.rs:19-28 | for non-negative arguments, the range holds every product of possible values |
| Prod.ParallelApplyAsWritten | src/rules/prod.rs:31-54 | one output per option, as written |
| Prod.ParallelApplyCountsSlotTwice | src/rules/prod.rs:45-52 | for 2 and 3 with option 5 in the first slot, the code gives 30 where the product is 15 |
| Prod.Others | src/rules/prod.rs:45-52 | the arguments without the parallel slot |
| Prod.ParallelApply | src/rules/prod.rs:31-54 | one output per option, in order |
| Prod.ParallelApplyIsDefault | src/rules/prod.rs:31-54 | corrected output k equals `apply` with option k in the parallel slot, as the default `parallel_apply` defines it |
| Prod.SplitProduct | src/rules/prod.rs:6-12 | the products of the ends with one argument in the middle are its ends times the products without it |
| Prod.ProductConcat | src/rules/prod.rs:19-28 | the product of a concatenation is the product of the products |

## Left out

- The puzzle-file parser is not part of this model. It is built with an external parser-generator crate whose behaviour is not visible.
- `main`, command-line options, reading files, word-list loading, and the logging and timing output are left out. They are input and output.
- The wiring that turns a puzzle definition into a solver is left out. It only feeds the library, and its grouping depends on hash-map iteration order.
- The partition table the driver calls is abstract. Its merge, constant merging, partition count, cost and per-constraint application are defined in no file of the core, so they are function parameters of `Solvomatic`. The laws assumed of them (a merge of two of several partitions leaves fewer, and applying a constraint never adds partitions) are stated as `PartitionLaws` and `KeepsPartitions`.
- Solvomatic.Solvomatic.Step: the thread-pool reduction over merge candidates is modelled as a left-to-right fold. `CombineAssociative` shows that the grouping does not change the result, but the real order of a tie under the thread pool is not modelled.
- Solvomatic.Solvomatic.Solve: termination is proved only under `PartitionLaws`, which the abstract table does not itself guarantee.
- GuessingSolver.GuessingSolver.Solve: splits with the corrected guess (see "## Findings"). It agrees with `guess` while every domain has fewer than a million values (`Domains.GuessVarUpToAgrees`).
- SeqConstraint.New: the panic on an allowed sequence of another length is an excluded input (`requires`).
- SeqConstraint.Singleton: the panic on an index past the end of an allowed sequence is an excluded input (`requires`).
- Pred.Singleton: the panic on an index at or past the number of parameters is an excluded input (`requires`).
- Pred.And: the panic when `b` has a known slot past the end of `a` is an excluded input (`requires`).
- Pred.Or: the panic when `b` is longer than `a` is an excluded input (`requires`).
- Pred.Check: a predicate called on values it is not defined for is an excluded input (`requires`).
- Rules.AsRange: the panic on an empty set, or a multiset with an empty maximum, is an excluded input (`requires`).
- BagRules.AsRange: the panic on an empty set, or a multiset with an empty maximum, is an excluded input (`requires`).
- Tables.Table.AddColumn: the panic on an empty domain is an excluded input (`requires`).
- GuessingSolver.AddColumn: the panic on an empty domain is an excluded input (`requires`).
- GuessingSolver.GuessingSolver.Var: the panic once solving has started (more than one table) is an excluded input (`requires`).
- GuessingSolver.IntoSolution: the panic on a table that is not solved or has an empty domain is an excluded input (`requires`).
- Tables.Table.EvalConstraint: the panic on no parameters, an undeclared parameter, or a fixed value out of range is an excluded input (`requires`).
- Tables.Table.Guess: the panic on a table without variables (`entries[0]` after `unwrap_or(0)`) is an excluded input (`requires`).
- Tables.Table.EvalConstraintForAll: the panic on a parameter index out of range or an undeclared parameter (`position(..).unwrap()`) is an excluded input (`requires`).
- Prod.ParallelApplyAsWritten: the "zero args" panic of `apply` on an empty argument list, and the `as_range` panic on an argument or option without a range, are excluded inputs (`requires`).
- GuessingSolver.NewDynConstraint: where `eval_constraint` would panic (no parameters, an undeclared parameter, a fixed value out of range), the verdict is `Maybe`, which rules nothing out.
- Floating point is left out: `possibilities` is an exact integer product.
- Fixed-width overflow is left out: `Count` bounds, `Seq` counts, `Prod` products and the `i32` score of `var_guessing_score` (`Domains.Score`, `1_000_000 - n` with `n` cast to `i32`) are unbounded integers. Only the `u32` to `i32` cast of board entries is modelled.
- Board.Show: a negative entry prints as the character `(64 - n)` taken modulo 256. The overflow of `64 - n` for `i32::MIN` is not modelled.
- The `Pred` closure, the `State` implementations of user programs, and the `Debug` and `Display` formatting of tables and `Unsatisfiable` are left out. They are user-supplied. A predicate is a function parameter.
- Jigsaw.CallbackByRowCol: the callback is modelled as the recorded sequence of its calls, not as a closure with effects.
- In `src/rules/bag.rs`, `equals` and `yes_no` are left out. `equals` returns unit, so neither compiles.
- The Set/Set arm of `Bag::is_subset` is modelled only for two single-value sets. The general arm calls the unimplemented `overlaps`, and `BagRules.Comparable` excludes it.
- The Multiset arms of `Bag::is_subset` are left out, because they are ill-typed and not exhaustive.
- `Formula::eval`, `parallel_eval` and the `Rule` impl are left out. They call a table method that does not exist, and the rules module is not declared in the library.
- Prod.Name: `name` returns "sum", as written. It is kept without a contract because it is a constant.
- Prod.ApplyCovers: holds only when no argument can be negative. With negative ends, the product of the lower ends need not be the least product, and the code does not handle that case.
- Prod.Apply: an empty argument list is excluded by `requires`. In the source it panics with "zero args".
- The example programs (sudoku, magic square, word square, palindrome, three, apples plus bananas) and the sudoku display script are left out. They are configuration and printing.
- The `metadata` carried by the solvers, `config`, `table`, `display_table` and `delete_completed_constraints` (empty in the source) are left out.
- The generic `and` laws that `eval_constraint_for_all` needs in order to agree with `eval_constraint` (`Algebra.AndLaws`) are stated as a requirement. No constraint kind is required to meet them.

## Findings

| source | as written | input that shows it | evidently intended | confidence | as-written member | corrected member |
|---|---|---|---|---|---|---|
| src/table.rs:58-63 | `var_guessing_score` is `1_000_000 - n`, which is negative once a domain has more than a million values and so ranks below a singleton domain (score 0) | domains `[0]` and `0..1_000_001`: `guess` splits on the singleton and returns the table itself, so `solve` (src/guessing_solver.rs:310-317) pops and pushes it forever | split on the smallest domain with two or more values | not executed | Domains.GuessPicksSingletonPastAMillion | Domains.GuessesCorrected |
| src/rules/prod.rs:45-52 | each option's range is multiplied by `apply(args)`, which still includes the parallel slot's own argument | arguments `Single 2`, `Single 3`, slot 0, option `Single 5`: gives `Range(30, 30)` | the product with the option in place of the slot, `Range(15, 15)`, as the default `parallel_apply` computes | not executed | Prod.ParallelApplyCountsSlotTwice | Prod.ParallelApplyIsDefault |
