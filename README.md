# dicee engine — a Dafny model of the single-turn solver

This project models the Rust engine of the dicee five-dice game
(`packages/engine/src`). It proves facts about that model. The engine works out
the best play for one turn: a roll of five dice, up to two rerolls left, and a
set of categories still open. It covers these parts:

- **Configurations** (`config.dfy`): a hand as six face counts summing to 5,
  and the fixed enumeration of all 252 such hands.
- **Categories** (`category.dfy`): the 13 categories, and the 13-bit category
  set with its iterator.
- **Scoring**: the solver's rules (`rules.dfy`), the dice wrappers
  (`scoring_api.dfy`), the older per-die scorer (`legacy_scoring.dfy`), and
  dice parsing with the `u8` category conversion (`types.dfy`).
- **Keep patterns** (`keep.dfy`): validation, the mixed-radix enumeration whose
  order is the solver's tie-break, and `PartialDice`.
- **Transition model**: multinomial roll probabilities and the roll-outcome
  enumeration (`probability.dfy`), the keep-pattern enumeration
  (`keep_enum.dfy`), and the precomputed transition table with its
  expectation fold (`table.dfy`).
- **Turn solver**: the turn state, actions, the analysis record and its stable
  orderings (`turn.dfy`), and `TurnSolver` (`solver.dfy`).
- **Request shaping** (`api.dfy`): `validate_dice`, the branches of
  `analyze_turn`, and `generate_keep_explanation`.
- **The older single-roll estimator** (`legacy_probability.dfy`).

All probabilities and expected values are exact `real`s. A statement about
sums "within 1e-9" in the source is therefore an exact equality here.

The solver is specified by a pure Bellman recursion:

- `Solver.Value` scores the best open category now, or takes the best keep
  pattern's expectation over `TransitionTables.Entries`, one roll fewer.
- `Solver.CategoryEvSpec` is the same recursion restricted to one category.

The `TurnSolver` methods follow the source's loops and recursion, and each is
proved equal to those functions.

## Model

| member | source | states |
|---|---|---|
| Config.NewConfigIndex | packages/engine/src/core/config.rs:42-48 | succeeds exactly for indices below 252, keeping the value; otherwise `InvalidConfigIndex(i)` |
| Config.FromCounts | packages/engine/src/core/config.rs:132-141 | accepts exactly the count vectors summing to 5 and stores them unchanged; otherwise `InvalidDieValue{value: sum, position: 0}` |
| Config.FromDice | packages/engine/src/core/config.rs:157-164 | the counts of valid dice are, face by face, the number of dice showing that face |
| Config.CountsOfSum | packages/engine/src/core/config.rs:487-491 | the counts of a hand sum to the number of dice |
| Config.ConfigOf | packages/engine/src/core/config.rs:157-164 | `count(f)` of the configuration of a hand equals the occurrences of `f` in it |
| Config.CountOfDice | packages/engine/src/core/config.rs:178-183 | `count(face)` of `from_dice` is the number of dice showing `face`, and the counts are a valid configuration |
| Config.FaceSumOfDice | packages/engine/src/core/config.rs:203-210 | `sum()` (face times count) equals the plain sum of the dice |
| Config.MaxCount | packages/engine/src/core/config.rs:214-216 | `max_count` is an upper bound of all counts, attained by some face, and at most 5 |
| Config.ModeFace | packages/engine/src/core/config.rs:219-230 | the returned face has maximal count and every lower face has a strictly smaller count, so ties go to the lowest face |
| Config.IsYahtzeeIff | packages/engine/src/core/config.rs:233-235 | `is_yahtzee` holds iff some face has count 5 |
| Config.IsFullHouse | packages/engine/src/core/config.rs:238-249 | the loop answers true iff some count is 3 and some count is 2 |
| Config.DistinctFaces | packages/engine/src/core/config.rs:293-295 | the number of faces with a positive count, between 1 and 5 |
| Config.CountPositiveBounds | packages/engine/src/core/config.rs:293-295 | the number of positive counts is at most their sum, and at least 1 when the sum is positive |
| Config.AllConfigsFacts | packages/engine/src/core/config.rs:331-363 | the 252 enumerated vectors each sum to 5, are strictly increasing lexicographically, are pairwise distinct, and include every valid count vector |
| Config.GenerateAllConfigs | packages/engine/src/core/config.rs:331-363 | the source's five nested loops become the mutually recursive methods `FillConfigs` and `FillBlock`, each running one `while` loop over one face's count and writing into the shared array; together they fill exactly 252 entries, the i-th being the i-th vector of the enumeration |
| Config.FromIndex | packages/engine/src/core/config.rs:268-270 | `from_index(i)` is the i-th enumerated configuration |
| Config.ToIndex | packages/engine/src/core/config.rs:254-265 | the index found maps back to the configuration (`from_index(to_index(c)) == c`), and it is the only index holding `c` |
| Config.FactorialsTable | packages/engine/src/core/config.rs:320 | the `FACTORIALS` table holds n! for n up to 5 |
| Config.Multiplicity | packages/engine/src/core/config.rs:192-199 | the multiplicity is 5!/∏cᵢ!, an exact integer between 1 and 120 |
| Config.GenerateMultiplicities | packages/engine/src/core/config.rs:366-385 | the table holds the multiplicity of every enumerated configuration, in enumeration order |
| Config.TotalMultiplicity | packages/engine/src/core/config.rs:401-404 | the 252 multiplicities sum to 7776 = 6⁵ |
| Config.ExpandFacts | packages/engine/src/core/config.rs:280-290 | listing each face `count` times gives an ascending list of faces with exactly the given counts |
| Config.ToDice | packages/engine/src/core/config.rs:280-290 | `to_dice` is ascending, made of valid dice, and counting it gives the configuration back (`from_dice(to_dice(c)) == c`) |
| Config.FromCountsWrappingAcceptsOverflow | packages/engine/src/core/config.rs:132-141 | with the `u8` sum wrapping, `[251, 10, 0, 0, 0, 0]` is accepted although it is not a configuration |
| Categories.Index | packages/engine/src/core/category.rs:94-99 | every index is below 13 |
| Categories.FromIndex | packages/engine/src/core/category.rs:102-108 | `Some` iff the index is below 13, and then the category has that index |
| Categories.IndexRoundTrip | packages/engine/src/core/category.rs:94-108 | `from_index(c.index()) == Some(c)`, and the index is injective |
| Categories.Sections | packages/engine/src/core/category.rs:112-122 | `is_upper` picks the first six categories, `is_lower` the other seven, and exactly one of them holds |
| Categories.UpperFace | packages/engine/src/core/category.rs:126-132 | `Some(f)` exactly for upper categories, where `f` is in 1..6 and is the category's own face |
| Categories.FixedScore | packages/engine/src/core/category.rs:142-150 | 25, 30, 40 and 50 for full house, small straight, large straight and dicee; `None` for all others |
| Categories.MaskBit | packages/engine/src/core/category.rs:154-157 | the mask of a category has exactly the bit of its index set |
| Categories.ContainsBit | packages/engine/src/core/category.rs:286-288 | `contains` tests the category's bit |
| Categories.ConstantSets | packages/engine/src/core/category.rs:222-250 | `new()` contains nothing, `all()` everything, `upper_only()` exactly the upper and `lower_only()` exactly the lower categories |
| Categories.FromBitsContains | packages/engine/src/core/category.rs:254-258 | `from_bits(b)` contains a category iff bit `index` of `b` is set, so bits above 12 are dropped |
| Categories.FromBitsRoundTrip | packages/engine/src/core/category.rs:254-264 | `from_bits(s.bits()) == s` |
| Categories.EmptyFullMembers | packages/engine/src/core/category.rs:274-282 | `is_empty` iff no category is a member, `is_full` iff every category is |
| Categories.WithContains | packages/engine/src/core/category.rs:292-308 | after `insert`/`with(c)` the set contains `c` and every other category keeps its membership |
| Categories.WithoutContains | packages/engine/src/core/category.rs:298-316 | after `remove`/`without(c)` the set lacks `c` and every other category keeps its membership |
| Categories.UnionContains | packages/engine/src/core/category.rs:320-324 | `union` is set union |
| Categories.IntersectionContains | packages/engine/src/core/category.rs:328-332 | `intersection` is set intersection |
| Categories.ComplementContains | packages/engine/src/core/category.rs:336-341 | `complement` contains exactly the categories not in the set |
| Categories.Extensionality | packages/engine/src/core/category.rs:213-258 | two sets with the same members are equal, since only the low 13 bits are ever set |
| Categories.InsertRemoveInverse | packages/engine/src/core/category.rs:292-316 | inserting an absent category and removing it again, or the reverse for a present one, restores the set |
| Categories.ComplementLaws | packages/engine/src/core/category.rs:320-341 | complement is an involution, `s ∪ ¬s` is full, `s ∩ ¬s` is empty, and the upper section's complement is the lower section |
| Categories.LenWithWithout | packages/engine/src/core/category.rs:268-316 | `len` grows by one on inserting an absent category and shrinks by one on removing a present one |
| Categories.ConstantLens | packages/engine/src/core/category.rs:463-471 | the empty, full, upper and lower sets have 0, 13, 6 and 7 members |
| Categories.RemoveDiceeExample | packages/engine/src/core/category.rs:474-485 | `all().without(Dicee)` lacks dicee and has 12 members |
| Categories.MembersFacts | packages/engine/src/core/category.rs:402-419 | the iteration sequence holds exactly the members, in strictly ascending index order, and has `len()` entries |
| Categories.CategorySetIter.constructor | packages/engine/src/core/category.rs:344-347 | a fresh iterator holds the set's bits |
| Categories.CategorySetIter.Next | packages/engine/src/core/category.rs:402-413 | `next` yields the lowest remaining member and clears its bit, or `None` once no bit is left |
| Categories.CategorySetIter.SizeHint | packages/engine/src/core/category.rs:415-419 | the size hint is the number of members still to come |
| Categories.Collect | packages/engine/src/core/category.rs:488-492 | draining the iterator yields the members in ascending order, `len()` of them |
| Categories.FromIter | packages/engine/src/core/category.rs:370-378 | collecting categories into a set gives exactly those categories |
| Keep.FromCounts | packages/engine/src/core/keep.rs:70-80 | accepts exactly the totals up to 5 and stores the counts unchanged; otherwise `InvalidKeepPattern{face: 0, requested: total, available: 5}` |
| Keep.FromCountsWrappingAcceptsOverflow | packages/engine/src/core/keep.rs:70-80 | with the `u8` total wrapping, `[255, 2, 0, 0, 0, 0]` is accepted although it keeps more than five dice |
| Keep.KeepAll | packages/engine/src/core/keep.rs:83-87 | `keep_all` keeps exactly the configuration's counts |
| Keep.KeepAllFacts | packages/engine/src/core/keep.rs:83-87 | `keep_all` keeps five dice, rolls none, and is valid for its configuration |
| Keep.KeptPlusRolled | packages/engine/src/core/keep.rs:103-111 | `total_kept() + dice_to_roll() == 5`, and five dice are rolled exactly for `KEEP_NONE` |
| Keep.ValidForAtLeast | packages/engine/src/core/keep.rs:117-125 | `is_valid_for` holds iff each kept count is at most the configuration's count of that face |
| Keep.IsValidFor | packages/engine/src/core/keep.rs:117-125 | the loop answers exactly `is_valid_for` |
| Keep.ValidateFacts | packages/engine/src/core/keep.rs:127-140 | `validate_for` succeeds iff the pattern is valid; otherwise it names the first offending face with its requested and available counts |
| Keep.ValidateFor | packages/engine/src/core/keep.rs:127-140 | the loop returns the first offending face's error, or `Ok` |
| Keep.EncodeDecode | packages/engine/src/core/keep.rs:208-234 | reading a rank below ∏(nᵢ+1) as mixed-radix digits and encoding it again gives the rank back |
| Keep.DecodeEncode | packages/engine/src/core/keep.rs:208-234 | every digit vector bounded by the counts is the decoding of exactly one rank below ∏(nᵢ+1) |
| Keep.IncrementDecode | packages/engine/src/core/keep.rs:208-234 | one step of the iterator's counter (face 1 least significant, carry upward) moves from rank `r` to rank `r + 1`, and its carry-out flags the last rank |
| Keep.IncrementCounts | packages/engine/src/core/keep.rs:213-230 | the carry loop computes exactly that increment |
| Keep.AllPatterns | packages/engine/src/core/keep.rs:146-155 | the enumeration has `count_valid_for` = ∏(nᵢ+1) patterns |
| Keep.AllPatternsFacts | packages/engine/src/core/keep.rs:146-155 | the first pattern is `KEEP_NONE`, each is valid and the decoding of its rank, and patterns at different ranks differ |
| Keep.AllPatternsComplete | packages/engine/src/core/keep.rs:146-155 | every valid keep pattern is enumerated |
| Keep.KeepPatternIter.constructor | packages/engine/src/core/keep.rs:196-203 | a fresh iterator starts at rank 0 for the configuration's counts |
| Keep.KeepPatternIter.Next | packages/engine/src/core/keep.rs:208-234 | `next` yields the pattern decoded from the current rank and advances, and yields `None` after the last rank |
| Keep.KeepPatternIter.SizeHint | packages/engine/src/core/keep.rs:236-240 | the hint brackets the number of patterns still to come |
| Keep.IterValidFor | packages/engine/src/core/keep.rs:146-150 | draining the iterator yields exactly the enumeration |
| Keep.CountValidForExample | packages/engine/src/core/keep.rs:409-418 | a configuration with counts `[1,1,2,0,1,0]` has 24 keep patterns |
| Keep.NewPartialDice | packages/engine/src/core/keep.rs:277-280 | `PartialDice::new` succeeds iff `validate_for` does, keeping the pattern, and otherwise returns its error |
| Keep.IsCompleteIff | packages/engine/src/core/keep.rs:331-333 | `is_complete` iff no die is left to roll |
| Keep.CombineWithRoll | packages/engine/src/core/keep.rs:341-355 | the result is kept plus rolled, face by face, and a configuration (it sums to 5) |
| KeepEnumeration.ForEachKeepPattern | packages/engine/src/transition/table.rs:180-209 | the recursive visitor over a mutable count array visits exactly the compositions of `total_kept` into six parts, in lexicographic order |
| KeepEnumeration.KeepPatternsExactlyOnce | packages/engine/src/transition/table.rs:180-209 | those are exactly the six-entry vectors summing to `total_kept`, each visited once |
| Rules.DiceSumBounds | packages/engine/src/core/config.rs:203-210 | the dice sum of a configuration lies in 5..30 |
| Rules.MaxScore | packages/engine/src/scoring/rules.rs:331-347 | `max_score` is at most 50, is 5·face for upper categories, and is the fixed score where there is one |
| Rules.Score | packages/engine/src/scoring/rules.rs:81-124 | every invalid result scores 0 and no score exceeds `max_score` |
| Rules.ScoreAll | packages/engine/src/scoring/rules.rs:127-129 | 13 pairs in category order, each with that category's `score` |
| Rules.ScoreConfig | packages/engine/src/scoring/rules.rs:202-227 | the result is tagged with its category, scores 0 when invalid, and never exceeds `max_score` |
| Rules.ScoreAllConfig | packages/engine/src/scoring/rules.rs:233-238 | 13 results in category order, each `score_config` of that category |
| Rules.UpperTarget | packages/engine/src/scoring/rules.rs:353-363 | 3 × face for upper categories, 0 for lower ones |
| Rules.UpperScore | packages/engine/src/scoring/rules.rs:136-147 | upper categories score face × count; `score` always flags them valid, `score_config` only when the count is positive |
| Rules.NOfKindScore | packages/engine/src/scoring/rules.rs:150-156 | three/four of a kind are valid iff some count reaches 3 (resp. 4); they then score the dice sum, and otherwise 0 |
| Rules.FullHouseScore | packages/engine/src/scoring/rules.rs:94-100 | full house scores 25 iff some count is 3 and some is 2, else 0 and invalid, in both APIs |
| Rules.SmallStraightScore | packages/engine/src/scoring/rules.rs:159-164 | small straight scores 30 iff one of the runs 1-4, 2-5 and 3-6 is present, else 0, in both APIs |
| Rules.LargeStraightScore | packages/engine/src/scoring/rules.rs:167-171 | large straight scores 40 iff 1-5 or 2-6 is present, else 0, in both APIs |
| Rules.LargeStraightShape | packages/engine/src/scoring/rules.rs:159-171 | a large straight has no repeated face and lacks a 1 or a 6, and it is also a small straight |
| Rules.DiceeScore | packages/engine/src/scoring/rules.rs:115-122 | dicee scores 50 iff all five dice show one face, else 0, in both APIs |
| Rules.ChanceScore | packages/engine/src/scoring/rules.rs:322-324 | chance is always valid and scores the dice sum, between 5 and 30 |
| Rules.ScoresAgree | packages/engine/src/scoring/rules.rs:202-227 | `score` and `score_config` give equal scores for all 13 categories; validity agrees on lower categories and differs on upper ones only when the count is 0 |
| Rules.KindsNest | packages/engine/src/scoring/rules.rs:81-124 | a dicee is a four of a kind, which is a three of a kind; so is a full house; a large straight is a small one |
| Rules.MaxScoreReached | packages/engine/src/scoring/rules.rs:331-347 | every category's `max_score` is reached by some hand |
| Rules.ScoreAllLookup | packages/engine/src/scoring/rules.rs:127-129 | a category's entry in `score_all` and `score_all_config` sits at its index, and only there |
| Rules.UpperTargetsTotal | packages/engine/src/scoring/rules.rs:504-508 | the six upper targets sum to 63, and each is three fifths of that category's maximum |
| Rules.FullHouseExample | packages/engine/src/scoring/rules.rs:512-526 | `[3,3,3,5,5]` scores full house 25, three of a kind 19, and dicee 0 (invalid) |
| Rules.LargeStraightExample | packages/engine/src/scoring/rules.rs:529-542 | `[1,2,3,4,5]` is a valid large straight worth 40 |
| Rules.EmptyUpperExample | packages/engine/src/scoring/rules.rs:375-384 | with no five showing, `score_config` flags fives invalid with 0 while `score` flags it valid |
| ScoringApi.ScoreDice | packages/engine/src/scoring/mod.rs:71-74 | `score(dice, c) == score_config(from_dice(dice), c)` |
| ScoringApi.ScoreAllDice | packages/engine/src/scoring/mod.rs:96-99 | `score_all(dice)` is `score_all_config(from_dice(dice))`: 13 results in category order |
| ScoringApi.ThreeOfAKindExample | packages/engine/src/scoring/mod.rs:124-136 | `[3,3,3,2,1]` is a valid three of a kind scoring 12 |
| ScoringApi.NoThreeOfAKindExample | packages/engine/src/scoring/mod.rs:124-136 | `[1,2,3,4,5]` is no three of a kind: 0 and invalid |
| ScoringApi.NoFullHouseExample | packages/engine/src/scoring/mod.rs:151-162 | `[3,3,3,3,2]` is not a full house |
| ScoringApi.SmallStraightExamples | packages/engine/src/scoring/mod.rs:164-175 | `[1,3,4,5,6]` is a small straight and `[1,2,3,5,6]` is not |
| LegacyScoring.CountDice | packages/engine/src/scoring.rs:4-11 | the counts sum to 5 and `counts[d-1]` is the number of dice showing `d` |
| LegacyScoring.SumDice | packages/engine/src/scoring.rs:13-15 | the total of the dice equals the configuration's dice sum |
| LegacyScoring.Score | packages/engine/src/scoring.rs:18-131 | the older scorer gives `score_config`'s score for every hand and category; the result is valid exactly when `score_config` says so, except that upper categories are always valid |
| LegacyScoring.HandScore | packages/engine/src/scoring.rs:18-131 | the value-level statement of the same agreement, used by the estimator, with the score at most `max_score` |
| Types.ParseDice | packages/engine/src/types.rs:7-19 | the wrong length fails with the length message; with five values, an out-of-range die fails with the range message; otherwise the same values come back in order |
| Types.TryFromU8 | packages/engine/src/types.rs:88-105 | succeeds exactly for 0..=12 with the category of that discriminant; otherwise `"invalid category: n"` |
| Types.TryFromRoundTrip | packages/engine/src/types.rs:25-105 | the discriminant of every category converts back to it, and the conversion agrees with `Category::from_index` |
| Types.TryFromExample | packages/engine/src/types.rs:88-105 | 13 is rejected with `"invalid category: 13"` and 11 gives the dicee category |
| Probabilities.NewProbability | packages/engine/src/transition/probability.rs:32-38 | succeeds iff 0 ≤ v ≤ 1, keeping the value; otherwise `InvalidProbability(v)` |
| Probabilities.FactorialsTable | packages/engine/src/transition/probability.rs:111-133 | the eleven-entry table holds n! for n ≤ 10 |
| Probabilities.Factorial | packages/engine/src/transition/probability.rs:131-133 | `factorial(n) = n!` for n ≤ 10 |
| Probabilities.MultinomialCoefficient | packages/engine/src/transition/probability.rs:138-143 | (Σc)!/∏cᵢ!, an exact integer whose product with ∏cᵢ! is (Σc)! |
| Probabilities.MultinomialExamples | packages/engine/src/transition/probability.rs:391-400 | the coefficients of `[5,0,…]`, `[1,1,1,1,1,0]` and `[2,3,0,…]` are 1, 120 and 10 |
| Probabilities.InvPowerOfSix | packages/engine/src/transition/probability.rs:146-160 | the table entry is 6⁻ᵏ (its product with 6ᵏ is exactly 1) and positive, for k up to 5 |
| Probabilities.RollOutcomeProbability | packages/engine/src/transition/probability.rs:187-210 | with no dice rolled, 1 for the all-zero vector and 0 otherwise; with k ≥ 1 dice rolled, multinomial(c) · 6⁻ᵏ |
| Probabilities.RollOutcomeBounds | packages/engine/src/transition/probability.rs:187-210 | every reachable outcome has a nonzero probability, between 1/7776 and 1 |
| Probabilities.SpecificProbabilities | packages/engine/src/transition/probability.rs:421-429 | five 1s from five dice have probability 1/7776, and one 1 from a single die has 1/6 |
| Probabilities.TransitionSpec | packages/engine/src/transition/probability.rs:227-249 | `Some` iff the target covers the kept dice and exceeds them by exactly the dice rolled; then it is the roll probability of the difference |
| Probabilities.TransitionProbability | packages/engine/src/transition/probability.rs:227-249 | the loop returns exactly that |
| Probabilities.TransitionExample | packages/engine/src/transition/probability.rs:432-445 | keeping two 3s and rolling three dice reaches `[0,0,3,0,2,0]` with probability 3/216 |
| Probabilities.ImpossibleTransitionExample | packages/engine/src/transition/probability.rs:447-453 | a target with fewer of a kept face is unreachable |
| Probabilities.ForEachRollOutcome | packages/engine/src/transition/probability.rs:304-328 | the recursive visitor over a mutable count array visits exactly the compositions of k into six parts, lexicographically |
| Probabilities.RollOutcomesExactlyOnce | packages/engine/src/transition/probability.rs:304-328 | those are exactly the six-entry vectors summing to k, each once |
| Probabilities.OutcomeCount | packages/engine/src/transition/probability.rs:330-341 | `outcome_count(k)` is the number visited, C(k+5, 5) |
| Probabilities.ExpectedValueOverRolls | packages/engine/src/transition/probability.rs:281-299 | the fold returns Σ P(o)·f(o) over the outcomes; with no dice rolled it is f of the zero vector |
| Probabilities.ZeroOutcomeExpectation | packages/engine/src/transition/probability.rs:281-299 | with nothing rolled the expectation is f of the zero vector |
| Probabilities.ProbabilitiesSumToOne | packages/engine/src/transition/probability.rs:403-418 | for every k in 0..5 the outcome probabilities sum to exactly 1 |
| Probabilities.OneDieExpectation | packages/engine/src/transition/probability.rs:456-466 | the expected pip total of one die is 3.5 |
| TransitionTables.KeyOf | packages/engine/src/transition/table.rs:52-60 | the key of a partial hand is its kept counts with `5 − total` to roll |
| TransitionTables.ComputeTransitionProb | packages/engine/src/transition/table.rs:153-177 | the table's own feasibility check agrees with `transition_probability` on all inputs |
| TransitionTables.EntriesOutcomes | packages/engine/src/transition/table.rs:81-113 | a key's entries correspond one to one, in order, to the roll outcomes added to the kept dice |
| TransitionTables.EntriesMember | packages/engine/src/transition/table.rs:81-113 | an entry is stored iff its target is reachable, with exactly the transition probability |
| TransitionTables.EntriesSumToOne | packages/engine/src/transition/table.rs:251-263 | the probabilities of a valid key's entries sum to exactly 1 |
| TransitionTables.EntryProbabilities | packages/engine/src/transition/table.rs:81-113 | every stored probability lies in (0, 1] |
| TransitionTables.KeepAllEntries | packages/engine/src/transition/table.rs:236-248 | keeping all five dice gives one entry: the hand itself with probability 1 |
| TransitionTables.KeepNoneEntries | packages/engine/src/transition/table.rs:251-263 | keeping none gives 252 entries |
| TransitionTables.EntriesExpectationBounds | packages/engine/src/transition/table.rs:126-139 | the expectation of a scorer with values in [0, hi] lies in [0, hi] |
| TransitionTables.EntriesExpectationMonotone | packages/engine/src/transition/table.rs:126-139 | the expectation is monotone in the scorer |
| TransitionTables.EntriesNonEmpty | packages/engine/src/transition/table.rs:81-113 | every valid key has at least one entry |
| TransitionTables.PatternsCover | packages/engine/src/transition/table.rs:86-110 | the keep patterns visited for a given roll count are exactly the valid keys with that roll count |
| TransitionTables.AddKeys | packages/engine/src/transition/table.rs:86-110 | the inner loop of `build` stores, for every kept vector with the given roll count, its entry list, and leaves other keys alone |
| TransitionTables.CollectEntries | packages/engine/src/transition/table.rs:95-106 | the scan over all 252 targets collects exactly the reachable ones with their probabilities, in index order |
| TransitionTables.TransitionTable.Build | packages/engine/src/transition/table.rs:81-113 | the built table maps every valid key to its entry list and holds no other key |
| TransitionTables.TransitionTable.Get | packages/engine/src/transition/table.rs:118-121 | an absent key gives the empty list; on a built table every key gives its entry list |
| TransitionTables.TransitionTable.ExpectedValue | packages/engine/src/transition/table.rs:126-139 | the fold returns Σ prob · f(from_index(target)) over `get(p)`; on a built table this is the direct expectation over every outcome of rolling the dice not kept, each scored as kept + outcome |
| TransitionTables.EntriesRollExpectation | packages/engine/src/transition/table.rs:266-280 | the table's expectation of a valid key equals the direct Σ P(o)·f(kept + o) over all outcomes o of rolling the remaining dice |
| Turns.NewTurnState | packages/engine/src/core/turn.rs:36-46 | succeeds iff at most two rolls remain, keeping both fields; otherwise panics with the assertion's message |
| Turns.TurnFromDice | packages/engine/src/core/turn.rs:48-50 | `from_dice(d, r)` is `new(from_dice(d), r)` |
| Turns.RerollOrScore | packages/engine/src/core/turn.rs:54-62 | exactly one of `can_reroll` and `must_score` holds |
| Turns.NewStateBounds | packages/engine/src/core/turn.rs:36-62 | a constructed state has at most two rolls left, and can reroll iff one or two remain |
| Turns.TurnStateExamples | packages/engine/src/core/turn.rs:203-226 | the module's tests: two rolls left can reroll, none left must score, three rolls panic |
| Turns.ActionKinds | packages/engine/src/core/turn.rs:87-107 | every action is exactly one of `Score` or `Reroll` |
| Turns.RerollOrScoreRecommended | packages/engine/src/core/turn.rs:184-192 | `should_reroll` and `should_score` always disagree |
| Turns.SortDescendingFacts | packages/engine/src/core/turn.rs:165-180 | the stable larger-first sort returns a non-increasing permutation that keeps equal keys in their original order |
| Turns.SortedByEv | packages/engine/src/core/turn.rs:165-173 | `sorted_by_ev` is a permutation of the category values, non-increasing in expected value, stable on ties |
| Turns.SortedByImmediate | packages/engine/src/core/turn.rs:176-180 | `sorted_by_immediate` is a permutation, non-increasing in immediate score, stable on ties |
| Solver.MaxScoreOf | packages/engine/src/core/solver.rs:196-203 | the maximum immediate score over the open categories bounds each of them and is attained |
| Solver.ScanBestFacts | packages/engine/src/core/solver.rs:239-256 | the strict-improvement scan returns a maximiser, the first in enumeration order among equals |
| Solver.BestKeep | packages/engine/src/core/solver.rs:239-256 | the chosen keep pattern is valid for the hand |
| Solver.BestKeepOptimal | packages/engine/src/core/solver.rs:239-256 | no valid keep pattern has a higher expectation than the chosen one |
| Solver.BestKeepAtLeastStay | packages/engine/src/core/solver.rs:239-256 | keeping all five dice is among the options, so the best keep is worth at least the present hand |
| Solver.ValueUnfold | packages/engine/src/core/solver.rs:191-221 | no open category gives 0; no roll left gives the best immediate score; otherwise the larger of the best immediate score and the best keep's value |
| Solver.BestKeepSpecFacts | packages/engine/src/core/solver.rs:226-257 | the chosen pattern is valid and worth its expectation of the value one roll fewer, and none is worth more |
| Solver.ValueAtLeastImmediate | packages/engine/src/core/solver.rs:211-220 | the value is at least the best immediate score and at least the best keep's value |
| Solver.ImmediateBestFacts | packages/engine/src/core/solver.rs:196-203 | the best immediate score is that of some open category and bounds all of them |
| Solver.ValueBounds | packages/engine/src/core/solver.rs:191-221 | the expected value lies between 0 and the highest maximum score of the open categories, so within [0, 50] |
| Solver.ValueMonotone | packages/engine/src/core/solver.rs:372-385 | one more roll never lowers the value |
| Solver.CategoryUnfold | packages/engine/src/core/solver.rs:179-188 | `category_ev` is the category's score with no roll left and the best keep's value for that category otherwise |
| Solver.BestKeepForCategoryFacts | packages/engine/src/core/solver.rs:261-297 | the chosen pattern is valid, none is better for that category, and one roll left scores the category on the reached hand |
| Solver.CategoryEvBounds | packages/engine/src/core/solver.rs:179-188 | `category_ev` lies between 0 and the category's maximum score |
| Solver.CategoryEvMonotone | packages/engine/src/core/solver.rs:179-188 | one more roll never lowers `category_ev` |
| Solver.CategoryValueOf | packages/engine/src/core/solver.rs:119-134 | each category value holds that category's score and validity, and `category_ev` when a roll is left or the score otherwise |
| Solver.BestImmediateLast | packages/engine/src/core/solver.rs:137-140 | `best_immediate` is a value with maximal immediate score, the last one on ties, as `max_by_key` keeps |
| Solver.BestImmediateFacts | packages/engine/src/core/solver.rs:137-140 | for a non-empty set, the best immediate category is open and its score is the best immediate score |
| Solver.AnalyzeValue | packages/engine/src/core/solver.rs:143-161 | for a non-empty set the analysis's expected value is the solver's value of the state |
| Solver.AnalyzeRecommendation | packages/engine/src/core/solver.rs:143-161 | it recommends a reroll iff the set is non-empty, a roll is left and the continuation strictly beats the best immediate score; ties go to scoring |
| Solver.AnalyzeBounds | packages/engine/src/core/solver.rs:143-161 | the expected value lies between the best immediate score and the ceiling of the set, and is the larger of it and the continuation value |
| Solver.CategoryValuesOrder | packages/engine/src/core/solver.rs:119-134 | one category value per open category, in ascending category order |
| Solver.CategoryValuesCover | packages/engine/src/core/solver.rs:119-134 | a category has a value iff it is open |
| Solver.CategoryValuesEntries | packages/engine/src/core/solver.rs:119-134 | every value entry holds its category's score and validity |
| Solver.AnalyzeCategoryValues | packages/engine/src/core/solver.rs:104-134 | the category values are empty for the empty set, and otherwise follow the open categories |
| Solver.AnalyzeDicee | packages/engine/src/core/solver.rs:334-351 | with five of a kind and dicee open, `analyze` scores dicee now for 50 |
| Solver.OnlyDiceeFifty | packages/engine/src/scoring/rules.rs:331-347 | only dicee has maximum score 50 |
| Solver.NewCacheKey | packages/engine/src/core/solver.rs:37-43 | a cache key holds the hand's index, which maps back to it, the rolls and the set |
| Solver.TurnSolver.New | packages/engine/src/core/solver.rs:79-83 | a new solver starts with an empty cache |
| Solver.TurnSolver.WithCapacity | packages/engine/src/core/solver.rs:86-90 | a solver with a capacity also starts with an empty cache |
| Solver.TurnSolver.ClearCache | packages/engine/src/core/solver.rs:93-95 | the cache is empty afterwards |
| Solver.TurnSolver.CacheSize | packages/engine/src/core/solver.rs:98-100 | the number of cached entries |
| Solver.TurnSolver.ExpectedValue | packages/engine/src/core/solver.rs:191-221 | `expected_value` returns the Bellman value `Value` |
| Solver.TurnSolver.ContinuationValue | packages/engine/src/core/solver.rs:243-248 | the table expectation of the value one roll fewer, over the pattern's entries |
| Solver.TurnSolver.BestKeep | packages/engine/src/core/solver.rs:226-257 | `best_keep` returns the specified best pattern and its value |
| Solver.TurnSolver.CategoryContinuation | packages/engine/src/core/solver.rs:278-288 | the table expectation, for one category, of the value one roll fewer |
| Solver.TurnSolver.CategoryClosureValue | packages/engine/src/core/solver.rs:281-288 | the closure's value for a reached hand: its score when no roll follows, the category's best keep value otherwise |
| Solver.TurnSolver.BestKeepForCategory | packages/engine/src/core/solver.rs:261-297 | `best_keep_for_category` returns the specified best pattern for the category and its value |
| Solver.TurnSolver.CategoryEv | packages/engine/src/core/solver.rs:179-188 | `category_ev` returns `CategoryEvSpec` |
| Solver.TurnSolver.CategoryValuesFor | packages/engine/src/core/solver.rs:119-134 | the mapping over the open categories gives their category values, in order |
| Solver.TurnSolver.Analyze | packages/engine/src/core/solver.rs:103-173 | `analyze` returns the specified analysis |
| Solver.AnalyzeWithFreshSolver | packages/engine/src/core/solver.rs:313-316 | analysis on a fresh solver is the specified analysis, valued at the solver's value for a non-empty set |
| Solver.QuickEv | packages/engine/src/core/solver.rs:319-323 | `quick_ev` is the value of the dice's configuration, between 0 and 50 |
| Api.FirstInvalid | packages/engine/src/lib.rs:84-94 | the position found is the first die outside 1..6, and `None` means every die is valid |
| Api.ValidateDice | packages/engine/src/lib.rs:84-94 | succeeds iff every die is in 1..6; fails exactly when `FirstInvalid` finds a die, and then reports that die's value and position |
| Api.GenerateKeepExplanation | packages/engine/src/lib.rs:283-300 | the loop builds exactly the explanation text |
| Api.PartsEmpty | packages/engine/src/lib.rs:286-295 | no part is produced iff all counts are zero |
| Api.ExplanationCases | packages/engine/src/lib.rs:297-300 | "Reroll all dice" iff every count is zero; otherwise "Keep " followed by the parts |
| Api.ExplainFiveThrees | packages/engine/src/lib.rs:313-318 | five 3s read "Keep 5 3s" |
| Api.ExplainOnesAndThrees | packages/engine/src/lib.rs:320-325 | two 1s and three 3s read "Keep 2 1s, 3 3s" |
| Api.ExplainOneOne | packages/engine/src/lib.rs:327-337 | a single 1 reads "Keep one 1", and nothing kept reads "Reroll all dice" |
| Api.FindScore | packages/engine/src/lib.rs:246-251 | the lookup gives 0 when the category is absent |
| Api.FindScoreFirst | packages/engine/src/lib.rs:246-251 | otherwise it gives the immediate score of the first matching entry |
| Api.AnalyzeTurn | packages/engine/src/lib.rs:194-281 | `analyze_turn` returns the specified reply, error or report |
| Api.AnalyzeTurnErrors | packages/engine/src/lib.rs:200-205 | bad dice fail with `parse_dice`'s messages and more than two rolls with the rolls message, before any solving |
| Api.AnalyzeTurnEmpty | packages/engine/src/lib.rs:213-225 | an empty category mask gives action "score", no category, EV 0 and no categories |
| Api.AnalyzeTurnReply | packages/engine/src/lib.rs:227-242 | a non-empty mask gives the report of `analyze`, whose value is the solver's value and whose categories list each open category in ascending order |
| Api.ScoreReply | packages/engine/src/lib.rs:244-262 | a "score" reply names an open category and reports its immediate score, which is the reply's value |
| Api.RerollReply | packages/engine/src/lib.rs:263-276 | a "reroll" reply comes only with a roll left, names no category, and reports the keep counts, valid for the hand, and their explanation |
| Api.ScoreReported | packages/engine/src/lib.rs:244-251 | the score looked up for an open category is its score now |
| Api.MaskAll | packages/engine/src/lib.rs:398-408 | mask 0x1FFF contains all 13 categories |
| Api.MaskOnesDicee | packages/engine/src/lib.rs:410-417 | mask 0x0801 is exactly {Ones, Dicee} |
| LegacyProbability.RerollCount | packages/engine/src/probability.rs:12-13 | the number of rerolled dice is at most 5 |
| LegacyProbability.Digit | packages/engine/src/probability.rs:122-143 | each base-6 digit is below 6 |
| LegacyProbability.GenerateOutcome | packages/engine/src/probability.rs:122-143 | the loop writes digit j of the outcome index, plus 1, into the j-th rerolled position and leaves kept positions unchanged |
| LegacyProbability.OutcomeDecodes | packages/engine/src/probability.rs:122-143 | reading the rerolled faces back as a base-6 number, least significant first, gives the outcome index, so distinct indices give distinct hands |
| LegacyProbability.OutcomeIsHand | packages/engine/src/probability.rs:122-143 | every generated outcome is a hand of valid dice |
| LegacyProbability.OutcomeExamples | packages/engine/src/probability.rs:178-189 | rerolling positions 1 and 3 of five 1s: index 0 gives `[1,1,1,1,1]` and index 7 gives `[1,2,1,2,1]` |
| LegacyProbability.LastBestFacts | packages/engine/src/probability.rs:70-79 | `max_by` returns a row of maximal expected value, the last one on ties |
| LegacyProbability.WithBestFacts | packages/engine/src/probability.rs:70-84 | the best category is the category of such a row, and `best_ev` is its expected value |
| LegacyProbability.CalculateCurrent | packages/engine/src/probability.rs:89-118 | the current result has 13 rows |
| LegacyProbability.CurrentFacts | packages/engine/src/probability.rs:89-101 | row j is category j, with probability 1 iff valid (else 0), expected value and current score both the score |
| LegacyProbability.FiveFivesBest | packages/engine/src/probability.rs:89-118 | for five 5s the current best category is dicee, worth 50 |
| LegacyProbability.AddOutcome | packages/engine/src/probability.rs:43-50 | the loop over categories adds one outcome's scores and validity to the running totals |
| LegacyProbability.CalculateSingleRoll | packages/engine/src/probability.rs:32-87 | the enumeration of the 6ᵏ outcomes returns the specified result |
| LegacyProbability.SingleRoll | packages/engine/src/probability.rs:32-87 | the single-roll result has 13 rows |
| LegacyProbability.ValidTotalAtMost | packages/engine/src/probability.rs:40-50 | the valid count after n outcomes is at most n |
| LegacyProbability.ScoreTotalAtMost | packages/engine/src/probability.rs:40-50 | the score total after n outcomes is at most n times the category's maximum |
| LegacyProbability.SingleRollFacts | packages/engine/src/probability.rs:52-66 | row j is category j, with probability = valid count / 6ᵏ in [0,1], expected value = score total / 6ᵏ within [0, max_score], and the current hand's score |
| LegacyProbability.DiceeOneInSix | packages/engine/src/probability.rs:160-175 | keeping four 5s and rerolling one die makes dicee valid with probability 1/6 |
| LegacyProbability.DiceeOnlyFives | packages/engine/src/probability.rs:160-175 | four 5s and a fifth die are a dicee iff the fifth die is a 5 |
| LegacyProbability.CalculateAll | packages/engine/src/probability.rs:6-28 | the dispatcher returns the specified result, counting the rerolled dice |
| LegacyProbability.AllResultCases | packages/engine/src/probability.rs:6-28 | no roll left or nothing rerolled gives the current result; two or more rolls give the same as one |

## Left out

- JavaScript and serde plumbing (`wasm_bindgen`, `serde_wasm_bindgen::to_value`, `get_categories`, `Display`/`Debug`): the model returns the report record as a datatype, and the serialisation error path is left out.
- The global lazily built `TRANSITION_TABLE`: every solver method takes a `TransitionTable` built by `TransitionTable.Build`, which is what the global holds once forced. The laziness is not modelled.
- `f64` arithmetic is modelled as exact `real`. Rounding, NaN and the `partial_cmp(...).unwrap_or(Equal)` fallback of the estimator cannot arise. The `f64::NEG_INFINITY` start of the best-keep scans becomes a scan seeded with the first pattern, which has the same result because at least one pattern (`KEEP_NONE`) always exists.
- `Probability`'s approximate comparisons (`is_zero`, `is_one` within an epsilon) are exact equalities. The feature-gated exact module (`transition/probability.rs:347-373`) is not a separate member.
- Solver.TurnSolver.ExpectedValue: the memo cache is read in the source but never written, so the model's cache stays the empty map. The methods state the value they compute; they do not state that `cache_size` is unchanged, because `expected_value` and `analyze` take `&self` and modify nothing in the model.
- Solver.TurnSolver.WithCapacity: the capacity hint has no effect on the contents and is ignored.
- The closures passed to `TransitionTable::expected_value` appear as recursive method calls inside an inlined copy of the table's expectation loop (`ContinuationValue`, `CategoryContinuation`), because Dafny cannot pass method closures.
- `sorted_by_ev` and `sorted_by_immediate` return references sorted by the standard library's stable `sort_by`. They are modelled as a stable insertion sort on values, so aliasing of the references is not captured.
- `new_unchecked`/`from_counts_unchecked` (unsafe constructors without checks) and the accessors `get`, `as_usize`, `counts`, `iter_all`, `entry_count` and `state_count` are direct field reads or unused by the core, so they have no members of their own.
- `TurnState::new` panics on more than two rolls through `assert!`. The model returns `Panics(message)` through the `Checked` datatype rather than aborting.
- Dice outside 1..6: the source's `Dice` type is documented as "5 dice with values 1-6" (`lib.rs:79`), and every function that counts a hand panics on any other die. `DiceConfig::from_dice` has a `debug_assert!` (`core/config.rs:160`), and then `counts[(d - 1) as usize]` is out of bounds in release too, because 0 - 1 wraps to 255 and 7..=255 index past 5. `count_dice` (`scoring.rs:4-10`) indexes the same way without the assertion. The members below require `ValidDice` instead of modelling that panic. `analyze_turn` goes through `parse_dice` first, so its own path never reaches it.
- Solver.QuickEv: requires valid dice; `quick_ev` goes through `from_dice` and panics on an invalid die.
- Config.FromDice: requires valid dice; `from_dice` panics on an invalid die (`core/config.rs:160-161`).
- Config.ConfigOf: requires valid dice, for the same `from_dice` panic.
- Config.CountOfDice: requires valid dice, for the same `from_dice` panic.
- ScoringApi.ScoreDice: requires valid dice; `score` calls `from_dice` (`scoring/mod.rs:72`).
- ScoringApi.ScoreAllDice: requires valid dice; `score_all` calls `from_dice` (`scoring/mod.rs:97`).
- Turns.TurnFromDice: requires valid dice; `TurnState::from_dice` calls `DiceConfig::from_dice` (`core/turn.rs:48-49`).
- LegacyScoring.CountDice: requires valid dice; `count_dice` indexes out of bounds on an invalid die (`scoring.rs:7`).
- LegacyScoring.SumDice: requires valid dice, as the scorer that calls it does.
- LegacyScoring.Score: requires valid dice, through `count_dice`.
- LegacyScoring.HandScore: requires valid dice, through `count_dice`.
- LegacyProbability.CalculateAll: requires valid dice. Every estimator path scores through `count_dice`, so an invalid die panics; the same holds for `CalculateCurrent`, `CurrentFacts`, `CalculateSingleRoll`, `SingleRoll`, `SingleRollFacts`, `AddOutcome`, `OutcomeIsHand`, `ValidTotalAtMost`, `ScoreTotalAtMost` and `AllResultCases`.
- LegacyProbability.CalculateCurrent: requires valid dice, through `count_dice` (`probability.rs:93`).
- LegacyProbability.CalculateSingleRoll: requires valid dice, through `count_dice` (`probability.rs:44`, `probability.rs:58`).
- Keep.CombineWithRoll: requires the rolled counts to sum to the number of dice not kept. The source checks this only with `debug_assert_eq!` (`core/keep.rs:342-347`): a debug build panics with "Rolled dice count mismatch", while a release build adds the counts face by face in unchecked `u8` and `from_counts_unchecked` may then return counts that do not sum to 5. Its only caller, the test at `core/keep.rs:428`, passes a roll of the right size, so the model leaves that release-build path out.
- The table test's example "keeping two 3s of [3, 3, 4, 5, 6], E[dice sum] = 16.5" (`transition/table.rs:266-280`) is not proved as a number. `EntriesRollExpectation` proves the equality it checks, table expectation against the direct sum over outcomes, for every key and scorer; the value 16.5 itself needs linearity of expectation over the 56 outcomes of three dice, which is not modelled.
- The repository holds two sources for the `scoring` module (`scoring.rs` and `scoring/mod.rs`, both behind `pub mod scoring;` at `lib.rs:58`). The older estimator (`CurrentRow`, `SingleRollRow`) scores through the per-die scorer of `scoring.rs` (`LegacyScoring.HandScore`), where upper categories are always valid. The compatibility `score` of `scoring/mod.rs:71-74` goes through `score_config`, which marks an upper category with no die of its face invalid. So in this model `calculate_current([5, 5, 5, 5, 5])` gives Ones probability 1.0, where the `scoring/mod.rs` scorer would give 0.0.
- The estimator's example "rerolling all five gives E[Ones] = 5/6" (`probability.rs:192-209`) is not proved: it needs the 7776-outcome enumeration unfolded, which is beyond the verifier's resource limit. The dicee 1/6 example is stated on the single row `SingleRollRow` for the same reason.
- `for_each_roll_outcome` and `for_each_keep_pattern` take a callback in the source. The model records the vectors visited, in order, and proves that sequence; the callback's effect is whatever its caller then does with each vector.
- Code over documentation: `mode_face` is documented as choosing the highest face on ties but picks the lowest (`core/config.rs:218-227`), and the model follows the code.
- `Category::Yahtzee` (in `types.rs` and `lib.rs`) and `Category::Dicee` (in `core/category.rs`) are one constructor `Dicee` with index 11, and `is_dicee` is `is_yahtzee`.
- The Python analysis package (`packages/analysis`) is outside the engine and is not part of this model.

## Findings

| source | as written | input that shows it | evidently intended | confidence | as-written member | corrected member |
|---|---|---|---|---|---|---|
| packages/engine/src/core/config.rs:132-141 | the counts are summed in `u8`, which wraps in release builds, before comparing with 5 | `[251, 10, 0, 0, 0, 0]` sums to 261, which wraps to 5, so it is accepted as a configuration | reject every count vector whose true sum is not 5 | not executed | Config.FromCountsWrappingAcceptsOverflow | Config.FromCounts |
| packages/engine/src/core/keep.rs:70-80 | the kept counts are summed in `u8`, which wraps in release builds, before comparing with 5 | `[255, 2, 0, 0, 0, 0]` totals 257, which wraps to 1, so it is accepted as keeping one die | reject every pattern whose true total exceeds 5 | not executed | Keep.FromCountsWrappingAcceptsOverflow | Keep.FromCounts |
