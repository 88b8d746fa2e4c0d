# NFL schedule search, modelled in Dafny

This project models the core of an NFL season scheduler that searches with a genetic algorithm. A
schedule assigns each of the season's 256 matchups to one of 256 gameslots, and the gameslots are
cut into 17 weeks of 13 to 16 games. The model covers:

- **The season tables** (`Weeks`, `Registry`): the week sizes and their prefix sums, the
  gameslot-to-week table, and the Thanksgiving, London and Mexico gameslots. They also cover team
  indexing in order of first appearance, the matchup table of (home, away) indices, and the
  matchup lookup by team names.
- **The schedule objects** (`Schedule`, `MonolithicSchedule`, `EarlySchedule`): the three variants
  of `NFLSchedule`, modelled as classes over an `array<nat>`. Each class covers:
  - `swap`, `shuffle` and `copy`;
  - one-point crossover with repair (`reproduce`, shared in `Crossover`);
  - the 0/1 home/away incidence matrices (`Incidence`);
  - the cached score or error, which every mutation clears.

  The monolithic variant adds the exhaustive improving-swap search `try_swap_all` and its own
  error computation.
- **The evaluator** (`Constraints`, `Heuristics`, `ScoreCalculator`): the hard constraints and
  the two heuristics. The constraints are one game per week, fixed home games, fixed matchups
  and the shared stadium with its Thursday/Monday exemption. The heuristics are consecutive road
  games and play in the week after an international game. The score is the negated violation
  count, or the heuristic value when nothing is violated.
- **The three searches** (`Selection`, `Mutation`, `MonoSearch`, `EarlySearch`,
  `CrossoverSearch`): the score-maximising search with elitists and result collection, the
  error-minimising search that stops at error 0, and the crossover search with single-best
  elitism. Shared pieces are integer ranks and weights, the parent draw, the elitist scan and
  the mutation by random swaps.
- **The web side** (`WebFilters`, `WebSchedules`, `WebDatabase`): decoding a stored schedule into
  labelled weeks, the matchup and opener filters, the filtered and limited listing, the
  per-gameslot distinct matchups, row decoding and truncation, and the gameslot column headers.

Randomness is an explicit `Random` object that holds an arbitrary stream of draws. Every
`randint`, `random` and `shuffle` call reads from that stream, so each run of a model method is
one possible run of the program.

## Model

| member | source | states |
|---|---|---|
| Weeks.PrefixTable | schedule_generator/src/schedule/constants.py:66 | the week starts implied by the weekly game counts: 0, 16, 32, … 240 and 256 after week 17 |
| Weeks.SeasonLength | schedule_generator/src/schedule/constants.py:66-68 | there are 17 weeks and their game counts add up to the 256 gameslots |
| Weeks.WeekUnique | schedule_generator/src/schedule/constants.py:78-84 | no gameslot falls in the ranges of two weeks |
| Weeks.WeekFrom | schedule_generator/src/schedule/constants.py:78-84 | a search from week w finds a week at or after w whose range holds the gameslot |
| Weeks.WeekOf | schedule_generator/src/schedule/constants.py:78-85 | every gameslot below 256 has exactly one week, and that week is below 17 |
| Weeks.WeeksTile | schedule_generator/src/schedule/constants.py:78-85 | the weekly ranges tile the season: each gameslot lies in one week and in no other |
| Weeks.FixedGameslotWeeks | schedule_generator/src/schedule/constants.py:66-70 | the Thanksgiving gameslots are the first three slots of week index 11; the London games fall in weeks 5, 6 and 7 and the Mexico game in week 10 |
| Weeks.WeekRow | schedule_generator/src/schedule/constants.py:80-83 | one row of week_gameslot has 256 entries, 1 exactly on the week's gameslots, and the running count moves to the next week's start |
| Weeks.BuildGameslotWeek | schedule_generator/src/schedule/constants.py:77-85 | the transposed table has 256 rows of 17 entries, with entry [g][w] equal to 1 iff gameslot g lies in week w |
| Weeks.WeekRange | schedule_generator/src/schedule/constants.py:80-83 | week w covers [start(w), start(w+1)) and ends by gameslot 256 |
| Weeks.FirstSlot | schedule_generator/src/schedule/constants.py:80-83 | the first gameslot of a week lies in that week and is its start |
| Weeks.LastSlot | schedule_generator/src/schedule/constants.py:80-83 | the last gameslot of a week lies in that week, directly before the next week's start |
| Registry.Names | schedule_generator/src/schedule/constants.py:25-29 | the names read from the data lines are each line's home name, then its away name, in line order |
| Registry.IndexingIsBijection | schedule_generator/src/schedule/constants.py:22-29 | the team dictionary's keys are exactly the names read, numbered bijectively onto 0 … size−1 |
| Registry.IndexingStable | schedule_generator/src/schedule/constants.py:26-29 | once a name has an index, reading more names never changes it |
| Registry.FirstAppearance | schedule_generator/src/schedule/constants.py:26-29 | the name first seen at position p gets as its index the number of distinct names seen before it |
| Registry.NamesAppear | schedule_generator/src/schedule/constants.py:25-29 | a name is read iff it is the home or away team of some line |
| Registry.IndexingLine | schedule_generator/src/schedule/constants.py:25-29 | reading line i registers its home name, then its away name |
| Registry.GetScheduleInfo | schedule_generator/src/schedule/constants.py:3-42 | the dictionary holds exactly the names on the lines, numbered bijectively in order of first appearance; the matchup list has one [home index, away index] entry per line, all in range |
| Registry.IndexTeams | schedule_generator/src/schedule/constants.py:22-29 | the first pass gives each new name, home then away, the next free index |
| Registry.MatchupTeams | schedule_generator/src/schedule/constants.py:32-39 | the second pass yields, for line i, the dictionary indices of its home and away names |
| Registry.IndexingOfLines | schedule_generator/src/schedule/constants.py:22-39 | the dictionary holds exactly the names on the lines, bijectively, so the second pass's lookups succeed |
| Registry.FindFrom | schedule_generator/src/schedule/constants.py:59-61 | the search from index i returns the first matching matchup at or after i, or None when none matches |
| Registry.MatchupIndex | schedule_generator/src/schedule/constants.py:46-64 | get_matchup_index returns the smallest index of the (home, away) matchup; None, where the source raises, iff no matchup matches |
| Registry.MatchupIndexByName | schedule_generator/src/schedule/constants.py:88-105 | a lookup by team names returns an index into the matchup list |
| Registry.MatchupIndexByNameMeaning | schedule_generator/src/schedule/constants.py:88-105 | the lookup by names succeeds iff both names are teams and some matchup pairs them, and then returns the first such matchup |
| Registry.ResolveConfigMeaning | schedule_generator/src/schedule/constants.py:88-105 | the team and matchup constants are the dictionary's indices and the first matching matchups; resolution fails iff a name or a pairing is missing; over a dense numbering every index is in range |
| Permutation.Identity | schedule_generator/src/schedule/NFLSchedule.py:16 | the initial assignment puts matchup i at gameslot i and is a permutation |
| Permutation.SwapFacts | schedule_generator/src/schedule/NFLSchedule.py:144-157 | a swap exchanges exactly entries i and j; swap(i, j) equals swap(j, i); swapping twice restores the assignment; the result is again a permutation |
| Permutation.ApplySwaps | schedule_generator/src/schedule/NFLSchedule.py:134-137 | a run of swaps keeps the assignment's length |
| Permutation.ApplySwapsPermutation | schedule_generator/src/schedule/NFLSchedule.py:134-137 | any run of swaps turns a permutation into a permutation |
| Permutation.SwapSameIndex | schedule_generator/src/schedule/NFLSchedule.py:137 | a drawn pair with equal indices leaves the assignment unchanged |
| Permutation.ImageSize | schedule_generator/src/schedule/NFLSchedule.py:90-94 | the first k entries of a duplicate-free assignment take k distinct gameslots |
| Permutation.PermutationOnto | schedule_generator/src/schedule/NFLSchedule.py:90-94 | a permutation of the 256 matchups occupies every gameslot |
| Permutation.IndexFrom | schedule_generator/src/schedule/score/heuristics/international_bye.py:24 | the search returns a position at or after i that holds the gameslot |
| Permutation.Inverse | schedule_generator/src/schedule/score/heuristics/international_bye.py:24 | the gameslot-to-matchup table is a permutation that inverts the assignment on both sides |
| Permutation.DistinctMultiplicity | schedule_generator/src/schedule/NFLSchedule.py:90-94 | a duplicate-free assignment holds each gameslot at most once |
| Permutation.DistinctByMultiset | schedule_generator/src/schedule/NFLSchedule.py:90-94 | a rearrangement of a duplicate-free sequence is duplicate-free |
| RandomSource.Random.constructor | schedule_generator/src/schedule/NFLSchedule.py:2 | a generator over the given draw stream starts at draw 0 |
| RandomSource.Random.RandInt | schedule_generator/src/schedule/NFLSchedule.py:83 | randint(lo, hi) returns a value in the closed range [lo, hi] and consumes one draw |
| RandomSource.Random.Percent | schedule_generator/src/genetic_algorithm.py:90-96 | random() at percent granularity returns a value below 100 and consumes one draw |
| RandomSource.Random.ShuffleArray | schedule_generator/src/schedule/NFLSchedule.py:93 | shuffle on an array rearranges its contents without changing the multiset |
| RandomSource.Random.ShuffleSeq | schedule_generator/src/genetic_algorithm.py:102 | shuffle on a list returns a rearrangement of it |
| Schedule.SwapOrderScenario | schedule_generator/tests/NFLScheduleTests.py:55-71 | swapping matchups 0 and 1 in either order gives the same assignment; a further swap of 10 and 20 makes it differ |
| Schedule.NFLSchedule.constructor | schedule_generator/src/schedule/NFLSchedule.py:10-22 | a fresh schedule holds the identity assignment and no cached score |
| Schedule.NFLSchedule.Equals | schedule_generator/src/schedule/NFLSchedule.py:25-38 | two schedules are equal iff their assignments agree element-wise |
| Schedule.NFLSchedule.GetMatchups | schedule_generator/src/schedule/NFLSchedule.py:41-48 | get_matchups returns a fresh copy of the assignment |
| Schedule.NFLSchedule.SetMatchups | schedule_generator/src/schedule/NFLSchedule.py:51-63 | set_matchups installs the given permutation in a new array and clears the score |
| Schedule.NFLSchedule.Reproduce | schedule_generator/src/schedule/NFLSchedule.py:66-97 | the child is fresh, has no score, and its assignment is the parents' one-point crossover at a split in [1, 255], repaired into a permutation |
| Schedule.NFLSchedule.SetHomeAwayMatrix | schedule_generator/src/schedule/NFLSchedule.py:100-122 | the home and away matrices become the incidence matrices of the current assignment; nothing else changes |
| Schedule.NFLSchedule.Shuffle | schedule_generator/src/schedule/NFLSchedule.py:125-141 | the assignment becomes the old one after the drawn swaps in order; the score is cleared iff at least one swap was made |
| Schedule.NFLSchedule.Swap | schedule_generator/src/schedule/NFLSchedule.py:144-157 | matchups i and j exchange gameslots, nothing else moves, and the score is cleared |
| Schedule.NFLSchedule.Copy | schedule_generator/src/schedule/NFLSchedule.py:160-178 | the copy is a new object with its own array, equal element-wise, and the same cached score |
| Schedule.NFLSchedule.GetScore | schedule_generator/src/schedule/NFLSchedule.py:181-202 | the result is the assignment's score; a cached score is returned unchanged; afterwards the score is cached |
| Schedule.NFLSchedule.ConstraintsSatisfied | schedule_generator/src/schedule/NFLSchedule.py:205-217 | the answer is true iff the assignment's score is nonnegative |
| Mutation.ShuffleAssignment | schedule_generator/src/NFLSchedule.py:176-193 | shuffle on a copied assignment yields the assignment after the drawn swaps in draw order, a permutation whenever the input is one |
| EarlySchedule.EarlyErrorMeaning | src/NFLSchedule.py:198-254 | when no team has 17 games, the error is never negative, and it is 0 iff one game per week holds and the three hosts play at home at gameslots 0, 161 and 162 |
| EarlySchedule.EarlyErrorWithinViolations | src/NFLSchedule.py:198-224 | the later constraint count is this error plus the four international matchups and the shared stadium, so it is never smaller |
| EarlySchedule.NFLSchedule.constructor | src/NFLSchedule.py:13-38 | a fresh schedule over the given tables holds the identity assignment and error −1 |
| EarlySchedule.NFLSchedule.Equals | src/NFLSchedule.py:41-45 | two schedules are equal iff their assignments agree element-wise |
| EarlySchedule.NFLSchedule.Reproduce | src/NFLSchedule.py:81-113 | the child shares the first parent's tables, has error −1, and holds the repaired one-point crossover of the parents |
| EarlySchedule.NFLSchedule.SetHomeAwayMatrix | src/NFLSchedule.py:116-138 | the matrices become the incidence matrices of the current assignment |
| EarlySchedule.NFLSchedule.Shuffle | src/NFLSchedule.py:141-158 | the assignment becomes the old one after the drawn swaps; the error is reset to −1 iff at least one swap was made |
| EarlySchedule.NFLSchedule.Swap | src/NFLSchedule.py:161-174 | matchups i and j exchange gameslots and the error is reset to −1 |
| EarlySchedule.NFLSchedule.Copy | src/NFLSchedule.py:177-195 | the copy shares the tables and has its own equal array and the same cached error |
| EarlySchedule.NFLSchedule.GetError | src/NFLSchedule.py:198-224 | the result is the assignment's error (one game per week plus three fixed home games) and is cached |
| Heuristics.ConsecutiveRoadGamesLoop | schedule_generator/src/schedule/score/heuristics/consecutive_games.py:4-27 | the loop over teams and over every week but the last two counts exactly the (team, week) pairs starting three consecutive road weeks |
| Heuristics.TeamRoadTripsBound | schedule_generator/src/schedule/score/heuristics/consecutive_games.py:20-25 | one team contributes at most one count per starting week examined |
| Heuristics.RoadTripsBound | schedule_generator/src/schedule/score/heuristics/consecutive_games.py:20-25 | the first k teams contribute at most k × 15 counts |
| Heuristics.ConsecutiveRoadGamesBound | schedule_generator/src/schedule/score/heuristics/consecutive_games.py:4-27 | the count is at most NUM_TEAMS × (NUM_WEEKS − 2) |
| Heuristics.RunPrefix | schedule_generator/src/schedule/score/heuristics/consecutive_games.py:21-25 | for a single road run, the windows counted below week k are those starting inside the run that fit in it |
| Heuristics.RoadRunCount | schedule_generator/src/schedule/score/heuristics/consecutive_games.py:21-25 | a single road run of len ≥ 3 weeks counts len − 2 times, once per overlapping window |
| Heuristics.TeamWeek | schedule_generator/src/schedule/score/heuristics/international_bye.py:17-18 | the team-by-week matrix holds, for each team and week, its home plus away games that week |
| Heuristics.CountSlot | schedule_generator/src/schedule/score/heuristics/international_bye.py:23-30 | one international gameslot adds 1 for each of its two teams that plays the next week, and nothing in the final week |
| Heuristics.NoByeAfterInternationalLoop | schedule_generator/src/schedule/score/heuristics/international_bye.py:4-32 | the loop's count is the sum, over the international gameslots, of the per-slot counts |
| Heuristics.NoByeBound | schedule_generator/src/schedule/score/heuristics/international_bye.py:23-30 | the count is at most twice the number of international gameslots |
| Heuristics.FinalWeekSlotsCountNothing | schedule_generator/src/schedule/score/heuristics/international_bye.py:26 | gameslots in the final week add nothing |
| Heuristics.ScheduleNoBye | schedule_generator/src/schedule/score/heuristics/international_bye.py:4-32 | on a schedule, with gameslot_matchup the inverse of the assignment, the count is at most twice the number of international gameslots |
| Heuristics.ScheduleSlotByes | schedule_generator/src/schedule/score/heuristics/international_bye.py:17-30 | on a schedule, the matchup looked up for a gameslot is the one assigned there: its home and away teams are the only 1s in that gameslot's columns, and the count is 1 for each of them that plays the next week |
| Heuristics.SlotByesCases | schedule_generator/src/schedule/score/heuristics/international_bye.py:23-30 | a slot counts 0 iff both teams rest the next week, and 2 iff both play |
| ScoreCalculator.FixedChecks | schedule_generator/src/schedule/score/score_calculator.py:45-59 | the seven fixed checks add up to at most 7, and to 0 iff the four international matchups sit at their gameslots and the three hosts play at home at gameslots 0, 161 and 162 |
| ScoreCalculator.Score | schedule_generator/src/schedule/score/score_calculator.py:7-30 | the score is never positive, and negative iff some violation is counted |
| ScoreCalculator.ScoreCases | schedule_generator/src/schedule/score/score_calculator.py:7-30 | with violations the score is their negation; without, it is the heuristic, which is 0 |
| ScoreCalculator.ScoreNonNegativeMeaning | schedule_generator/src/schedule/score/score_calculator.py:7-62 | when no team has 17 games, the score is nonnegative iff one game per week, the seven fixed checks and the shared stadium all count 0 |
| ScoreCalculator.FeasibleScheduleScoresZero | schedule_generator/src/schedule/score/score_calculator.py:7-76 | a schedule with one bye per team, every fixed check met and no shared-stadium clash scores 0 |
| Incidence.ExtendHome | schedule_generator/src/schedule/NFLSchedule.py:111-121 | after matchup m is processed, a team hosts at a gameslot iff it did before or m is its home game there |
| Incidence.ExtendAway | schedule_generator/src/schedule/NFLSchedule.py:111-122 | after matchup m is processed, a team visits at a gameslot iff it did before or m is its away game there |
| Incidence.BuildIncidence | schedule_generator/src/schedule/NFLSchedule.py:100-122 | the loop from zero matrices yields exactly the home and away incidence matrices: entry [t][g] is 1 iff some matchup of t, home or away, sits at g |
| Incidence.MatrixEq | schedule_generator/src/schedule/NFLSchedule.py:106-107 | two matrices that agree entry by entry are equal |
| Incidence.HomeAtSlotOf | schedule_generator/src/schedule/NFLSchedule.py:114-121 | under a permutation, the gameslot of matchup m is hosted exactly by m's home team |
| Incidence.AwayAtSlotOf | schedule_generator/src/schedule/NFLSchedule.py:114-122 | under a permutation, the gameslot of matchup m is visited exactly by m's away team |
| Incidence.PermutationColumn | schedule_generator/src/schedule/NFLSchedule.py:100-122 | under a permutation every gameslot column holds one home 1 and one away 1, in the rows of the teams of the matchup played there |
| Incidence.SwapEntry | schedule_generator/src/schedule/NFLSchedule.py:144-157 | after a swap, entry [t][g] equals the old entry at g with the two swapped gameslots exchanged |
| Incidence.SwapColumns | schedule_generator/src/schedule/NFLSchedule.py:144-157 | swapping two matchups swaps the two gameslot columns of both matrices and changes nothing else |
| Incidence.SumConcat | schedule_generator/src/schedule/score/constraints/one_game_per_week.py:16-22 | the sum of a concatenation is the sum of the parts |
| Incidence.SumUpdate | schedule_generator/src/schedule/score/constraints/one_game_per_week.py:16-22 | changing one entry changes the sum by the difference |
| Incidence.SumSwapped | schedule_generator/src/schedule/NFLSchedule.py:144-157 | exchanging two entries of a row keeps its sum |
| Incidence.Clamp | schedule_generator/src/schedule/score/constraints/one_game_per_week.py:18 | the clamped index lies in [lo, hi] and is unchanged inside it |
| Incidence.DotRange | schedule_generator/src/schedule/score/constraints/one_game_per_week.py:18 | a dot product with the 0/1 mask of a range sums the row over that range |
| Incidence.MatMulIsWeekCount | schedule_generator/src/schedule/score/constraints/one_game_per_week.py:18-19 | entry w of a row times gameslot_week is the row's sum over week w's gameslots |
| Incidence.SumSplit | schedule_generator/src/schedule/score/constraints/one_game_per_week.py:16-22 | a prefix sum splits at any intermediate point |
| Incidence.WeekTotalPrefix | schedule_generator/src/schedule/constants.py:78-85 | the week counts of the first k weeks add up to the row's sum up to week k's start |
| Incidence.WeeksCoverRow | schedule_generator/src/schedule/constants.py:78-85 | the 17 week counts of a row add up to the row's sum |
| Incidence.SliceSwapped | schedule_generator/src/schedule/NFLSchedule.py:144-157 | a swap inside a week's slice is that slice's own swap; a swap outside it leaves the slice alone |
| Incidence.WeekCountSwapped | schedule_generator/src/schedule/NFLSchedule.py:144-157 | exchanging two gameslots of the same week leaves every week count of a row unchanged |
| Constraints.SameGamesSameBadWeeks | schedule_generator/src/schedule/score/constraints/one_game_per_week.py:16-22 | a team's count of weeks not played exactly once depends only on its weekly game totals |
| Constraints.SameGamesSameBadCells | schedule_generator/src/schedule/score/constraints/one_game_per_week.py:16-22 | the count of (team, week) cells not equal to 1 depends only on the weekly totals |
| Constraints.OneGamePerWeekByTotals | schedule_generator/src/schedule/score/constraints/one_game_per_week.py:4-22 | one_game_per_week depends only on the team-by-week game totals |
| Constraints.OneGamePerWeekSameWeekSwap | schedule_generator/src/schedule/score/constraints/one_game_per_week.py:4-22 | swapping two matchups whose gameslots share a week leaves one_game_per_week unchanged |
| Constraints.OneByeWeeks | schedule_generator/src/schedule/score/constraints/one_game_per_week.py:16-22 | a team with one bye and one game in every other week has exactly one bad week, its bye |
| Constraints.OneByeCells | schedule_generator/src/schedule/score/constraints/one_game_per_week.py:16-22 | if every team has one bye, the first k teams contribute exactly k bad cells |
| Constraints.OneGamePerWeekSatisfied | schedule_generator/src/schedule/score/constraints/one_game_per_week.py:4-22 | a season where every team has one bye and one game in every other week has no violation |
| Constraints.NoBadWeekTotal | schedule_generator/src/schedule/score/constraints/one_game_per_week.py:16-22 | a team with no bad week among the first k plays exactly k games in them |
| Constraints.BadCellsAtLeast | schedule_generator/src/schedule/score/constraints/one_game_per_week.py:16-22 | when every team plays fewer than 17 games, each team has at least one bad week |
| Constraints.OneGamePerWeekNonNegative | schedule_generator/src/schedule/score/constraints/one_game_per_week.py:4-22 | when every team plays fewer than 17 games, one_game_per_week is never negative |
| Constraints.FixedHomeGameMeaning | schedule_generator/src/schedule/score/constraints/fixed_home_game.py:2-15 | on an assignment's matrices, fixed_home_game is 0 or 1, and 0 iff the matchup at the gameslot is hosted by the team |
| Constraints.FixedMatchupMeaning | schedule_generator/src/schedule/score/constraints/fixed_matchup.py:2-14 | fixed_matchup is 0 iff the inverse assignment puts the matchup at the gameslot, and swapping two other matchups leaves it unchanged |
| Constraints.StadiumStep | schedule_generator/src/schedule/score/constraints/shared_stadium.py:29-41 | the running count is the week's first gameslot and, after adding the week's size, one before it is the week's last; a week is exempt iff either team hosts one of them |
| Constraints.StadiumWeekStep | schedule_generator/src/schedule/score/constraints/shared_stadium.py:30-41 | one loop iteration yields the week's contribution and advances the count to the next week's start |
| Constraints.SharedStadiumLoop | schedule_generator/src/schedule/score/constraints/shared_stadium.py:4-44 | the loop's result is the sum over weeks of the home-game product, zeroed in non-final weeks where either team hosts the Thursday or Monday gameslot |
| Constraints.SharedStadiumSymmetric | schedule_generator/src/schedule/score/constraints/shared_stadium.py:4-44 | the count is symmetric in the two teams |
| Constraints.StadiumWeekCases | schedule_generator/src/schedule/score/constraints/shared_stadium.py:25-41 | the final week always counts the product; other weeks count 0 when either team hosts the Thursday or Monday gameslot, and the product otherwise |
| Crossover.Splice | schedule_generator/src/schedule/NFLSchedule.py:86-87 | the unrepaired child takes the first parent's gameslots below the split and the second parent's from it on |
| Crossover.IncreasingDistinct | schedule_generator/src/schedule/NFLSchedule.py:91 | the sorted list of missing gameslots has no repeats |
| Crossover.ScanStep | schedule_generator/src/schedule/NFLSchedule.py:90 | position k repeats an earlier value iff its value was already seen; only a first occurrence adds a value |
| Crossover.ScanUnique | schedule_generator/src/schedule/NFLSchedule.py:90-92 | the scan marks exactly the values present and lists, ascending, exactly the positions that repeat an earlier value; repeats plus distinct values make up the length |
| Crossover.MissingValues | schedule_generator/src/schedule/NFLSchedule.py:91 | np.setdiff1d yields, ascending, exactly the unused gameslots, and they number n minus the distinct values |
| Crossover.AssignmentRepairs | schedule_generator/src/schedule/NFLSchedule.py:94 | writing the shuffled missing gameslots to the duplicate positions is a repair and gives a permutation whose duplicate positions hold exactly the missing gameslots |
| Crossover.Repair | schedule_generator/src/schedule/NFLSchedule.py:89-94 | after the repair the child is a permutation, first occurrences keep their gameslot, and the duplicate positions receive exactly the missing gameslots |
| Crossover.ShuffledCopy | schedule_generator/src/schedule/NFLSchedule.py:93 | the shuffled missing gameslots are the same values, still distinct |
| Crossover.Scatter | schedule_generator/src/schedule/NFLSchedule.py:94 | fancy-indexed assignment writes each value at its position and leaves the other positions unchanged |
| Crossover.Recombine | schedule_generator/src/schedule/NFLSchedule.py:83-94 | the split lies in [1, n−1], and the child is the repaired splice of the parents at it, a permutation |
| MonolithicSchedule.SeasonOf | schedule_generator/src/NFLSchedule.py:15-31 | the season of registered tables keeps the matchup table and team count, and its constraint indices are the resolved names |
| MonolithicSchedule.SeasonOfNames | schedule_generator/src/NFLSchedule.py:312-327 | the constraint indices are the dictionary's indices of the named teams and the lookups of the named matchups |
| MonolithicSchedule.SourceOrderErrorIsViolations | schedule_generator/src/NFLSchedule.py:301-330 | _get_error, in its own order and with the stadium teams given as (Giants, Jets), counts the same violations as the modular get_constraints |
| MonolithicSchedule.ScoreAgreesWithModular | schedule_generator/src/NFLSchedule.py:256-283 | a score given by get_score's rule is nonnegative iff the modular score is, and a negative one equals it |
| MonolithicSchedule.RejectedStep | schedule_generator/src/NFLSchedule.py:245-250 | a rejected trial extends the rejected prefix of pairs by one; finishing a row moves it to the next row |
| MonolithicSchedule.NFLSchedule.constructor | schedule_generator/src/NFLSchedule.py:15-40 | a fresh schedule over the given tables holds the identity assignment and no score |
| MonolithicSchedule.NFLSchedule.Equals | schedule_generator/src/NFLSchedule.py:43-56 | two schedules are equal iff their assignments agree element-wise |
| MonolithicSchedule.NFLSchedule.GetMatchups | schedule_generator/src/NFLSchedule.py:59-66 | the result is a fresh copy of the assignment |
| MonolithicSchedule.NFLSchedule.SetMatchups | schedule_generator/src/NFLSchedule.py:69-81 | the given permutation is installed in a new array and the score is cleared |
| MonolithicSchedule.NFLSchedule.Reproduce | schedule_generator/src/NFLSchedule.py:117-148 | the child shares the first parent's tables, has no score, and holds the repaired one-point crossover of the parents at a split in [1, 255] |
| MonolithicSchedule.NFLSchedule.SetHomeAwayMatrix | schedule_generator/src/NFLSchedule.py:151-173 | the matrices become the incidence matrices of the current assignment; the assignment and score are unchanged |
| MonolithicSchedule.NFLSchedule.Shuffle | schedule_generator/src/NFLSchedule.py:176-193 | the assignment becomes the old one after the drawn swaps; the score is cleared iff at least one swap was made |
| MonolithicSchedule.NFLSchedule.Swap | schedule_generator/src/NFLSchedule.py:196-209 | matchups i and j exchange gameslots and the score is cleared |
| MonolithicSchedule.NFLSchedule.Copy | schedule_generator/src/NFLSchedule.py:212-230 | the copy shares the tables and has its own equal array and the same cached score |
| MonolithicSchedule.NFLSchedule.GetMatchupIndex | schedule_generator/src/NFLSchedule.py:412-434 | the result is the name lookup: the first matchup pairing the two named teams, or None where the source raises |
| MonolithicSchedule.NFLSchedule.GetError | schedule_generator/src/NFLSchedule.py:301-409 | on current matrices, the error is one game per week, the three home games, the stadium and the four international matchups added up |
| MonolithicSchedule.NFLSchedule.Evaluate | schedule_generator/src/NFLSchedule.py:268-280 | with fresh matrices, the score is minus the error, or a value in [1, 1000] when the error is 0 |
| MonolithicSchedule.NFLSchedule.GetScore | schedule_generator/src/NFLSchedule.py:256-283 | the score follows the rule above and is cached; a cached score is returned unchanged |
| MonolithicSchedule.NFLSchedule.ConstraintsSatisfied | schedule_generator/src/NFLSchedule.py:286-298 | the answer is true iff the assignment violates no constraint (its modular score is nonnegative) |
| MonolithicSchedule.NFLSchedule.TryPair | schedule_generator/src/NFLSchedule.py:247-250 | one trial keeps the swap iff its score beats the current one; otherwise the assignment is restored, the cached score is cleared and the pair is recorded as rejected |
| MonolithicSchedule.NFLSchedule.TrySwapsFrom | schedule_generator/src/NFLSchedule.py:246-250 | the row of trials (i, j) either keeps the first improving swap, with all earlier pairs rejected, or restores the assignment with the whole row rejected and, when the row had a trial, the cached score cleared |
| MonolithicSchedule.NFLSchedule.TrySwapAll | schedule_generator/src/NFLSchedule.py:233-253 | on success exactly the first improving transposition in lexicographic order is applied, and every earlier pair was rejected; on failure the assignment is unchanged, every pair was rejected and the cached score is cleared by the last swap back |
| Selection.Ranks | schedule_generator/src/genetic_algorithm.py:21-37 | there is one rank per individual |
| Selection.RanksFacts | schedule_generator/src/genetic_algorithm.py:27-37 | the first rank is 1; a later rank repeats the previous one for an equal score and is one more otherwise; ranks never decrease and rank i is at most i + 1 |
| Selection.RanksCountChanges | schedule_generator/src/genetic_algorithm.py:27-37 | rank i is 1 plus the number of score changes up to i |
| Selection.RankLoop | schedule_generator/src/genetic_algorithm.py:24-37 | the append loop builds exactly the rank sequence |
| Selection.Fact | schedule_generator/src/genetic_algorithm.py:40 | the factorial used to scale the inverted ranks to whole numbers is at least 1 |
| Selection.FactOver | schedule_generator/src/genetic_algorithm.py:40 | n! / k is a positive whole number |
| Selection.FactOverTimes | schedule_generator/src/genetic_algorithm.py:40 | k × (n! / k) = n! |
| Selection.RankWeights | schedule_generator/src/genetic_algorithm.py:40-44 | there is one weight per rank |
| Selection.InverseMonotone | schedule_generator/src/genetic_algorithm.py:40 | with weight × rank constant, a better rank has a weight at least as large |
| Selection.RankWeightsInverse | schedule_generator/src/genetic_algorithm.py:40-44 | weight × rank is the same for every individual, so the weights are a[-1] / a[i] up to a common factor; every weight is positive and a better rank never gets a smaller weight |
| Selection.LinearWeights | schedule_generator.py:10-11 | index i gets weight pop_size − 1 − i, so the last gets 0 |
| Selection.ParentFrom | schedule_generator/src/genetic_algorithm.py:47-53 | the search returns a population index, or 0 |
| Selection.GetParentIndex | schedule_generator/src/genetic_algorithm.py:47-53 | subtracting the weights in turn from the draw returns the index at which it drops below zero, or 0; always an index of the population |
| Selection.ParentFromInterval | schedule_generator/src/genetic_algorithm.py:48-52 | a draw inside the running-sum range from i is attributed to the index whose slice contains it |
| Selection.ParentIndexInterval | schedule_generator/src/genetic_algorithm.py:47-53 | a draw in [0, total) picks the index whose slice of the running sums holds it, so each index is chosen for exactly its weight's share of draws and a weight of 0 is never chosen |
| Selection.LinearNeverPicksLast | schedule_generator.py:10-18 | with the linear weights a draw in range never picks the last, worst individual |
| Selection.Picked | schedule_generator/src/genetic_algorithm.py:72-78 | there is one kept assignment per kept index |
| Selection.EliteScan | schedule_generator/src/genetic_algorithm.py:72-80 | the kept indices are among those scanned |
| Selection.EliteSize | schedule_generator/src/genetic_algorithm.py:73-80 | the scan keeps at most one individual per step |
| Selection.EliteOrder | schedule_generator/src/genetic_algorithm.py:73-80 | kept indices are in population order; every individual up to each kept one has the best score; if the scan never stopped, all scanned individuals have it |
| Selection.EliteDistinct | schedule_generator/src/genetic_algorithm.py:74-78 | kept individuals are pairwise unequal, and at most num_elitist are kept when it is positive |
| Selection.EliteComplete | schedule_generator/src/genetic_algorithm.py:74-76 | when the scan did not stop, every scanned individual equals a kept one |
| Selection.EliteStopped | schedule_generator/src/genetic_algorithm.py:77-80 | once the scan has stopped, later individuals change nothing |
| Selection.ResultFacts | schedule_generator/src/genetic_algorithm.py:110-114 | the result scan only appends; results stay pairwise unequal; each added result is a feasible individual met before the scan stopped |
| Selection.ResultStopped | schedule_generator/src/genetic_algorithm.py:111-112 | once the result scan has stopped at an infeasible individual, later ones change nothing |
| Selection.InsertDescending | schedule_generator/src/genetic_algorithm.py:59 | inserting after every element whose key is at least the new one keeps the order descending |
| Selection.SortBy | schedule_generator/src/genetic_algorithm.py:59 | sorted(..., reverse=True) returns a permutation of its input with keys in descending order |
| Selection.PrefixSumPositive | schedule_generator/src/genetic_algorithm.py:40-44 | with a positive first weight the total weight is positive |
| Selection.SameMembers | schedule_generator/src/genetic_algorithm.py:102 | a rearranged population has the same size and the same members |
| Selection.MutationCount | schedule_generator/src/genetic_algorithm.py:90-96 | a child receives 1 to 3 swaps: 1 iff the percent draw is below 90, 3 iff it is at least 99 |
| MonoSearch.SoundConcat | schedule_generator/src/genetic_algorithm.py:72-99 | joining two populations of permutations with correct caches gives one |
| MonoSearch.SoundMembers | schedule_generator/src/genetic_algorithm.py:102-106 | members drawn from a population of permutations with correct caches have them too |
| MonoSearch.ScoredMembers | schedule_generator/src/genetic_algorithm.py:106 | members drawn from a scored population are scored |
| MonoSearch.Scores | schedule_generator/src/genetic_algorithm.py:32 | the list holds each individual's cached score, in population order |
| MonoSearch.Assignments | schedule_generator/src/genetic_algorithm.py:75 | the list holds each individual's assignment, in population order |
| MonoSearch.FeasibleOf | schedule_generator/src/genetic_algorithm.py:111 | there is one constraint verdict per assignment |
| MonoSearch.FeasibleAt | schedule_generator/src/genetic_algorithm.py:111 | verdict k is whether assignment k satisfies every hard constraint |
| MonoSearch.ResultsFeasible | schedule_generator/src/genetic_algorithm.py:110-114 | the result scan adds only feasible assignments |
| MonoSearch.GetScore | schedule_generator/src/NFLSchedule.py:256-283 | the score follows get_score's rule for the assignment and is cached; a cached score is returned unchanged |
| MonoSearch.ConstraintsSatisfied | schedule_generator/src/NFLSchedule.py:286-298 | the verdict is true iff the assignment satisfies every hard constraint; a cached score is kept |
| MonoSearch.NewIndividual | schedule_generator/src/genetic_algorithm.py:56-58 | an initial individual is the base assignment after 256 drawn swaps, with no score |
| MonoSearch.InitialPopulation | schedule_generator/src/genetic_algorithm.py:56-58 | the initial population has pop_size members, each the base assignment after its own 256 drawn swaps, unscored |
| MonoSearch.ScoreAll | schedule_generator/src/genetic_algorithm.py:59 | scoring every member caches all scores, changes no assignment, and keeps scores already cached |
| MonoSearch.SortByScore | schedule_generator/src/genetic_algorithm.py:59 | the sorted population is a rearrangement of the input, best score first |
| MonoSearch.ParentWeights | schedule_generator/src/genetic_algorithm.py:60 | the weights are the inverted ranks of the population's scores, all positive |
| MonoSearch.Contains | schedule_generator/src/genetic_algorithm.py:75 | `in` is true iff some member has an equal assignment |
| MonoSearch.Elitists | schedule_generator/src/genetic_algorithm.py:69-80 | the elitists are the individuals at the positions the elitist scan keeps, in order |
| MonoSearch.MakeChild | schedule_generator/src/genetic_algorithm.py:87-96 | a child is a copy of a parent of positive weight after 1 to 3 drawn swaps, unscored |
| MonoSearch.Breed | schedule_generator/src/genetic_algorithm.py:84-99 | count children are made, each a copy of a positive-weight parent after 1 to 3 drawn swaps |
| MonoSearch.ConsiderResult | schedule_generator/src/genetic_algorithm.py:110-114 | one step of the result loop follows the result-scan rule for that individual |
| MonoSearch.CollectResults | schedule_generator/src/genetic_algorithm.py:110-114 | the results are those of the result scan over the whole sorted population |
| MonoSearch.NextGeneration | schedule_generator/src/genetic_algorithm.py:71-107 | the next population has the same size, is scored and sorted best first, and its weights are all positive; its assignments are exactly those of the elitists the scan keeps plus the children (each a positive-weight parent after 1 to 3 swaps), rearranged, so every elitist's assignment survives, and when the population is scored every elitist survives as it is |
| MonoSearch.EliteSurvives | schedule_generator/src/genetic_algorithm.py:71-106 | an elitist that already carries its score is still a member after the shuffle, the scoring and the sort |
| MonoSearch.AssignmentsPermute | schedule_generator/src/genetic_algorithm.py:101-107 | a rearranged population, as shuffle and sorted produce, has its assignments rearranged the same way |
| MonoSearch.GeneticAlgorithm | schedule_generator/src/genetic_algorithm.py:6-117 | every schedule returned satisfies every hard constraint, no two are equal, and the search is done iff it holds num_results of them |
| EarlySearch.CurrentIsSound | src/genetic_algorithm.py:36 | members whose cached error is computed are valid cache states |
| EarlySearch.SoundConcat | src/genetic_algorithm.py:47-74 | joining two sound populations gives a sound one |
| EarlySearch.SoundMembers | src/genetic_algorithm.py:77-81 | members drawn from a sound population are sound |
| EarlySearch.CurrentMembers | src/genetic_algorithm.py:81 | members drawn from a population with computed errors have computed errors |
| EarlySearch.Errors | src/genetic_algorithm.py:15 | the list holds each member's cached error, in population order |
| EarlySearch.Assignments | src/genetic_algorithm.py:50 | the list holds each member's assignment, in population order |
| EarlySearch.GetError | src/NFLSchedule.py:198-224 | the result is the assignment's error, now cached; a cached error other than −1 is returned unchanged |
| EarlySearch.ErrorAll | src/genetic_algorithm.py:36 | get_error on every member changes no assignment, makes every cached error current and keeps errors already cached |
| EarlySearch.SortByError | src/genetic_algorithm.py:36 | sorting returns a rearrangement of the members with ascending errors |
| EarlySearch.EvaluateAndSort | src/genetic_algorithm.py:36 | the sorted population has the same size, current errors in ascending order, and every member that was already current |
| EarlySearch.ParentWeights | src/genetic_algorithm.py:9-21 | the weights are the inverted ranks of the ascending errors, all positive |
| EarlySearch.Contains | src/genetic_algorithm.py:50 | `in` is true iff some member has an equal assignment |
| EarlySearch.EliteKeepsFirst | src/genetic_algorithm.py:48-55 | the elitist scan always keeps the first individual |
| EarlySearch.Elitists | src/genetic_algorithm.py:47-55 | the elitists are the members at the positions the elitist scan keeps, and the first member is always one of them |
| EarlySearch.ShuffledCopy | src/genetic_algorithm.py:33-35 | a copy shuffled at least once is the old assignment after the drawn swaps, with error −1 |
| EarlySearch.InitialCopies | src/genetic_algorithm.py:33-35 | the initial population has pop_size members, each the base assignment after its own drawn swaps, error −1 |
| EarlySearch.MakeChild | src/genetic_algorithm.py:62-71 | a child is a copy of a positive-weight parent after 1 to 3 drawn swaps, error −1 |
| EarlySearch.Breed | src/genetic_algorithm.py:59-74 | count children are made, each a copy of a positive-weight parent after 1 to 3 drawn swaps |
| EarlySearch.NextGeneration | src/genetic_algorithm.py:46-82 | the next population has the same size, current errors in ascending order, and a best error no larger than before |
| EarlySearch.BestNotWorse | src/genetic_algorithm.py:80-81 | the first error of a sorted population is at most any member's error |
| EarlySearch.TablesOf | src/NFLSchedule.py:22-29 | the tables are the schedule's matchups, team count and hosts |
| EarlySearch.Evolve | src/genetic_algorithm.py:39-82 | the population keeps its size, current errors and order; the loop is done iff the best error is 0; the best error never increases across generations |
| EarlySearch.GeneticAlgorithm | src/genetic_algorithm.py:6-82 | the final population has pop_size members sorted by ascending current error; done iff its best error is 0; the best error never increases |
| CrossoverSearch.MinError | schedule_generator.py:31 | the result is one member's error and no member's error is smaller |
| CrossoverSearch.MinIsFirst | schedule_generator.py:27-31 | in a population sorted by ascending error the minimum is the first error |
| CrossoverSearch.Offspring | src/NFLSchedule.py:94-113 | the child of two permutations is again a permutation and is their one-point crossover at some split, repaired |
| CrossoverSearch.MakeChild | schedule_generator.py:40-45 | a child is the crossover of two positive-weight parents, followed by at most one drawn swap, with error −1 |
| CrossoverSearch.NextGeneration | schedule_generator.py:37-47 | the next population keeps its size, current errors in ascending order, and a best error no larger than before |
| CrossoverSearch.LinearTotal | schedule_generator.py:10-11 | the linear weights give the first individual a positive weight and have a positive total |
| CrossoverSearch.Evolve | schedule_generator.py:30-47 | the population keeps 128 members with current, ascending errors; the loop is done iff the minimum error is 0; the minimum error never increases |
| CrossoverSearch.GeneticAlgorithm | schedule_generator.py:5-47 | the final population has 128 members sorted by ascending current error; done iff its minimum error is 0; the minimum error never increases |
| WebFilters.MatchupFilterLocal | web/utils/filters/matchup_filter.py:2-11 | the matchup filter reads only its own gameslot: changing another gameslot's matchup keeps it applicable with the same answer |
| WebFilters.OpenerFilterLocal | web/utils/filters/opener.py:3-10 | replacing another week, another game of week 1, or the year and score leaves the opener filter's answer unchanged, and making the opener the away team of week 1's first game makes the listing pass |
| WebSchedules.WeekSizeBounds | web/utils/utils.py:23 | every week of the listing has between 13 and 16 games |
| WebSchedules.WeekGames | web/utils/utils.py:198-199 | a week has exactly its listed number of games |
| WebSchedules.LabelWeek | web/utils/utils.py:200-215 | every game of the week gets exactly one day label appended, the one its week and place call for |
| WebSchedules.DecodeMatchups | web/utils/utils.py:176-220 | the decoded map is the schedule's weeks 1 to 17, each its consecutive run of gameslot matchups with day labels |
| WebSchedules.DecodeWeek | web/utils/utils.py:198-216 | one pass of the week loop yields exactly week w's games |
| WebSchedules.DecodedStep | web/utils/utils.py:216 | adding week w + 1 to the weeks 1 to w gives the weeks 1 to w + 1 |
| WebSchedules.OrderedMatchups | web/utils/utils.py:188-192 | the list holds, for every gameslot in increasing order, the [home, away] entry of the matchup played there |
| WebSchedules.SlicedWeek | web/utils/utils.py:197-199 | labelling week w's slice of the ordered matchups gives that week's games |
| WebSchedules.DecodedShape | web/utils/utils.py:176-220 | the decoded schedule has weeks 1 to 17 of the listed sizes, and every gameslot's matchup appears in its own week at its own place with one label |
| WebSchedules.RegularWeekLabels | web/utils/utils.py:201-212 | in an ordinary week the first game is Thursday night, the last two Sunday night and Monday night, the rest Sunday |
| WebSchedules.SpecialWeekLabels | web/utils/utils.py:204-215 | the first three games of the Thanksgiving week are Thanksgiving games; every game of the final week is on Sunday |
| WebSchedules.OpenerOnDecoded | web/utils/filters/opener.py:9-10 | on a decoded schedule the opener filter applies and accepts iff the away team at gameslot 0 is the opener |
| WebSchedules.GameslotMap | web/utils/utils.py:142-149 | the map's keys are the row's gameslots, each mapped to the last matchup listed at it |
| WebSchedules.GameslotMatchups | web/utils/utils.py:148-149 | the row loop builds exactly that map |
| WebSchedules.PermutationMap | web/utils/utils.py:142-149 | on a stored schedule the map is the inverse permutation, and it can be decoded |
| WebSchedules.PermutationKeys | web/utils/utils.py:148-149 | on a stored schedule the map's keys are exactly the 256 gameslots |
| WebSchedules.MatchupFilterOnRow | web/utils/filters/matchup_filter.py:10-11 | on a stored schedule a matchup filter applies and accepts iff the schedule plays the wanted matchup at the filter's gameslot |
| WebSchedules.RequestedFilters | web/utils/utils.py:118-126 | there is at most one filter per argument, each on the shared matchup table and at one of the requested gameslots |
| WebSchedules.BuildFilters | web/utils/utils.py:118-126 | the filters are those of the opener and the three Thanksgiving arguments in order, skipping ["All"] |
| WebSchedules.FilterArgsSplit | web/utils/utils.py:119-126 | the filters of the four arguments are those of the opener at gameslot 0, then of the Thanksgiving games at 161, 162 and 163 |
| WebSchedules.AddFilter | web/utils/utils.py:119-120 | a filter is appended exactly when the argument is not ["All"] |
| WebSchedules.Acceptable | web/utils/utils.py:151-157 | the early-exit test is true iff every filter accepts the schedule |
| WebSchedules.RequestedMeaning | web/utils/utils.py:118-157 | a schedule passes the requested filters iff each argument is ["All"] or is the matchup played at its gameslot |
| WebSchedules.TestableApplicable | web/utils/utils.py:152-154 | filters on the full table at real gameslots apply to every stored schedule |
| WebSchedules.KeptPrefix | web/utils/utils.py:139-167 | the listings of a prefix of the rows are a prefix of those of all rows |
| WebSchedules.LimitFacts | web/utils/utils.py:166-167 | the limit keeps a prefix: exactly min(limit, all) listings for a positive limit, all of them for None |
| WebSchedules.GetSchedules | web/utils/utils.py:99-173 | the result is the decoded listing of every row all requested filters accept, in row order, cut at num_schedules |
| WebSchedules.ListRows | web/utils/utils.py:139-167 | the row loop lists exactly the accepted rows' listings in order, cut at a positive limit |
| WebSchedules.ListStep | web/utils/utils.py:139-167 | one pass either extends the listings of the rows so far by this row's, staying below the limit, or stops with exactly the limited listing of all rows |
| WebSchedules.KeptStep | web/utils/utils.py:160-165 | one more row adds only its own listing after those of the earlier rows |
| WebSchedules.LimitReached | web/utils/utils.py:166-167 | once the limit n is reached the collected listings are the first n of all rows |
| WebSchedules.ListRow | web/utils/utils.py:141-165 | one row yields its decoded listing when every filter accepts it and nothing otherwise, so at most one listing |
| WebSchedules.FirstIndex | web/utils/utils.py:85-90 | the result is the first position holding the value, or the length when none does |
| WebSchedules.Place | web/utils/utils.py:85-90 | matchup i is added to exactly the list of the first position requesting its gameslot, only if absent, so every list stays free of repeats |
| WebSchedules.GetMatchups | web/utils/utils.py:53-96 | for each requested gameslot (only its first occurrence counts) the list holds, without repeats, exactly the matchups some row plays there |
| WebDatabase.LexIrreflexive | web/database/utils.py:105 | no string key sorts before itself |
| WebDatabase.LexTransitive | web/database/utils.py:105 | string key order is transitive |
| WebDatabase.LexTotal | web/database/utils.py:105 | any two different string keys are ordered one way round |
| WebDatabase.LexOrder | web/database/utils.py:105 | Python's string order is a strict total order, so sorted() of the keys is well defined |
| WebDatabase.NatOrder | web/database/utils.py:105 | the numeric order on gameslots is a strict total order |
| WebDatabase.TenBeforeTwo | web/database/utils.py:105 | as strings, "10" sorts before "2" |
| WebDatabase.TokenMap | web/database/utils.py:100-103 | the dict's keys are the row's tokens, each mapped to the matchup at the last position carrying it |
| WebDatabase.SortedUnique | web/database/utils.py:105 | two increasing lists of the same keys are equal |
| WebDatabase.InKeyOrderUnique | web/database/utils.py:105 | a dict's values in increasing key order form exactly one list |
| WebDatabase.InsertKey | web/database/utils.py:105 | inserting a new key into an increasing list gives an increasing list of the old keys plus it |
| WebDatabase.SortKeys | web/database/utils.py:105 | sorting distinct keys gives an increasing list of the same keys |
| WebDatabase.FillRow | web/database/utils.py:100-103 | the row loop builds the dict and lists its distinct keys, one per token when the tokens are distinct |
| WebDatabase.DecodeRow | web/database/utils.py:99-108 | a decoded row keeps year and score and lists the dict's matchups in increasing key order |
| WebDatabase.DecodeSchedules | web/database/utils.py:85-110 | one decoded row per row in the same order, each with its matchups in key order and year and score unchanged |
| WebDatabase.LexicalOrderMisplaces | web/database/utils.py:105 | with string keys, matchup 0 at gameslot "2" and matchup 1 at "10" are listed as [matchup 1, matchup 0] |
| WebDatabase.KeysTenTwo | web/database/utils.py:105 | the sorted string keys "2" and "10" are ["10", "2"] |
| WebDatabase.SortedPair | web/database/utils.py:105 | two ordered keys form an increasing list |
| WebDatabase.TwoKeys | web/database/utils.py:100-103 | the dict of tokens "2" and "10" has those keys, mapped to matchups 0 and 1 |
| WebDatabase.GameslotOrderAligns | web/database/utils.py:105 | with numeric keys a stored schedule decodes to 256 entries, entry g being the matchup played at gameslot g |
| WebDatabase.TruncatedFacts | web/database/utils.py:75-76 | the truncation is a prefix: all rows for None, min(n, all) for n ≥ 0, all but the last −n for negative n |
| WebDatabase.GetSchedules | web/database/utils.py:54-82 | the result decodes exactly the rows kept by the num_schedules slice, in order, keeping year and score; each row's matchups are listed in the lexical order of their gameslot strings |
| WebDatabase.GetSchedulesInGameslotOrder | web/database/utils.py:54-82 | the same, with the gameslot keys ordered as numbers; for a row holding a full assignment, position g of the listing is the matchup assigned to gameslot g |
| WebDatabase.WeekHeaders | web/database/utils.py:127-131 | a week has exactly one header per game |
| WebDatabase.AppendWeek | web/database/utils.py:127-131 | one pass of the week loop appends that week's headers |
| WebDatabase.GameslotHeaders | web/database/utils.py:113-133 | the headers are those of weeks 1 to 17 in order |
| WebDatabase.HeadersUpToLength | web/database/utils.py:126-131 | the first w weeks give as many headers as they have gameslots |
| WebDatabase.HeaderAtUpTo | web/database/utils.py:126-131 | header g of the first w weeks names gameslot g's week and its day in that week |
| WebDatabase.HeaderAt | web/database/utils.py:113-133 | there are 256 headers and header g names gameslot g's week and day |
| WebDatabase.HeadersInWeekOrder | web/database/utils.py:113-133 | the headers' week numbers never decrease |
| WebDatabase.WeekHeaderCounts | web/database/utils.py:127-131 | each week has one Thursday, one Sunday night and one Monday night header, and the rest Sunday |

## Left out

- Database access, file reading and the scripts are not modelled. This covers pymysql
  connections and queries, `get_num_schedules`, `NFLSchedule.init` reading the matchup CSV, the
  Flask application in web/app.py and the command-line scripts. The searches start from a given
  schedule object, and the web functions take the fetched rows as a list.
- Parsing text (`strip`, `split(',')`, `int(...)`) is not modelled. A row arrives already split
  into tokens: integers in `WebSchedules`, and keys of any ordered type in `WebDatabase`.
- Floating point is not modelled:
  - The normalised reproduction probabilities become integer weights with the same ratios.
  - The uniform draw against cumulative probabilities becomes a uniform integer draw against
    cumulative weights.
  - `random() < p` becomes a percent draw below 100·p.
  - Scores are integers, and the web listing keeps the stored score as a number rather than the
    text `"%.3f" % score`.
- Column headers are the pair (week number, day) rather than the text `"Week %d - TH"`.
- `print` progress output is not modelled.
- The searches' `while True` loops run for at most `generations` generations, a parameter. What
  a search reports when the budget runs out is stated, but the model says nothing about
  termination beyond that budget.
- MonoSearch.GeneticAlgorithm: the population is a sequence of values (an assignment and its
  cached score), not a list of objects. Aliasing between population slots and in-place cache
  updates on shared objects are therefore not captured.
- EarlySearch.GeneticAlgorithm: the population is a sequence of values (an assignment and its
  cached error), so aliasing and in-place cache updates are not captured. The source function
  returns nothing; the model returns the final population and the done flag so that its
  contract can state what the loop leaves behind.
- CrossoverSearch.GeneticAlgorithm: the population is a sequence of values (an assignment and its
  cached error), so aliasing and in-place cache updates are not captured. The source function
  returns nothing; the model returns the final population and the done flag so that its
  contract can state what the loop leaves behind.
- Sorting with Python's `sorted` (a stable sort) is modelled as a stable insertion sort. Only its
  result matters: a stable rearrangement ordered by the key.
- `decode_matchups` rewrites the caller's dict in place. The model builds the ordered list of
  matchups as a new value and leaves the caller's map unchanged.
- score_calculator.py passes team names where `fixed_home_game`, `shared_stadium` and
  `get_matchup_index` expect indices. As written this fails at run time. The evaluator is
  modelled over the team indices that the constants module defines.
- international_bye.py imports an `international_gameslots` list that the constants module does
  not define. It also reads `schedule.gameslot_matchup`, which no schedule object sets. The model
  takes the gameslot list as a parameter. Heuristics.ScheduleNoBye applies the heuristic to a
  schedule's matrices with `gameslot_matchup` read as the inverse of the assignment.
- The schedule objects' `Resolved()` precondition is a modelling assumption, not a check the
  source makes. It says the team names the error computation looks up are in the team
  dictionary. In the source a missing name raises `KeyError`.
- schedule_generator/main.py calls `genetic_algorithm` with an `init_shuffles` argument that the
  function does not accept. That script is not part of this model.
- schedule_acceptability.py and update_scores.py are database scripts and are not part of this
  model.

## Findings

| source | as written | input that shows it | evidently intended | confidence | as-written member | corrected member |
|---|---|---|---|---|---|---|
| web/database/utils.py:105 | `decode_schedules` sorts the gameslot keys as strings, so gameslot "10" is listed before gameslot "2" | matchup 0 at gameslot "2" and matchup 1 at gameslot "10" decode as [matchup 1, matchup 0] | list the matchups in numeric gameslot order, which the column headers of `get_gameslot_headers` and the `int()` keys of web/utils/utils.py:149 follow | medium, not executed | WebDatabase.LexicalOrderMisplaces, WebDatabase.GetSchedules | WebDatabase.GameslotOrderAligns, WebDatabase.GetSchedulesInGameslotOrder |
