# padel-americano, modelled in Dafny

The program looks for a fair Americano padel schedule. Twelve players with
ratings play 11 rounds on 3 courts, four to a court, two against two. A fixed
seating template (`lineup`) says which position of the player list sits in
which seat of which court in every round. The program shuffles the roster
many times. It scores every shuffle by the worst and the mean rating
imbalance over all 33 matches, and it keeps the shuffle with the smallest
worst imbalance.

The model has one module per concern:

- `Roster` (`roster.dfy`): the player record, the twelve players with their
  ratings, and the constants 11 rounds and 3 courts.
- `Template` (`template.dfy`): the seating template, the seat lookup
  `getPlayer`, and the proof that every round seats each list position
  exactly once.
- `Shuffle` (`shuffle.dfy`): `shufflePlayers` copies the roster into a new
  array and runs the Fisher–Yates shuffle of `rand.Shuffle` on it in place.
  The random draws are a parameter. The shuffle is proved a permutation.
  It is also proved able to reach every order of the roster.
- `Scoring` (`scoring.dfy`): `listStat`'s nested loops, proved against a
  specification. The worst imbalance is a running maximum over the table
  of court differences. The mean is a running sum divided by 33.
- `Search` (`search.dfy`): the best-tracking loop of `main`. The
  replacement rule is modelled as written, zero sentinel included. It is
  specified by a left fold `BestOf` over the scored trials.

Ratings are exact reals. The random source is an explicit sequence of
draws: draw `i` of a shuffle is the index in `[0, i]` that `rand.Shuffle`
would pick at its step `i`. The roster is an immutable sequence. Each shuffle
works on its own fresh array, so the roster is never changed.

The replacement rule treats a kept worst imbalance of exactly 0 as "nothing
kept yet", so a trial that balanced every match would be replaced by the
next one whatever it scored. With this roster and lineup that never happens.
Courts 0 of round 0, 1 of round 1 and 0 of round 6 have signed differences
that add up to the rating at list position 5 minus the rating at position 2.
Those two ratings differ because the twelve ratings are distinct. So every
trial has a positive worst imbalance (`Scoring.NoArrangementBalancesEveryCourt`).
After the first trial the zero test never fires. The kept worst imbalance
never grows (`Search.SearchNeverWorsens`), and the search keeps the earliest
trial with the smallest worst imbalance (`Search.SearchKeepsEarliestMinimum`).
The lemmas about the zero test (`Search.ZeroBestIsDiscarded`,
`Search.SentinelCanRaiseBest`) describe the rule of main.go:108 for any
scores, not a behaviour this roster can show.

## Model

| member | source | states |
|---|---|---|
| Roster.RatingsIncrease | main.go:16-29 | the ratings go up strictly along the roster |
| Roster.RatingsDistinct | main.go:16-29 | two different players of the roster have different ratings |
| Template.LineupWellFormed | main.go:32-88 | the template has 11 rounds of 3 courts of 4 seats, and every seat holds a list index in 0..11 |
| Template.LineupCoversEachSeatOncePerRound | main.go:32-88 | in every round the 12 seats name each list index 0..11 exactly once |
| Template.RoundCovers | main.go:32-88 | round r of the template seats each index exactly once, for any r < 11 |
| Template.Seat | main.go:120 | the template entry for a round, court and position is an index into the 12-player list |
| Template.GetPlayer | main.go:119-122 | the player in a seat is the list entry at the position the template gives for that seat |
| Template.ThreeCourtSeats | main.go:33-67 | court 0 of round 0 seats positions 11, 4 against 3, 2; court 1 of round 1 seats 3, 10 against 11, 1; court 0 of round 6 seats 5, 1 against 4, 10 |
| Template.PickPermutes | main.go:119-122 | reading a list through seats that name each index once gives a rearrangement of the list |
| Template.EveryPlayerOncePerRound | main.go:32-88 | the 12 players seated in one round are exactly the players of the list, each once |
| Shuffle.Swap | main.go:128 | swapping exchanges positions i and j and leaves every other position as it was |
| Shuffle.SwapPermutes | main.go:128 | a swap keeps the multiset of elements |
| Shuffle.ShuffleDown | main.go:127-129 | the Fisher–Yates steps i down to 1, step k swapping positions k and draw k, keep the length and leave the positions above i untouched |
| Shuffle.Shuffled | main.go:127-129 | the full shuffle of a list keeps its length |
| Shuffle.ShuffleDownPermutes | main.go:127-129 | the shuffle steps i down to 1 keep the multiset of elements |
| Shuffle.ShuffledPermutes | main.go:127-129 | the shuffled list has the roster's length and is a permutation of it |
| Shuffle.ShuffleDownReadsDrawsUpTo | main.go:127-129 | the steps i down to 1 depend only on the draws at positions 0..i |
| Shuffle.EveryOrderReachable | main.go:127-129 | every rearrangement of the list is produced by some valid sequence of draws |
| Shuffle.PermutationKeepsDistinct | main.go:124-131 | a rearrangement of a list without repeats has no repeats |
| Shuffle.ShuffleInPlace | main.go:127-129 | swapping in place over the array leaves exactly the shuffle of its old contents |
| Shuffle.ShufflePlayers | main.go:124-131 | returns a new array holding the shuffled roster, a permutation of the roster |
| Scoring.CourtDiff | main.go:138-143 | a match's imbalance is non-negative and is the difference of the two teams' rating sums, one way or the other |
| Scoring.RunningMaxBounds | main.go:144-146 | the running maximum is at least 0 and at least every difference visited so far |
| Scoring.RunningMaxWitness | main.go:144-146 | when no entry of the table is negative, once a court has been visited the running maximum equals the difference of some visited court |
| Scoring.RunningSumBounds | main.go:147-148 | after n visited courts with differences in [0, m], the running sum lies in [0, n·m] |
| Scoring.CourtDiffsAt | main.go:136-143 | the table the loops walk holds, at (r, c), the imbalance of court c in round r |
| Scoring.MaxDiff | main.go:133-153 | the worst imbalance `listStat` returns, defined as the zero-started running maximum of the 33 court differences in loop order |
| Scoring.AvgDiff | main.go:133-153 | the mean imbalance `listStat` returns, defined as the running sum of the 33 court differences divided by 33 |
| Scoring.MaxDiffBoundsEveryCourt | main.go:136-146 | the worst imbalance is at least the imbalance of every match |
| Scoring.MaxDiffIsSomeCourt | main.go:136-146 | the worst imbalance is the imbalance of some match |
| Scoring.AvgDiffAtMostMaxDiff | main.go:134-151 | the mean imbalance lies between 0 and the worst imbalance |
| Scoring.StatsProperties | main.go:133-153 | the worst imbalance bounds every match and is attained by one, and the mean lies between 0 and the worst |
| Scoring.ArrangementRatingsDistinct | main.go:16-29 | in any rearrangement of the roster, players at different positions have different ratings |
| Scoring.SignedDiffsAddUp | main.go:33-67 | the signed differences of court 0 in round 0, court 1 in round 1 and court 0 in round 6 add up to the rating at position 5 minus the rating at position 2 |
| Scoring.MaxDiffBoundsSignedDiff | main.go:136-146 | the worst imbalance bounds each match's team-sum difference taken either way round |
| Scoring.NoArrangementBalancesEveryCourt | main.go:133-153 | no rearrangement of the roster balances every match: its worst imbalance is positive |
| Scoring.ListStat | main.go:133-153 | the loops return the worst and the mean imbalance of the list and change nothing; the worst bounds every match and is attained, and 0 <= mean <= worst |
| Search.TrialsArePermutations | main.go:104 | every trial's list is a rearrangement of the roster |
| Search.Keep | main.go:108-112 | one step of the search keeps either the candidate or the old state, whole; the result is never worse than the candidate, and never worse than a nonzero old state |
| Search.NoTrialScoresZero | main.go:104-105 | every trial has a positive worst imbalance |
| Search.KeptListPermutes | main.go:108-112 | after at least one trial, the kept list is a rearrangement of the roster |
| Search.FirstTrialAdopted | main.go:108 | the first trial is kept, whatever it scores |
| Search.ZeroBestIsDiscarded | main.go:108 | a kept worst imbalance of exactly 0 is replaced by the next trial, whatever it scores |
| Search.StrictImprovementReplaces | main.go:108-112 | a trial with a strictly smaller worst imbalance replaces the kept one |
| Search.TiesKeepEarlier | main.go:108 | a trial that is no better (a tie included) leaves a nonzero kept state unchanged |
| Search.NonIncreasingWhileNonzero | main.go:108-112 | the kept worst imbalance never grows between two trials while it stays nonzero in between |
| Search.SentinelCanRaiseBest | main.go:108-112 | after a trial scoring 0, a worse trial is kept and the kept worst imbalance grows |
| Search.BestIsATrial | main.go:108-112 | after at least one trial, the kept mean, worst and list all come from the same trial |
| Search.BestIsEarliestMinimum | main.go:103-113 | when no trial scores 0, the kept trial has the smallest worst imbalance, and every earlier trial is strictly worse |
| Search.SearchNeverWorsens | main.go:103-113 | from the first trial on, the kept worst imbalance never grows |
| Search.SearchKeepsEarliestMinimum | main.go:103-113 | after at least one trial, the search keeps the trial with the smallest worst imbalance, every earlier trial being strictly worse |
| Search.RunTrial | main.go:104-105 | one trial is a fresh shuffled array and its scores, as the scoring functions give them |
| Search.Search | main.go:96-117 | the loop ends with the state the fold `BestOf` reaches on the trials; nothing is kept exactly when there were no trials, and otherwise the kept list is a rearrangement of the roster |

## Left out

- Printing: the per-trial line, the final summary and `printList` are
  output only (main.go:106, 115-116, 155-169).
- Randomness: the draws of `rand.Shuffle` are a parameter. The model proves
  every order reachable, but it does not model the uniform distribution.
- Floating point: ratings, sums and the mean are exact reals. float64
  rounding, such as 1.0 + 1.2 not being exact, is not modelled. A
  comparison that is a tie over the reals may not be one in float64.
- The trial count `numAttemps` (one million) is the length of the `draws`
  parameter of `Search.Search`.
- The template's source comment (a URL to the site that generated it)
  carries no behaviour.
- Search.Search: Go's `bestList` is a nil slice until the first trial. The
  model uses a null array, and `Contents` reads it as the empty list.
