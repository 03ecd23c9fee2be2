/** Scoring a candidate list: for every court of every round, the absolute
    difference between the two teams' rating sums; the score is the largest
    of these differences and their mean over all courts. */
module Scoring {
  import opened Roster
  import opened Template
  import opened Shuffle

  /** Number of matches in the lineup, the divisor of the mean. */
  const NumMatches: nat := NumRounds * NumCourts

  function Abs(x: real): (r: real)
    ensures r >= 0.0 && (r == x || r == -x)
  {
    if x < 0.0 then -x else x
  }

  /** Combined rating of one team on a court: team 0 holds seats 0 and 1,
      team 1 holds seats 2 and 3. */
  function TeamRating(list: seq<Player>, round: nat, court: nat, team: nat): real
    requires round < NumRounds && court < NumCourts && team < 2
    requires NumPlayers <= |list|
  {
    GetPlayer(list, round, court, 2 * team).rating + GetPlayer(list, round, court, 2 * team + 1).rating
  }

  /** How unbalanced one match is: the distance between the two teams'
      combined ratings. */
  function CourtDiff(list: seq<Player>, round: nat, court: nat): (d: real)
    requires round < NumRounds && court < NumCourts
    requires NumPlayers <= |list|
    ensures d >= 0.0
    ensures d == TeamRating(list, round, court, 0) - TeamRating(list, round, court, 1)
         || d == TeamRating(list, round, court, 1) - TeamRating(list, round, court, 0)
  {
    Abs(GetPlayer(list, round, court, 0).rating + GetPlayer(list, round, court, 1).rating
        - GetPlayer(list, round, court, 2).rating - GetPlayer(list, round, court, 3).rating)
  }

  /** A table with one entry per court of every round. */
  ghost predicate Shaped(t: seq<seq<real>>)
  {
    |t| == NumRounds && forall r :: 0 <= r < |t| ==> |t[r]| == NumCourts
  }

  /** The diffs of rounds `round` to the last, one row per round and one
      entry per court. */
  function CourtDiffsFrom(list: seq<Player>, round: nat): (t: seq<seq<real>>)
    requires round <= NumRounds && NumPlayers <= |list|
    ensures |t| == NumRounds - round && forall i :: 0 <= i < |t| ==> |t[i]| == NumCourts
    decreases NumRounds - round
  {
    if round == NumRounds then []
    else [seq(NumCourts, (c: nat) requires c < NumCourts => CourtDiff(list, round, c))] + CourtDiffsFrom(list, round + 1)
  }

  /** The diff of every court of every round of a candidate list. */
  function CourtDiffs(list: seq<Player>): (t: seq<seq<real>>)
    requires NumPlayers <= |list|
    ensures Shaped(t)
  {
    CourtDiffsFrom(list, 0)
  }

  /** Row r - round of `CourtDiffsFrom(list, round)` holds the diffs of round r. */
  lemma {:induction false} CourtDiffsFromAt(list: seq<Player>, round: nat, r: nat, c: nat)
    requires NumPlayers <= |list| && round <= r < NumRounds && c < NumCourts
    ensures CourtDiffsFrom(list, round)[r - round][c] == CourtDiff(list, r, c)
    decreases r - round
  {
    if round < r {
      CourtDiffsFromAt(list, round + 1, r, c);
    }
  }

  /** Entry (r, c) of the table is the diff of court c in round r. */
  lemma CourtDiffsAt(list: seq<Player>, r: nat, c: nat)
    requires NumPlayers <= |list| && r < NumRounds && c < NumCourts
    ensures CourtDiffs(list)[r][c] == CourtDiff(list, r, c)
  {
    CourtDiffsFromAt(list, 0, r, c);
  }

  /** Match (round', court') comes before match (round, court) in the order
      the scoring loop visits them: round after round, court after court. */
  predicate Before(round': nat, court': nat, round: nat, court: nat)
  {
    round' < round || (round' == round && court' < court)
  }

  /** A position the scoring loop can be at: before court `court` of round
      `round`, or done (round == NumRounds, court == 0). */
  predicate LoopPoint(round: nat, court: nat)
  {
    (round < NumRounds && court <= NumCourts) || (round == NumRounds && court == 0)
  }

  /** The largest entry of `t` over the matches visited before (round, court),
      starting from 0 as the source's zero-valued accumulator does. */
  function RunningMax(t: seq<seq<real>>, round: nat, court: nat): real
    requires Shaped(t) && LoopPoint(round, court)
    decreases round, court
  {
    if court == 0 then
      (if round == 0 then 0.0 else RunningMax(t, round - 1, NumCourts))
    else
      var m := RunningMax(t, round, court - 1);
      if t[round][court - 1] > m then t[round][court - 1] else m
  }

  /** The sum of the entries of `t` over the matches visited before (round, court). */
  function RunningSum(t: seq<seq<real>>, round: nat, court: nat): real
    requires Shaped(t) && LoopPoint(round, court)
    decreases round, court
  {
    if court == 0 then
      (if round == 0 then 0.0 else RunningSum(t, round - 1, NumCourts))
    else
      RunningSum(t, round, court - 1) + t[round][court - 1]
  }

  /** The worst-case imbalance of a candidate list. */
  function MaxDiff(list: seq<Player>): real
    requires NumPlayers <= |list|
  {
    RunningMax(CourtDiffs(list), NumRounds, 0)
  }

  /** The mean imbalance of a candidate list. */
  function AvgDiff(list: seq<Player>): real
    requires NumPlayers <= |list|
  {
    RunningSum(CourtDiffs(list), NumRounds, 0) / NumMatches as real
  }

  /** The running maximum is at least 0 and at least every entry visited. */
  lemma {:induction false} RunningMaxBounds(t: seq<seq<real>>, round: nat, court: nat)
    requires Shaped(t) && LoopPoint(round, court)
    ensures RunningMax(t, round, court) >= 0.0
    ensures forall r: nat, c: nat :: r < NumRounds && c < NumCourts && Before(r, c, round, court) ==>
      t[r][c] <= RunningMax(t, round, court)
    decreases round, court
  {
    if court == 0 {
      if round > 0 {
        RunningMaxBounds(t, round - 1, NumCourts);
      }
    } else {
      RunningMaxBounds(t, round, court - 1);
    }
  }

  /** Once a match has been visited, and when no entry is negative, the
      running maximum is the entry of a match already visited, which the
      lemma returns. */
  lemma {:induction false} RunningMaxWitness(t: seq<seq<real>>, round: nat, court: nat) returns (r: nat, c: nat)
    requires Shaped(t) && LoopPoint(round, court) && Before(0, 0, round, court)
    requires forall r, c :: 0 <= r < |t| && 0 <= c < |t[r]| ==> 0.0 <= t[r][c]
    ensures r < NumRounds && c < NumCourts && Before(r, c, round, court)
    ensures t[r][c] == RunningMax(t, round, court)
    decreases round, court
  {
    if court == 0 {
      r, c := RunningMaxWitness(t, round - 1, NumCourts);
    } else if round == 0 && court == 1 {
      r, c := 0, 0;
    } else {
      r, c := RunningMaxWitness(t, round, court - 1);
      if t[round][court - 1] > RunningMax(t, round, court - 1) {
        r, c := round, court - 1;
      }
    }
  }

  /** `n` copies of `m` added up. */
  function Times(n: nat, m: real): real
  {
    if n == 0 then 0.0 else Times(n - 1, m) + m
  }

  /** Adding up `n` copies of `m` multiplies `m` by `n`. */
  lemma {:induction false} TimesIsProduct(n: nat, m: real)
    ensures Times(n, m) == n as real * m
  {
    if n > 0 {
      TimesIsProduct(n - 1, m);
      assert (n - 1) as real * m + m == n as real * m;
    }
  }

  /** The running sum lies between 0 and `n` times `m`, `n` being the number
      of matches visited, when every entry is between 0 and `m`. */
  lemma {:induction false} RunningSumBounds(t: seq<seq<real>>, round: nat, court: nat, n: nat, m: real)
    requires Shaped(t) && LoopPoint(round, court) && n == round * NumCourts + court
    requires forall r, c :: 0 <= r < |t| && 0 <= c < |t[r]| ==> 0.0 <= t[r][c] <= m
    ensures 0.0 <= RunningSum(t, round, court) <= Times(n, m)
    decreases round, court
  {
    if court == 0 {
      if round > 0 {
        RunningSumBounds(t, round - 1, NumCourts, n, m);
      }
    } else {
      RunningSumBounds(t, round, court - 1, n - 1, m);
    }
  }

  /** No match is more unbalanced than `MaxDiff`. */
  lemma MaxDiffBoundsEveryCourt(list: seq<Player>)
    requires NumPlayers <= |list|
    ensures forall r: nat, c: nat :: r < NumRounds && c < NumCourts ==> CourtDiff(list, r, c) <= MaxDiff(list)
  {
    RunningMaxBounds(CourtDiffs(list), NumRounds, 0);
    forall r: nat, c: nat | r < NumRounds && c < NumCourts
      ensures CourtDiff(list, r, c) <= MaxDiff(list)
    {
      CourtDiffsAt(list, r, c);
    }
  }

  /** No entry of the diff table is negative. */
  lemma CourtDiffsNonNegative(list: seq<Player>)
    requires NumPlayers <= |list|
    ensures forall r, c :: 0 <= r < |CourtDiffs(list)| && 0 <= c < |CourtDiffs(list)[r]| ==> 0.0 <= CourtDiffs(list)[r][c]
  {
    forall r, c | 0 <= r < |CourtDiffs(list)| && 0 <= c < |CourtDiffs(list)[r]|
      ensures 0.0 <= CourtDiffs(list)[r][c]
    {
      CourtDiffsAt(list, r, c);
    }
  }

  /** Some match is exactly as unbalanced as `MaxDiff`. */
  lemma MaxDiffIsSomeCourt(list: seq<Player>)
    requires NumPlayers <= |list|
    ensures exists r: nat, c: nat :: r < NumRounds && c < NumCourts && CourtDiff(list, r, c) == MaxDiff(list)
  {
    CourtDiffsNonNegative(list);
    var r, c := RunningMaxWitness(CourtDiffs(list), NumRounds, 0);
    CourtDiffsAt(list, r, c);
  }

  /** The signed differences of court 0 in round 0, court 1 in round 1 and
      court 0 in round 6 add up to the rating at position 5 minus the rating
      at position 2. */
  lemma SignedDiffsAddUp(list: seq<Player>)
    requires NumPlayers <= |list|
    ensures (TeamRating(list, 0, 0, 0) - TeamRating(list, 0, 0, 1))
          + (TeamRating(list, 1, 1, 0) - TeamRating(list, 1, 1, 1))
          + (TeamRating(list, 6, 0, 0) - TeamRating(list, 6, 0, 1))
         == list[5].rating - list[2].rating
  {
    ThreeCourtSeats();
  }

  /** In a rearrangement of the roster, players at different positions have
      different ratings. */
  lemma ArrangementRatingsDistinct(list: seq<Player>, i: nat, j: nat)
    requires multiset(list) == multiset(Players)
    requires i < j < |list|
    ensures list[i].rating != list[j].rating
  {
    assert Distinct(Players) by {
      forall i, j | 0 <= i < j < |Players| ensures Players[i] != Players[j] {
        RatingsIncrease(i, j);
      }
    }
    PermutationKeepsDistinct(Players, list);
    assert list[i] in multiset(Players) && list[j] in multiset(Players);
    RatingsDistinct(list[i], list[j]);
  }

  /** The worst imbalance bounds the signed difference of every match, taken
      either way round. */
  lemma MaxDiffBoundsSignedDiff(list: seq<Player>, r: nat, c: nat)
    requires NumPlayers <= |list| && r < NumRounds && c < NumCourts
    ensures TeamRating(list, r, c, 0) - TeamRating(list, r, c, 1) <= MaxDiff(list)
    ensures TeamRating(list, r, c, 1) - TeamRating(list, r, c, 0) <= MaxDiff(list)
  {
    MaxDiffBoundsEveryCourt(list);
    assert CourtDiff(list, r, c) <= MaxDiff(list);
  }

  /** The rating gap between positions 5 and 2 is at most three times the
      worst imbalance, because three matches' signed differences add up to it. */
  lemma RatingGapBoundsMaxDiff(list: seq<Player>)
    requires NumPlayers <= |list|
    ensures list[5].rating - list[2].rating <= 3.0 * MaxDiff(list)
    ensures list[2].rating - list[5].rating <= 3.0 * MaxDiff(list)
  {
    SignedDiffsAddUp(list);
    MaxDiffBoundsSignedDiff(list, 0, 0);
    MaxDiffBoundsSignedDiff(list, 1, 1);
    MaxDiffBoundsSignedDiff(list, 6, 0);
  }

  /** No arrangement of the roster balances every match. Courts 0 of round 0,
      1 of round 1 and 0 of round 6 seat positions 11, 4 against 3, 2, then
      3, 10 against 11, 1, then 5, 1 against 4, 10; the three signed
      differences add up to the rating at position 5 minus the rating at
      position 2, which differ because the twelve ratings are distinct. So
      one of the three matches is unbalanced. */
  lemma NoArrangementBalancesEveryCourt(list: seq<Player>)
    requires |list| == NumPlayers && multiset(list) == multiset(Players)
    ensures 0.0 < MaxDiff(list)
  {
    ArrangementRatingsDistinct(list, 2, 5);
    RatingGapBoundsMaxDiff(list);
    PositiveFromGap(list[5].rating, list[2].rating, MaxDiff(list));
  }

  /** A bound on a nonzero gap, taken either way round, is positive. */
  lemma PositiveFromGap(a: real, b: real, m: real)
    requires a != b && a - b <= 3.0 * m && b - a <= 3.0 * m
    ensures 0.0 < m
  {
  }

  /** A sum of at most NumMatches times m, divided by NumMatches, is at most m. */
  lemma MeanAtMost(sum: real, m: real)
    requires 0.0 <= sum <= Times(NumMatches, m)
    ensures 0.0 <= sum / NumMatches as real <= m
  {
    TimesIsProduct(NumMatches, m);
    assert NumMatches as real == 33.0;
  }

  /** The mean imbalance is never negative and never above the worst one. */
  lemma AvgDiffAtMostMaxDiff(list: seq<Player>)
    requires NumPlayers <= |list|
    ensures 0.0 <= AvgDiff(list) <= MaxDiff(list)
  {
    var t := CourtDiffs(list);
    var m := MaxDiff(list);
    RunningMaxBounds(t, NumRounds, 0);
    forall r, c | 0 <= r < |t| && 0 <= c < |t[r]|
      ensures 0.0 <= t[r][c] <= m
    {
      CourtDiffsAt(list, r, c);
    }
    RunningSumBounds(t, NumRounds, 0, NumMatches, m);
    MeanAtMost(RunningSum(t, NumRounds, 0), m);
  }

  /** What the two statistics promise together. */
  lemma StatsProperties(list: seq<Player>)
    requires NumPlayers <= |list|
    ensures forall r: nat, c: nat :: r < NumRounds && c < NumCourts ==> CourtDiff(list, r, c) <= MaxDiff(list)
    ensures exists r: nat, c: nat :: r < NumRounds && c < NumCourts && CourtDiff(list, r, c) == MaxDiff(list)
    ensures 0.0 <= AvgDiff(list) <= MaxDiff(list)
  {
    MaxDiffBoundsEveryCourt(list);
    MaxDiffIsSomeCourt(list);
    AvgDiffAtMostMaxDiff(list);
  }

  /** Scores a candidate list: visits every court of every round, keeping the
      largest diff and the sum of diffs, then divides the sum by the number of
      matches. Reads the list and changes nothing. */
  method ListStat(list: array<Player>) returns (maxDiff: real, avgDiff: real)
    requires NumPlayers <= list.Length
    ensures maxDiff == MaxDiff(list[..]) && avgDiff == AvgDiff(list[..])
    ensures forall r: nat, c: nat :: r < NumRounds && c < NumCourts ==> CourtDiff(list[..], r, c) <= maxDiff
    ensures exists r: nat, c: nat :: r < NumRounds && c < NumCourts && CourtDiff(list[..], r, c) == maxDiff
    ensures 0.0 <= avgDiff <= maxDiff
  {
    var players := list[..];
    ghost var t := CourtDiffs(players);
    maxDiff := 0.0;
    var sumDiff := 0.0;
    var count := 0;
    for r := 0 to NumRounds
      invariant count == r * NumCourts
      invariant maxDiff == RunningMax(t, r, 0)
      invariant sumDiff == RunningSum(t, r, 0)
    {
      for c := 0 to NumCourts
        invariant count == r * NumCourts + c
        invariant maxDiff == RunningMax(t, r, c)
        invariant sumDiff == RunningSum(t, r, c)
      {
        var player1 := GetPlayer(players, r, c, 0);
        var player2 := GetPlayer(players, r, c, 1);
        var player3 := GetPlayer(players, r, c, 2);
        var player4 := GetPlayer(players, r, c, 3);
        var diff := Abs(player1.rating + player2.rating - player3.rating - player4.rating);
        CourtDiffsAt(players, r, c);
        if diff > maxDiff {
          maxDiff := diff;
        }
        sumDiff := sumDiff + diff;
        count := count + 1;
      }
    }
    avgDiff := sumDiff / count as real;
    StatsProperties(players);
  }
}
