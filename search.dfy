/** The search of the main program: shuffle the roster many times, score
    every shuffle and keep the best one seen. A candidate replaces the kept
    one when the kept worst imbalance is exactly 0 (which is also its value
    before the first trial) or when the candidate's worst imbalance is
    strictly smaller. */
module Search {
  import opened Roster
  import opened Shuffle
  import opened Scoring

  /** A scored candidate, and the state the search keeps: the mean and the
      worst court imbalance of a list, and the list itself. */
  datatype Best = Best(avg: real, max: real, list: seq<Player>)

  /** The state before the first trial: both scores 0 and no list. */
  const Unset: Best := Best(0.0, 0.0, [])

  /** The scores of one candidate list, as the scoring step computes them. */
  function Score(list: seq<Player>): Best
    requires NumPlayers <= |list|
  {
    Best(AvgDiff(list), MaxDiff(list), list)
  }

  /** One step of the search: the candidate replaces the kept state, all
      three parts together, when the kept worst imbalance is 0 or the
      candidate's is strictly smaller; otherwise the kept state stays. */
  function Keep(best: Best, cand: Best): (b: Best)
    ensures b == cand || b == best
    ensures b.max <= cand.max
    ensures best.max != 0.0 ==> b.max <= best.max
  {
    if best.max == 0.0 || cand.max < best.max then cand else best
  }

  /** The state after considering the candidates in order. */
  function BestOf(cands: seq<Best>): Best
  {
    if cands == [] then Unset else Keep(BestOf(cands[..|cands| - 1]), cands[|cands| - 1])
  }

  /** The scored candidates of a run whose a-th shuffle uses `draws[a]`. */
  function Trials(draws: seq<seq<nat>>): seq<Best>
    requires forall a :: 0 <= a < |draws| ==> ValidDraws(draws[a], NumPlayers)
  {
    seq(|draws|, (a: nat) requires a < |draws| => Score(Shuffled(Players, draws[a])))
  }

  /** Every trial scores a list that is a rearrangement of the roster. */
  lemma TrialsArePermutations(draws: seq<seq<nat>>, a: nat)
    requires forall a :: 0 <= a < |draws| ==> ValidDraws(draws[a], NumPlayers)
    requires a < |draws|
    ensures |Trials(draws)[a].list| == NumPlayers
    ensures multiset(Trials(draws)[a].list) == multiset(Players)
  {
    ShuffledPermutes(Players, draws[a]);
  }

  /** After at least one trial, the kept list is a rearrangement of the
      roster. */
  lemma KeptListPermutes(draws: seq<seq<nat>>)
    requires forall a :: 0 <= a < |draws| ==> ValidDraws(draws[a], NumPlayers)
    requires draws != []
    ensures multiset(BestOf(Trials(draws)).list) == multiset(Players)
  {
    var a := BestIsATrial(Trials(draws));
    TrialsArePermutations(draws, a);
  }

  /** Considering one more candidate is one step of `Keep`. */
  lemma BestOfAppend(cands: seq<Best>, c: Best)
    ensures BestOf(cands + [c]) == Keep(BestOf(cands), c)
  {
    assert (cands + [c])[..|cands|] == cands;
  }

  /** Considering the a-th candidate is one step of `Keep`. */
  lemma BestOfStep(cands: seq<Best>, a: nat)
    requires a < |cands|
    ensures BestOf(cands[..a + 1]) == Keep(BestOf(cands[..a]), cands[a])
  {
    assert cands[..a + 1][..a] == cands[..a];
  }

  /** Taking every candidate is considering the whole sequence. */
  lemma BestOfWhole(cands: seq<Best>)
    ensures BestOf(cands[..|cands|]) == BestOf(cands)
  {
    assert cands[..|cands|] == cands;
  }

  /** The first trial is adopted whatever its scores. */
  lemma FirstTrialAdopted(cands: seq<Best>)
    requires cands != []
    ensures BestOf(cands[..1]) == cands[0]
  {
    BestOfAppend([], cands[0]);
    assert cands[..1] == [] + [cands[0]];
  }

  /** A kept worst imbalance of 0 is replaced by the next candidate,
      whatever that candidate scores. */
  lemma ZeroBestIsDiscarded(cands: seq<Best>, c: Best)
    requires BestOf(cands).max == 0.0
    ensures BestOf(cands + [c]) == c
  {
    BestOfAppend(cands, c);
  }

  /** After the first trial, a candidate with a strictly smaller worst
      imbalance replaces the kept state. */
  lemma StrictImprovementReplaces(cands: seq<Best>, c: Best)
    requires c.max < BestOf(cands).max
    ensures BestOf(cands + [c]) == c
  {
    BestOfAppend(cands, c);
  }

  /** A candidate that is no better (a tie included) leaves a nonzero kept
      state as it was: the earlier candidate wins. */
  lemma TiesKeepEarlier(cands: seq<Best>, c: Best)
    requires BestOf(cands).max != 0.0 && BestOf(cands).max <= c.max
    ensures BestOf(cands + [c]) == BestOf(cands)
  {
    BestOfAppend(cands, c);
  }

  /** The kept worst imbalance never grows from one trial to a later one as
      long as it stays nonzero in between. */
  lemma {:induction false} NonIncreasingWhileNonzero(cands: seq<Best>, k: nat, m: nat)
    requires k <= m <= |cands|
    requires forall j :: k <= j < m ==> BestOf(cands[..j]).max != 0.0
    ensures BestOf(cands[..m]).max <= BestOf(cands[..k]).max
  {
    if m > k {
      NonIncreasingWhileNonzero(cands, k, m - 1);
      assert cands[..m] == cands[..m - 1] + [cands[m - 1]];
      BestOfAppend(cands[..m - 1], cands[m - 1]);
    }
  }

  /** The sentinel lets the kept worst imbalance grow: after a candidate
      scoring 0, any later candidate is adopted, even a worse one. */
  lemma SentinelCanRaiseBest(z: Best, c: Best)
    requires z.max == 0.0 && 0.0 < c.max
    ensures BestOf([z]).max < BestOf([z, c]).max
  {
    FirstTrialAdopted([z]);
    assert [z, c] == [z] + [c];
    ZeroBestIsDiscarded([z], c);
  }

  /** After at least one trial, the kept state is one of the candidates,
      its list and both scores coming from the same trial. */
  lemma {:induction false} BestIsATrial(cands: seq<Best>) returns (i: nat)
    requires cands != []
    ensures i < |cands| && BestOf(cands) == cands[i]
  {
    var n := |cands| - 1;
    assert cands == cands[..n] + [cands[n]];
    BestOfAppend(cands[..n], cands[n]);
    if n == 0 || BestOf(cands) == cands[n] {
      i := n;
    } else {
      i := BestIsATrial(cands[..n]);
    }
  }

  /** When no candidate scores 0, the kept state is the first of the
      candidates with the smallest worst imbalance. */
  lemma {:induction false} BestIsEarliestMinimum(cands: seq<Best>) returns (i: nat)
    requires cands != []
    requires forall j :: 0 <= j < |cands| ==> cands[j].max != 0.0
    ensures i < |cands| && BestOf(cands) == cands[i]
    ensures forall j :: 0 <= j < |cands| ==> cands[i].max <= cands[j].max
    ensures forall j :: 0 <= j < i ==> cands[i].max < cands[j].max
  {
    var n := |cands| - 1;
    assert cands == cands[..n] + [cands[n]];
    BestOfAppend(cands[..n], cands[n]);
    if n == 0 {
      FirstTrialAdopted(cands);
      i := 0;
    } else {
      i := BestIsEarliestMinimum(cands[..n]);
      if cands[n].max < cands[i].max {
        i := n;
      }
    }
  }

  /** No trial balances every match: its worst imbalance is positive. */
  lemma NoTrialScoresZero(draws: seq<seq<nat>>, a: nat)
    requires forall a :: 0 <= a < |draws| ==> ValidDraws(draws[a], NumPlayers)
    requires a < |draws|
    ensures 0.0 < Trials(draws)[a].max
  {
    TrialsArePermutations(draws, a);
    NoArrangementBalancesEveryCourt(Trials(draws)[a].list);
  }

  /** With this roster and lineup the zero test only fires on the first
      trial, so the search keeps the earliest trial with the smallest worst
      imbalance: every trial is at least as bad, every earlier one worse. */
  lemma SearchKeepsEarliestMinimum(draws: seq<seq<nat>>) returns (i: nat)
    requires forall a :: 0 <= a < |draws| ==> ValidDraws(draws[a], NumPlayers)
    requires draws != []
    ensures i < |draws| && BestOf(Trials(draws)) == Trials(draws)[i]
    ensures forall a :: 0 <= a < |draws| ==> Trials(draws)[i].max <= Trials(draws)[a].max
    ensures forall a :: 0 <= a < i ==> Trials(draws)[i].max < Trials(draws)[a].max
  {
    var trials := Trials(draws);
    forall a | 0 <= a < |trials| ensures trials[a].max != 0.0 {
      NoTrialScoresZero(draws, a);
    }
    i := BestIsEarliestMinimum(trials);
  }

  /** With this roster and lineup the kept worst imbalance never grows from
      the first trial on. */
  lemma SearchNeverWorsens(draws: seq<seq<nat>>, k: nat, m: nat)
    requires forall a :: 0 <= a < |draws| ==> ValidDraws(draws[a], NumPlayers)
    requires 1 <= k <= m <= |draws|
    ensures BestOf(Trials(draws)[..m]).max <= BestOf(Trials(draws)[..k]).max
  {
    var trials := Trials(draws);
    forall j | k <= j < m ensures BestOf(trials[..j]).max != 0.0 {
      var a := BestIsATrial(trials[..j]);
      NoTrialScoresZero(draws, a);
    }
    NonIncreasingWhileNonzero(trials, k, m);
  }

  /** The list the search keeps: none before the first trial. */
  function Contents(list: array?<Player>): seq<Player>
    reads list
  {
    if list == null then [] else list[..]
  }

  /** One trial: shuffle a fresh copy of the roster and score it. */
  method RunTrial(draws: seq<seq<nat>>, a: nat) returns (list: array<Player>, maxDiff: real, avgDiff: real)
    requires forall a :: 0 <= a < |draws| ==> ValidDraws(draws[a], NumPlayers)
    requires a < |draws|
    ensures fresh(list)
    ensures Best(avgDiff, maxDiff, list[..]) == Trials(draws)[a]
  {
    list := ShufflePlayers(draws[a]);
    maxDiff, avgDiff := ListStat(list);
  }

  /** The search loop: `|draws|` trials, each shuffling a fresh copy of the
      roster with its draws and scoring it. The result is the state `BestOf`
      reaches on the trials; after at least one trial, the kept list is a
      rearrangement of the roster. */
  method Search(draws: seq<seq<nat>>) returns (bestAvg: real, bestMax: real, bestList: array?<Player>)
    requires forall a :: 0 <= a < |draws| ==> ValidDraws(draws[a], NumPlayers)
    ensures Best(bestAvg, bestMax, Contents(bestList)) == BestOf(Trials(draws))
    ensures bestList == null <==> draws == []
    ensures bestList != null ==> multiset(bestList[..]) == multiset(Players)
  {
    ghost var trials := Trials(draws);
    bestAvg, bestMax, bestList := 0.0, 0.0, null;
    for a := 0 to |draws|
      invariant bestList == null <==> a == 0
      invariant Best(bestAvg, bestMax, Contents(bestList)) == BestOf(trials[..a])
    {
      var list, maxDiff, avgDiff := RunTrial(draws, a);
      BestOfStep(trials, a);
      if bestMax == 0.0 || maxDiff < bestMax {
        bestAvg := avgDiff;
        bestMax := maxDiff;
        bestList := list;
      }
    }
    assert trials[..|draws|] == trials[..|trials|];
    BestOfWhole(trials);
    if bestList != null {
      KeptListPermutes(draws);
    }
  }
}
