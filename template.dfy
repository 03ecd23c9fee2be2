/** The hard-coded lineup template: for each of the 11 rounds and each of the
    3 courts, the four seat indices that play together there. A seat index
    refers to a position in a candidate list (a permutation of the roster). */
module Template {
  import opened Roster

  const Lineup: seq<seq<seq<int>>> := [
    [[11, 4, 3, 2], [8, 5, 7, 0], [10, 1, 6, 9]],
    [[8, 6, 4, 9], [3, 10, 11, 1], [2, 0, 7, 5]],
    [[3, 5, 2, 10], [7, 9, 4, 6], [8, 11, 0, 1]],
    [[4, 1, 11, 0], [8, 2, 9, 10], [6, 5, 7, 3]],
    [[7, 8, 3, 1], [11, 6, 4, 5], [10, 0, 9, 2]],
    [[11, 2, 6, 0], [3, 9, 7, 1], [8, 4, 5, 10]],
    [[5, 1, 4, 10], [8, 0, 6, 3], [7, 2, 11, 9]],
    [[8, 9, 11, 5], [7, 4, 2, 1], [6, 10, 3, 0]],
    [[4, 0, 7, 10], [11, 3, 9, 5], [8, 1, 6, 2]],
    [[5, 2, 6, 1], [8, 10, 7, 11], [9, 0, 4, 3]],
    [[8, 3, 4, 2], [9, 1, 5, 0], [7, 6, 11, 10]]
  ]

  /** A template of `rounds` rounds of `courts` courts of four seats, every
      seat index in [0, n). */
  ghost predicate WellFormed(t: seq<seq<seq<int>>>, rounds: nat, courts: nat, n: nat)
  {
    && |t| == rounds
    && (forall r :: 0 <= r < |t| ==> |t[r]| == courts)
    && (forall r, c :: 0 <= r < |t| && 0 <= c < |t[r]| ==> |t[r][c]| == SeatsPerCourt)
    && (forall r, c, p :: 0 <= r < |t| && 0 <= c < |t[r]| && 0 <= p < |t[r][c]| ==> 0 <= t[r][c][p] < n)
  }

  /** The lineup has 11 rounds of 3 courts of 4 seats, every seat index in
      [0, 12), so looking a seat up in a candidate list never goes out of bounds. */
  lemma LineupWellFormed()
    ensures WellFormed(Lineup, NumRounds, NumCourts, NumPlayers)
  {
  }

  /** The seat indices used in one round, court after court. */
  function Flatten(courts: seq<seq<int>>): (seats: seq<int>)
  {
    if courts == [] then [] else Flatten(courts[..|courts| - 1]) + courts[|courts| - 1]
  }

  /** With three courts, a round's seats are the courts' seats in order. */
  lemma FlattenThree(courts: seq<seq<int>>)
    requires |courts| == 3
    ensures Flatten(courts) == courts[0] + courts[1] + courts[2]
  {
    assert courts[..2][..1] == courts[..1];
    assert Flatten(courts[..1]) == courts[0];
  }

  /** `seats` lists each of the indices 0 .. n-1 exactly once. */
  ghost predicate EachSeatOnce(seats: seq<int>, n: nat)
  {
    && |seats| == n
    && (forall k :: 0 <= k < |seats| ==> 0 <= seats[k] < n)
    && (forall i, j :: 0 <= i < j < |seats| ==> seats[i] != seats[j])
    && (forall v :: 0 <= v < n ==> v in seats)
  }

  /** `where` inverts `seats`: seat index v sits at position where[v]. */
  ghost predicate Inverts(seats: seq<int>, where: seq<int>, n: nat)
  {
    && |seats| == n && |where| == n
    && (forall k :: 0 <= k < n ==> 0 <= seats[k] < n && where[seats[k]] == k)
    && (forall v :: 0 <= v < n ==> 0 <= where[v] < n && seats[where[v]] == v)
  }

  /** A two-sided inverse witnesses that every seat index is used exactly once. */
  lemma InverseMeansEachSeatOnce(seats: seq<int>, where: seq<int>, n: nat)
    requires Inverts(seats, where, n)
    ensures EachSeatOnce(seats, n)
  {
    forall v | 0 <= v < n ensures v in seats {
      assert seats[where[v]] == v;
    }
  }

  /** Each round of the lineup seats every index 0 .. 11 exactly once: one lemma
      per round, each showing where every seat index sits in that round. */
  lemma Round0Covers()
    ensures EachSeatOnce(Flatten(Lineup[0]), NumPlayers)
  {
    FlattenThree(Lineup[0]);
    InverseMeansEachSeatOnce(Flatten(Lineup[0]), [7, 9, 3, 2, 1, 5, 10, 6, 4, 11, 8, 0], NumPlayers);
  }

  lemma Round1Covers()
    ensures EachSeatOnce(Flatten(Lineup[1]), NumPlayers)
  {
    FlattenThree(Lineup[1]);
    InverseMeansEachSeatOnce(Flatten(Lineup[1]), [9, 7, 8, 4, 2, 11, 1, 10, 0, 3, 5, 6], NumPlayers);
  }

  lemma Round2Covers()
    ensures EachSeatOnce(Flatten(Lineup[2]), NumPlayers)
  {
    FlattenThree(Lineup[2]);
    InverseMeansEachSeatOnce(Flatten(Lineup[2]), [10, 11, 2, 0, 6, 1, 7, 4, 8, 5, 3, 9], NumPlayers);
  }

  lemma Round3Covers()
    ensures EachSeatOnce(Flatten(Lineup[3]), NumPlayers)
  {
    FlattenThree(Lineup[3]);
    InverseMeansEachSeatOnce(Flatten(Lineup[3]), [3, 1, 5, 11, 0, 9, 8, 10, 4, 6, 7, 2], NumPlayers);
  }

  lemma Round4Covers()
    ensures EachSeatOnce(Flatten(Lineup[4]), NumPlayers)
  {
    FlattenThree(Lineup[4]);
    InverseMeansEachSeatOnce(Flatten(Lineup[4]), [9, 3, 11, 2, 6, 7, 5, 0, 1, 10, 8, 4], NumPlayers);
  }

  lemma Round5Covers()
    ensures EachSeatOnce(Flatten(Lineup[5]), NumPlayers)
  {
    FlattenThree(Lineup[5]);
    InverseMeansEachSeatOnce(Flatten(Lineup[5]), [3, 7, 1, 4, 9, 10, 2, 6, 8, 5, 11, 0], NumPlayers);
  }

  lemma Round6Covers()
    ensures EachSeatOnce(Flatten(Lineup[6]), NumPlayers)
  {
    FlattenThree(Lineup[6]);
    InverseMeansEachSeatOnce(Flatten(Lineup[6]), [5, 1, 9, 7, 2, 0, 6, 8, 4, 11, 3, 10], NumPlayers);
  }

  lemma Round7Covers()
    ensures EachSeatOnce(Flatten(Lineup[7]), NumPlayers)
  {
    FlattenThree(Lineup[7]);
    InverseMeansEachSeatOnce(Flatten(Lineup[7]), [11, 7, 6, 10, 5, 3, 8, 4, 0, 1, 9, 2], NumPlayers);
  }

  lemma Round8Covers()
    ensures EachSeatOnce(Flatten(Lineup[8]), NumPlayers)
  {
    FlattenThree(Lineup[8]);
    InverseMeansEachSeatOnce(Flatten(Lineup[8]), [1, 9, 11, 5, 0, 7, 10, 2, 8, 6, 3, 4], NumPlayers);
  }

  lemma Round9Covers()
    ensures EachSeatOnce(Flatten(Lineup[9]), NumPlayers)
  {
    FlattenThree(Lineup[9]);
    InverseMeansEachSeatOnce(Flatten(Lineup[9]), [9, 3, 1, 11, 10, 0, 2, 6, 4, 8, 5, 7], NumPlayers);
  }

  lemma Round10Covers()
    ensures EachSeatOnce(Flatten(Lineup[10]), NumPlayers)
  {
    FlattenThree(Lineup[10]);
    InverseMeansEachSeatOnce(Flatten(Lineup[10]), [7, 5, 3, 1, 2, 6, 9, 8, 0, 4, 11, 10], NumPlayers);
  }

  /** Round `r` of the lineup seats each index 0 .. 11 exactly once. */
  lemma RoundCovers(r: nat)
    requires r < |Lineup|
    ensures EachSeatOnce(Flatten(Lineup[r]), NumPlayers)
  {
    if r == 0 {
      Round0Covers();
    } else if r == 1 {
      Round1Covers();
    } else if r == 2 {
      Round2Covers();
    } else if r == 3 {
      Round3Covers();
    } else if r == 4 {
      Round4Covers();
    } else if r == 5 {
      Round5Covers();
    } else if r == 6 {
      Round6Covers();
    } else if r == 7 {
      Round7Covers();
    } else if r == 8 {
      Round8Covers();
    } else if r == 9 {
      Round9Covers();
    } else {
      Round10Covers();
    }
  }

  /** In every round the three courts together seat each index 0 .. 11 exactly once. */
  lemma LineupCoversEachSeatOncePerRound()
    ensures forall r :: 0 <= r < |Lineup| ==> EachSeatOnce(Flatten(Lineup[r]), NumPlayers)
  {
    forall r | 0 <= r < |Lineup|
      ensures EachSeatOnce(Flatten(Lineup[r]), NumPlayers)
    {
      RoundCovers(r);
    }
  }

  /** The position in a candidate list of the player on seat `position` of
      `court` in `round`; always a valid roster position. */
  function Seat(round: nat, court: nat, position: nat): (i: nat)
    requires round < NumRounds && court < NumCourts && position < SeatsPerCourt
    ensures i < NumPlayers
  {
    LineupWellFormed();
    Lineup[round][court][position]
  }

  /** The seats of court 0 in round 0, court 1 in round 1 and court 0 in
      round 6. */
  lemma ThreeCourtSeats()
    ensures Seat(0, 0, 0) == 11 && Seat(0, 0, 1) == 4 && Seat(0, 0, 2) == 3 && Seat(0, 0, 3) == 2
    ensures Seat(1, 1, 0) == 3 && Seat(1, 1, 1) == 10 && Seat(1, 1, 2) == 11 && Seat(1, 1, 3) == 1
    ensures Seat(6, 0, 0) == 5 && Seat(6, 0, 1) == 1 && Seat(6, 0, 2) == 4 && Seat(6, 0, 3) == 10
  {
  }

  /** The player of candidate list `list` who sits on seat `position` of
      `court` in `round`. */
  function GetPlayer(list: seq<Player>, round: nat, court: nat, position: nat): (p: Player)
    requires round < NumRounds && court < NumCourts && position < SeatsPerCourt
    requires NumPlayers <= |list|
    ensures p == list[Seat(round, court, position)]
  {
    list[Seat(round, court, position)]
  }

  /** The twelve players seated in `round`, court after court, seat after seat. */
  function RoundPlayers(list: seq<Player>, round: nat): (players: seq<Player>)
    requires round < NumRounds && NumPlayers <= |list|
  {
    seq(NumPlayers, k requires 0 <= k < NumPlayers =>
      GetPlayer(list, round, k / SeatsPerCourt, k % SeatsPerCourt))
  }

  /** The elements of `s` at the positions listed in `idx`, in that order. */
  function Pick<T>(s: seq<T>, idx: seq<int>): (r: seq<T>)
    requires forall k :: 0 <= k < |idx| ==> 0 <= idx[k] < |s|
    ensures |r| == |idx| && forall k :: 0 <= k < |idx| ==> r[k] == s[idx[k]]
  {
    seq(|idx|, k requires 0 <= k < |idx| => s[idx[k]])
  }

  /** Picking through a concatenation of position lists concatenates the picks. */
  lemma PickConcat<T>(s: seq<T>, a: seq<int>, b: seq<int>)
    requires forall k :: 0 <= k < |a| ==> 0 <= a[k] < |s|
    requires forall k :: 0 <= k < |b| ==> 0 <= b[k] < |s|
    ensures Pick(s, a + b) == Pick(s, a) + Pick(s, b)
  {
  }

  /** Positions below `m` pick the same elements from `s` and from `s[..m]`. */
  lemma PickPrefix<T>(s: seq<T>, idx: seq<int>, m: nat)
    requires m <= |s|
    requires forall k :: 0 <= k < |idx| ==> 0 <= idx[k] < m
    ensures Pick(s[..m], idx) == Pick(s, idx)
  {
  }

  /** Where the last index `n - 1` sits in `idx`; the other positions list
      each of 0 .. n-2 exactly once. */
  lemma RemoveLastSeat(idx: seq<int>, n: nat) returns (k: nat)
    requires 0 < n && EachSeatOnce(idx, n)
    ensures k < |idx| && idx[k] == n - 1
    ensures EachSeatOnce(idx[..k] + idx[k + 1..], n - 1)
  {
    assert n - 1 in idx;
    k :| 0 <= k < |idx| && idx[k] == n - 1;
    var rest := idx[..k] + idx[k + 1..];
    assert forall q :: 0 <= q < |rest| ==> rest[q] == (if q < k then idx[q] else idx[q + 1]);
    forall v | 0 <= v < n - 1 ensures v in rest {
      assert v in idx;
      var j :| 0 <= j < |idx| && idx[j] == v;
      assert rest[if j < k then j else j - 1] == v;
    }
  }

  /** Reading a sequence through positions that list every index exactly
      once yields a permutation of it. */
  lemma {:induction false} PickPermutes<T>(s: seq<T>, idx: seq<int>)
    requires EachSeatOnce(idx, |s|)
    ensures multiset(Pick(s, idx)) == multiset(s)
  {
    if |s| == 0 {
      assert idx == [];
    } else {
      var m := |s| - 1;
      var k := RemoveLastSeat(idx, |s|);
      var rest := idx[..k] + idx[k + 1..];
      PickPermutes(s[..m], rest);
      PickAroundLast(s, idx, k);
      assert s == s[..m] + [s[m]];
    }
  }

  /** Picking through `idx` whose entry k is the last position of `s` gives
      what the other entries pick from the rest of `s`, plus the last element. */
  lemma PickAroundLast<T>(s: seq<T>, idx: seq<int>, k: nat)
    requires 0 < |s| && k < |idx| && idx[k] == |s| - 1
    requires forall q :: 0 <= q < |idx| && q != k ==> 0 <= idx[q] < |s| - 1
    ensures multiset(Pick(s, idx)) == multiset(Pick(s[..|s| - 1], idx[..k] + idx[k + 1..])) + multiset{s[|s| - 1]}
  {
    var m := |s| - 1;
    assert idx == idx[..k] + [m] + idx[k + 1..];
    PickConcat(s, idx[..k] + [m], idx[k + 1..]);
    PickConcat(s, idx[..k], [m]);
    PickConcat(s, idx[..k], idx[k + 1..]);
    PickPrefix(s, idx[..k] + idx[k + 1..], m);
  }

  /** Whatever the candidate list, every one of its twelve players plays
      exactly once in every round. */
  lemma EveryPlayerOncePerRound(list: seq<Player>, round: nat)
    requires |list| == NumPlayers && round < NumRounds
    ensures multiset(RoundPlayers(list, round)) == multiset(list)
  {
    RoundCovers(round);
    RoundPlayersPick(list, round);
    PickPermutes(list, Flatten(Lineup[round]));
  }

  /** The players of a round are the list read through the round's seats. */
  lemma RoundPlayersPick(list: seq<Player>, round: nat)
    requires |list| == NumPlayers && round < NumRounds
    requires EachSeatOnce(Flatten(Lineup[round]), NumPlayers)
    ensures RoundPlayers(list, round) == Pick(list, Flatten(Lineup[round]))
  {
    var seats := Flatten(Lineup[round]);
    LineupWellFormed();
    FlattenThree(Lineup[round]);
    forall k | 0 <= k < NumPlayers
      ensures RoundPlayers(list, round)[k] == Pick(list, seats)[k]
    {
      assert seats[k] == Lineup[round][k / SeatsPerCourt][k % SeatsPerCourt];
    }
  }
}
