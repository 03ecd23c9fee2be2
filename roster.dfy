/** The fixed roster of the tournament: twelve players, each with a name and a
    skill rating. Ratings are modelled as exact reals, so sums and differences
    carry no rounding error. */
module Roster {

  /** One player: a name and a skill rating. */
  datatype Player = Player(name: string, rating: real)

  /** Number of rounds and of courts per round in the lineup template. */
  const NumRounds: nat := 11
  const NumCourts: nat := 3

  /** Seats per court: seats 0 and 1 form one team, seats 2 and 3 the other. */
  const SeatsPerCourt: nat := 4

  /** The roster, in its canonical order. */
  const Players: seq<Player> := [
    Player("A", 1.0),
    Player("B", 1.2),
    Player("C", 1.4),
    Player("D", 1.6),
    Player("E", 1.8),
    Player("F", 2.0),
    Player("G", 2.2),
    Player("H", 2.4),
    Player("I", 2.6),
    Player("J", 2.8),
    Player("K", 3.0),
    Player("L", 3.2)
  ]

  /** Size of the roster: every seat index of the template is below it. */
  const NumPlayers: nat := |Players|

  /** Ratings go up strictly along the roster. */
  lemma RatingsIncrease(i: nat, j: nat)
    requires i < j < NumPlayers
    ensures Players[i].rating < Players[j].rating
  {
  }

  /** No two players of the roster share a rating. */
  lemma RatingsDistinct(x: Player, y: Player)
    requires x in Players && y in Players && x != y
    ensures x.rating != y.rating
  {
    var i :| 0 <= i < NumPlayers && Players[i] == x;
    var j :| 0 <= j < NumPlayers && Players[j] == y;
    if i < j {
      RatingsIncrease(i, j);
    } else {
      RatingsIncrease(j, i);
    }
  }
}
