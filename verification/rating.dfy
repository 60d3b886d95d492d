/** The Elo update of the bot: `get_new_elo` on two ratings and
    `set_new_elo` on the rating table. */
module Rating {

  /** ELO_INITIAL_SCORE: the rating a player has before the first game. */
  const InitialScore: int := 1000

  /** ELO_MAX_DIFFERENCE: the rating difference beyond which a mismatch
      counts no more, and the scale of the logistic curve. */
  const MaxDifference: int := 400

  /** ELO_MAX_ADJUSTMENT: the K factor, the most one game can move a rating. */
  const MaxAdjustment: int := 20

  /** The facts about x |-> 10^x the update relies on. */
  ghost predicate PowerLaws(f: real -> real) {
    && f(0.0) == 1.0
    && (forall x :: f(x) > 0.0)
    && (forall x, y {:trigger f(x), f(y)} :: x + y == 0.0 ==> f(x) * f(y) == 1.0)
  }

  /** Stands for the exponential `10**x` of the source, which Dafny cannot
      compute: any function with the laws above. */
  type Power = f: real -> real | PowerLaws(f) witness (x: real) => 1.0

  /** `diff` limited to [-ELO_MAX_DIFFERENCE, ELO_MAX_DIFFERENCE]. */
  function Clamp(diff: int): (c: int)
    ensures -MaxDifference <= c <= MaxDifference
    ensures -MaxDifference <= diff <= MaxDifference ==> c == diff
    ensures diff > MaxDifference ==> c == MaxDifference
    ensures diff < -MaxDifference ==> c == -MaxDifference
  {
    if (if diff < 0 then -diff else diff) > MaxDifference then
      MaxDifference * (if diff > 0 then 1 else -1)
    else diff
  }

  /** The expected score 1 / (1 + 10^(d / 400)) of a player whose opponent
      is rated `d` points higher. */
  function Expected(pow: Power, d: int): (e: real)
    ensures 0.0 < e < 1.0
  {
    var p := pow(d as real / MaxDifference as real);
    assert p > 0.0;
    ExpectedBounds(p);
    1.0 / (1.0 + p)
  }

  lemma ExpectedBounds(p: real)
    requires p > 0.0
    ensures 0.0 < 1.0 / (1.0 + p) < 1.0
  {
  }

  /** The two players' expectations add up to one, and equal players
      expect one half each. */
  lemma ExpectedComplement(pow: Power, d: int)
    ensures Expected(pow, d) + Expected(pow, -d) == 1.0
    ensures Expected(pow, 0) == 0.5
  {
    var x := d as real / MaxDifference as real;
    var y := (-d) as real / MaxDifference as real;
    assert x + y == 0.0;
    var a := pow(x);
    var b := pow(y);
    assert a * b == 1.0;
    ReciprocalSum(a, b);
  }

  lemma ReciprocalSum(a: real, b: real)
    requires a > 0.0 && b > 0.0 && a * b == 1.0
    ensures 1.0 / (1.0 + a) + 1.0 / (1.0 + b) == 1.0
  {
    assert (1.0 + a) * (1.0 + b) == 2.0 + a + b;
    calc {
      1.0 / (1.0 + a) + 1.0 / (1.0 + b);
      ((1.0 + b) + (1.0 + a)) / ((1.0 + a) * (1.0 + b));
      (2.0 + a + b) / (2.0 + a + b);
      1.0;
    }
  }

  /** `int(x)` on a float: truncation toward zero. */
  function Truncate(x: real): (n: int)
    ensures x >= 0.0 ==> n as real <= x < n as real + 1.0
    ensures x < 0.0 ==> n as real - 1.0 < x <= n as real
  {
    if x >= 0.0 then x.Floor else -((-x).Floor)
  }

  /** `get_new_elo(winner_elo, loser_elo)`. */
  function NewRatings(pow: Power, winner: int, loser: int): (r: (int, int))
    ensures winner <= r.0 <= winner + MaxAdjustment
    ensures loser - MaxAdjustment <= r.1 <= loser
  {
    var diff := Clamp(loser - winner);
    var eWinner := Expected(pow, diff);
    var eLoser := Expected(pow, -diff);
    var k := MaxAdjustment as real;
    var w := winner as real + k * (1.0 - eWinner);
    var l := loser as real + k * (0.0 - eLoser);
    TruncateWithin(winner, w, winner + MaxAdjustment);
    TruncateWithin(loser - MaxAdjustment, l, loser);
    (Truncate(w), Truncate(l))
  }

  /** Truncation keeps a number between the same two integers. */
  lemma TruncateWithin(lo: int, x: real, hi: int)
    requires lo as real <= x <= hi as real
    ensures lo <= Truncate(x) <= hi
  {
  }

  /** Before truncation the update is zero-sum: what the winner gains the
      loser loses. */
  lemma ExactUpdateIsZeroSum(pow: Power, winner: int, loser: int)
    ensures var d := Clamp(loser - winner);
      MaxAdjustment as real * (1.0 - Expected(pow, d)) == MaxAdjustment as real * Expected(pow, -d)
  {
    ExpectedComplement(pow, Clamp(loser - winner));
  }

  /** Two equally rated players: the winner gains 10, the loser drops 10. */
  lemma EvenGame(pow: Power)
    ensures NewRatings(pow, 1000, 1000) == (1010, 990)
  {
    ExpectedComplement(pow, 0);
    assert Clamp(0) == 0;
    assert (1000.0 + 20.0 * (1.0 - 0.5)).Floor == 1010;
    assert (990.0).Floor == 990;
  }

  /** Only the clamped difference matters: against an opponent more than
      400 points away, each player moves as if the opponent were exactly
      400 points away. */
  lemma ClampedDifference(pow: Power, winner: int, loser: int)
    ensures NewRatings(pow, winner, loser).0 == NewRatings(pow, winner, winner + Clamp(loser - winner)).0
    ensures NewRatings(pow, winner, loser).1 == NewRatings(pow, loser - Clamp(loser - winner), loser).1
  {
    var c := Clamp(loser - winner);
    assert Clamp(winner + c - winner) == c;
    assert Clamp(loser - (loser - c)) == c;
  }

  /** The rating a player has in `elo`, or the initial score if none. */
  function Seeded(elo: map<string, int>, name: string): int {
    if name in elo then elo[name] else InitialScore
  }

  /** `set_new_elo(winner, loser, elo, sub)` without the flair calls: a
      no-op for a game against oneself, else both players are seeded
      with the initial score if new and then updated. */
  function SetNewElo(pow: Power, winner: string, loser: string, elo: map<string, int>): (r: map<string, int>)
    ensures winner == loser ==> r == elo
    ensures winner != loser ==> r.Keys == elo.Keys + {winner, loser}
    ensures forall k :: k in elo && k != winner && k != loser ==> k in r && r[k] == elo[k]
    ensures winner != loser ==>
      && Seeded(elo, winner) <= r[winner] <= Seeded(elo, winner) + MaxAdjustment
      && Seeded(elo, loser) - MaxAdjustment <= r[loser] <= Seeded(elo, loser)
    ensures winner != loser ==> (r[winner], r[loser]) == NewRatings(pow, Seeded(elo, winner), Seeded(elo, loser))
  {
    if winner == loser then elo
    else
      var (w, l) := NewRatings(pow, Seeded(elo, winner), Seeded(elo, loser));
      elo[winner := w][loser := l]
  }
}
