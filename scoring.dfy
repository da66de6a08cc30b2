/** The score panel: moves made, seconds elapsed and the star rating. */
module Scoring {

  /** Move count at which the rating drops to two stars. */
  const TwoStarMoves: nat := 30
  /** Move count at which the rating drops to one star. */
  const OneStarMoves: nat := 40

  /** The rating a player holds after `move` moves in a deal: three stars below 30
      moves, two from 30 up to 39, one from 40 on. */
  function Stars(move: nat): (star: nat)
    ensures 1 <= star <= 3
  {
    if move < TwoStarMoves then 3 else if move < OneStarMoves then 2 else 1
  }

  /** More moves never earn more stars. */
  lemma StarsNeverRise(m: nat, n: nat)
    requires m <= n
    ensures Stars(n) <= Stars(m)
  {
  }

  /** One more move changes the rating exactly when it reaches 30 or 40 moves, and then
      to 2 and 1 stars respectively. */
  lemma StarsChangeAtThresholds(move: nat)
    ensures Stars(move + 1) != Stars(move) <==> move + 1 == TwoStarMoves || move + 1 == OneStarMoves
    ensures move + 1 == TwoStarMoves ==> Stars(move + 1) == 2
    ensures move + 1 == OneStarMoves ==> Stars(move + 1) == 1
  {
  }

  class ScorePanel {
    var move: nat
    var time: nat
    var star: nat

    /** The rating always agrees with the move count. */
    ghost predicate Valid()
      reads this
    {
      star == Stars(move)
    }

    /** The panel as the page loads it: no moves, no time, three stars. */
    constructor ()
      ensures Valid()
      ensures move == 0 && time == 0 && star == 3
    {
      move, time, star := 0, 0, 3;
    }

    /** One clock tick: one more second, nothing else. */
    method IncrementTime()
      requires Valid()
      modifies this
      ensures Valid()
      ensures time == old(time) + 1
      ensures move == old(move) && star == old(star)
    {
      time := time + 1;
    }

    /** One accepted click: one more move; the rating drops to 2 on the 30th move and
        to 1 on the 40th, and is otherwise kept. */
    method IncrementMove()
      requires Valid()
      modifies this
      ensures Valid()
      ensures move == old(move) + 1 && time == old(time)
      ensures star == (if move == TwoStarMoves then 2 else if move == OneStarMoves then 1 else old(star))
      ensures star <= old(star)
    {
      move := move + 1;
      if move == TwoStarMoves {
        star := 2;
      } else if move == OneStarMoves {
        star := 1;
      } else {
        StarsChangeAtThresholds(move - 1);
      }
    }

    /** Back to the start of a deal: 0 moves, 3 stars, 0 seconds. */
    method Reset()
      modifies this
      ensures Valid()
      ensures move == 0 && star == 3 && time == 0
    {
      move := 0;
      star := 3;
      time := 0;
    }
  }
}
