/**
  The second dial solver: every move reports where the dial stops and how many of
  its clicks landed on 0, and the answer is the sum of those counts over all moves,
  starting from 50.
*/
module Day01 {
  import opened Dial

  /** A move: turn left or right by a number of clicks. */
  datatype DialDirection = Left(steps: nat) | Right(steps: nat)

  /** The dial after a move and the number of its clicks that landed on 0. */
  datatype DialResult = DialResult(dialPosition: nat, numberOfZerosCrossed: nat)

  /** `dial_right`: the sum of position and steps, split into whole turns and a remainder. */
  function DialRight(current: DialResult, steps: nat): (r: DialResult)
    requires IsPosition(current.dialPosition)
    ensures IsPosition(r.dialPosition)
  {
    var result := current.dialPosition + steps;
    DialResult(result % MARKS, result / MARKS)
  }

  /**
    `dial_left`: the signed difference of position and steps; no zero is reached
    while it stays positive, otherwise one per hundred of its magnitude plus one,
    less the one a start at 0 does not count.
  */
  function DialLeft(current: DialResult, steps: nat): (r: DialResult)
    requires IsPosition(current.dialPosition)
    ensures IsPosition(r.dialPosition)
  {
    var dialPosition: int := current.dialPosition - steps;
    var numberOfZerosCrossed: nat :=
      if dialPosition > 0 then 0
      else
        var abs := -dialPosition;
        var crossed := abs / MARKS + 1;
        if current.dialPosition == 0 then crossed - 1 else crossed;
    DialResult(dialPosition % MARKS, numberOfZerosCrossed)
  }

  /** The click-by-click reference for one move. */
  function Move(position: nat, direction: DialDirection): (t: Turn)
    requires IsPosition(position)
    ensures IsPosition(t.position)
  {
    match direction
    case Left(steps) => TurnLeft(position, steps)
    case Right(steps) => TurnRight(position, steps)
  }

  /** `dial_right` stops where the clicks stop and counts exactly the clicks that land on 0. */
  lemma DialRightCountsClicks(current: DialResult, steps: nat)
    requires IsPosition(current.dialPosition)
    ensures DialRight(current, steps).dialPosition == TurnRight(current.dialPosition, steps).position
    ensures DialRight(current, steps).numberOfZerosCrossed == TurnRight(current.dialPosition, steps).zeros
  {
    TurnRightClosedForm(current.dialPosition, steps);
  }

  /** `dial_left` stops where the clicks stop and counts exactly the clicks that land on 0. */
  lemma DialLeftCountsClicks(current: DialResult, steps: nat)
    requires IsPosition(current.dialPosition)
    ensures DialLeft(current, steps).dialPosition == TurnLeft(current.dialPosition, steps).position
    ensures DialLeft(current, steps).numberOfZerosCrossed == TurnLeft(current.dialPosition, steps).zeros
  {
    TurnLeftClosedForm(current.dialPosition, steps);
  }

  /**
    `new_dial_position`: dispatches on the direction. The result is the click-by-click
    move from the current position alone; the count carried in by `current` plays
    no part.
  */
  function NewDialPosition(current: DialResult, direction: DialDirection): (r: DialResult)
    requires IsPosition(current.dialPosition)
    ensures IsPosition(r.dialPosition)
    ensures r.dialPosition == Move(current.dialPosition, direction).position
    ensures r.numberOfZerosCrossed == Move(current.dialPosition, direction).zeros
  {
    match direction
    case Left(steps) =>
      DialLeftCountsClicks(current, steps);
      DialLeft(current, steps)
    case Right(steps) =>
      DialRightCountsClicks(current, steps);
      DialRight(current, steps)
  }

  /** The unit tests of `dial_left` and `dial_right`. */
  lemma DialExamples()
    ensures DialLeft(DialResult(50, 0), 1) == DialResult(49, 0)
    ensures DialLeft(DialResult(50, 0), 51) == DialResult(99, 1)
    ensures DialLeft(DialResult(50, 0), 50) == DialResult(0, 1)
    ensures DialLeft(DialResult(50, 0), 52) == DialResult(98, 1)
    ensures DialLeft(DialResult(50, 0), 100) == DialResult(50, 1)
    ensures DialLeft(DialResult(50, 0), 102) == DialResult(48, 1)
    ensures DialLeft(DialResult(50, 0), 502) == DialResult(48, 5)
    ensures DialLeft(DialResult(50, 0), 602) == DialResult(48, 6)
    ensures DialLeft(DialResult(50, 0), 598) == DialResult(52, 6)
    ensures DialLeft(DialResult(50, 0), 68) == DialResult(82, 1)
    ensures DialLeft(DialResult(82, 0), 30) == DialResult(52, 0)
    ensures DialLeft(DialResult(0, 0), 5) == DialResult(95, 0)
    ensures DialRight(DialResult(50, 0), 1) == DialResult(51, 0)
    ensures DialRight(DialResult(50, 0), 49) == DialResult(99, 0)
    ensures DialRight(DialResult(50, 0), 50) == DialResult(0, 1)
    ensures DialRight(DialResult(50, 0), 51) == DialResult(1, 1)
    ensures DialRight(DialResult(50, 0), 151) == DialResult(1, 2)
    ensures DialRight(DialResult(50, 0), 251) == DialResult(1, 3)
    ensures DialRight(DialResult(52, 0), 48) == DialResult(0, 1)
    ensures DialRight(DialResult(50, 0), 258) == DialResult(8, 3)
    ensures DialRight(DialResult(10, 0), 90) == DialResult(0, 1)
    ensures DialRight(DialResult(10, 0), 91) == DialResult(1, 1)
  {
  }

  // ---------------------------------------------------------------------------
  // The summing loop of `main`, over the moves already parsed from the input.
  // ---------------------------------------------------------------------------

  /** The dial starts at 50. */
  const START: nat := 50

  /** Clicks landing on 0 over a sequence of moves made one click at a time. */
  function ZerosLanded(position: nat, moves: seq<DialDirection>): nat
    requires IsPosition(position)
    decreases |moves|
  {
    if moves == [] then 0
    else
      var t := Move(position, moves[0]);
      t.zeros + ZerosLanded(t.position, moves[1..])
  }

  /** No move can land on 0 more often than it clicks. */
  lemma {:induction false} ZerosLandedBound(position: nat, moves: seq<DialDirection>)
    requires IsPosition(position)
    ensures ZerosLanded(position, moves) <= TotalSteps(moves)
    decreases |moves|
  {
    if moves != [] {
      var t := Move(position, moves[0]);
      ZerosLandedBound(t.position, moves[1..]);
    }
  }

  function TotalSteps(moves: seq<DialDirection>): nat {
    if moves == [] then 0 else moves[0].steps + TotalSteps(moves[1..])
  }

  /**
    The loop of `main`: applies each move in turn, starting from 50, and adds up the
    per-move counts. The total is the number of clicks, over all moves, that land on 0.
  */
  method CountZerosCrossed(moves: seq<DialDirection>) returns (numberOfZeros: nat)
    ensures numberOfZeros == ZerosLanded(START, moves)
  {
    var current := DialResult(START, 0);
    numberOfZeros := 0;
    for i := 0 to |moves|
      invariant IsPosition(current.dialPosition)
      invariant numberOfZeros + ZerosLanded(current.dialPosition, moves[i..]) == ZerosLanded(START, moves)
    {
      assert moves[i..][1..] == moves[i + 1..];
      current := NewDialPosition(current, moves[i]);
      numberOfZeros := numberOfZeros + current.numberOfZerosCrossed;
    }
  }
}
