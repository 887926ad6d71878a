/**
  The first dial solver: moves only track the position, and the answer is the
  number of moves, starting from 50, after which the dial rests on 0.
*/
module DayOne {
  import opened Dial

  /** A move: turn left or right by a number of clicks. */
  datatype DialDirection = Left(steps: nat) | Right(steps: nat)

  /** `dial_right`: the Euclidean remainder of position plus steps. */
  function DialRight(position: nat, steps: nat): (q: nat)
    requires IsPosition(position)
    ensures IsPosition(q)
  {
    (position + steps) % MARKS
  }

  /** `dial_left`: the Euclidean remainder of position minus steps, never negative. */
  function DialLeft(position: nat, steps: nat): (q: nat)
    requires IsPosition(position)
    ensures IsPosition(q)
  {
    (position - steps) % MARKS
  }

  /** `new_dial_position`: dispatches on the direction. */
  function NewDialPosition(position: nat, direction: DialDirection): (q: nat)
    requires IsPosition(position)
    ensures IsPosition(q)
    ensures q == Move(position, direction)
  {
    match direction
    case Left(steps) =>
      DialLeftFollowsClicks(position, steps);
      DialLeft(position, steps)
    case Right(steps) =>
      DialRightFollowsClicks(position, steps);
      DialRight(position, steps)
  }

  /** The click-by-click reference for where one move leaves the dial. */
  function Move(position: nat, direction: DialDirection): (q: nat)
    requires IsPosition(position)
    ensures IsPosition(q)
  {
    match direction
    case Left(steps) => TurnLeft(position, steps).position
    case Right(steps) => TurnRight(position, steps).position
  }

  /** `dial_right` stops where `steps` single clicks to the right stop. */
  lemma DialRightFollowsClicks(position: nat, steps: nat)
    requires IsPosition(position)
    ensures DialRight(position, steps) == TurnRight(position, steps).position
  {
    TurnRightClosedForm(position, steps);
  }

  /** `dial_left` stops where `steps` single clicks to the left stop. */
  lemma DialLeftFollowsClicks(position: nat, steps: nat)
    requires IsPosition(position)
    ensures DialLeft(position, steps) == TurnLeft(position, steps).position
  {
    TurnLeftClosedForm(position, steps);
  }

  /** Adding whole turns of 100 clicks to a move changes nothing. */
  lemma {:induction false} WholeTurnsChangeNothing(position: nat, steps: nat, turns: nat)
    requires IsPosition(position)
    ensures DialRight(position, steps + turns * MARKS) == DialRight(position, steps)
    ensures DialLeft(position, steps + turns * MARKS) == DialLeft(position, steps)
    decreases turns
  {
    if turns > 0 {
      WholeTurnsChangeNothing(position, steps, turns - 1);
      var more := steps + (turns - 1) * MARKS;
      assert steps + turns * MARKS == more + MARKS;
      ShiftByMarks(position + more);
      ShiftByMarks(position - more - MARKS);
    }
  }

  /** Turning left undoes turning right by the same number of clicks, and the other way round. */
  lemma LeftUndoesRight(position: nat, steps: nat)
    requires IsPosition(position)
    ensures DialLeft(DialRight(position, steps), steps) == position
    ensures DialRight(DialLeft(position, steps), steps) == position
  {
    var turns := (position + steps) / MARKS;
    assert DialRight(position, steps) - steps == position - turns * MARKS;
    ModOfWholeTurnsBack(position, turns);
    var back := (position - steps) / MARKS;
    assert DialLeft(position, steps) + steps == position - back * MARKS;
    ModOfWholeTurnsBack(position, back);
  }

  /** Subtracting whole turns from a mark leaves its remainder at the mark. */
  lemma {:induction false} ModOfWholeTurnsBack(position: nat, turns: int)
    requires IsPosition(position)
    ensures (position - turns * MARKS) % MARKS == position
    decreases if turns < 0 then -turns else turns
  {
    if turns > 0 {
      ModOfWholeTurnsBack(position, turns - 1);
      ShiftByMarks(position - turns * MARKS);
    } else if turns < 0 {
      ModOfWholeTurnsBack(position, turns + 1);
      ShiftByMarks(position - (turns + 1) * MARKS);
    }
  }

  /** The unit tests of `dial_left` and `dial_right`. */
  lemma DialExamples()
    ensures DialLeft(50, 1) == 49 && DialLeft(50, 51) == 99 && DialLeft(50, 50) == 0
    ensures DialLeft(50, 52) == 98 && DialLeft(50, 100) == 50 && DialLeft(50, 102) == 48
    ensures DialLeft(50, 502) == 48 && DialLeft(50, 602) == 48 && DialLeft(50, 598) == 52
    ensures DialLeft(50, 68) == 82 && DialLeft(82, 30) == 52
    ensures DialRight(52, 48) == 0 && DialRight(50, 1) == 51 && DialRight(50, 49) == 99
    ensures DialRight(50, 50) == 0 && DialRight(50, 51) == 1
    ensures DialRight(50, 151) == 1 && DialRight(50, 251) == 1 && DialRight(50, 258) == 8
  {
  }

  // ---------------------------------------------------------------------------
  // The counting loop of `main`, over the moves already parsed from the input.
  // ---------------------------------------------------------------------------

  /** The dial starts at 50. */
  const START: nat := 50

  /** How many of the moves, made one click at a time from `position`, leave the dial at 0. */
  function StopsAtZero(position: nat, moves: seq<DialDirection>): (n: nat)
    requires IsPosition(position)
    ensures n <= |moves|
    decreases |moves|
  {
    if moves == [] then 0
    else
      var q := Move(position, moves[0]);
      (if q == 0 then 1 else 0) + StopsAtZero(q, moves[1..])
  }

  /**
    The loop of `main`: applies each move in turn, starting from 50, and counts the
    moves after which the dial rests on 0.
  */
  method CountZeroStops(moves: seq<DialDirection>) returns (numberOfZeros: nat)
    ensures numberOfZeros == StopsAtZero(START, moves)
    ensures numberOfZeros <= |moves|
  {
    var current := START;
    numberOfZeros := 0;
    for i := 0 to |moves|
      invariant IsPosition(current)
      invariant numberOfZeros + StopsAtZero(current, moves[i..]) == StopsAtZero(START, moves)
    {
      assert moves[i..][1..] == moves[i + 1..];
      current := NewDialPosition(current, moves[i]);
      if current == 0 {
        numberOfZeros := numberOfZeros + 1;
      }
    }
  }
}
