/**
  The safe dial shared by both dial solvers: positions 0 to 99 on a circle, turned
  one click at a time. The click-by-click turn is the reference against which the
  closed-form arithmetic of the solvers is proved.
*/
module Dial {

  /** `MAXIMUM_DIAL_POSITION`: the highest mark on the dial. */
  const MAXIMUM_DIAL_POSITION: nat := 99

  /** The number of marks on the dial. */
  const MARKS: nat := MAXIMUM_DIAL_POSITION + 1

  predicate IsPosition(p: int) {
    0 <= p <= MAXIMUM_DIAL_POSITION
  }

  /** One click to the right: 99 wraps to 0. */
  function ClickRight(p: nat): (q: nat)
    requires IsPosition(p)
    ensures IsPosition(q)
    ensures q == 0 <==> p == MAXIMUM_DIAL_POSITION
  {
    if p == MAXIMUM_DIAL_POSITION then 0 else p + 1
  }

  /** One click to the left: 0 wraps to 99. */
  function ClickLeft(p: nat): (q: nat)
    requires IsPosition(p)
    ensures IsPosition(q)
    ensures q == 0 <==> p == 1
  {
    if p == 0 then MAXIMUM_DIAL_POSITION else p - 1
  }

  /** Where a turn ends and how many of its clicks landed on 0. */
  datatype Turn = Turn(position: nat, zeros: nat)

  /** Turning right `steps` clicks, one click at a time. */
  function TurnRight(p: nat, steps: nat): (t: Turn)
    requires IsPosition(p)
    ensures IsPosition(t.position)
    ensures t.zeros <= steps
    decreases steps
  {
    if steps == 0 then Turn(p, 0)
    else
      var q := ClickRight(p);
      var rest := TurnRight(q, steps - 1);
      Turn(rest.position, rest.zeros + (if q == 0 then 1 else 0))
  }

  /** Turning left `steps` clicks, one click at a time. */
  function TurnLeft(p: nat, steps: nat): (t: Turn)
    requires IsPosition(p)
    ensures IsPosition(t.position)
    ensures t.zeros <= steps
    decreases steps
  {
    if steps == 0 then Turn(p, 0)
    else
      var q := ClickLeft(p);
      var rest := TurnLeft(q, steps - 1);
      Turn(rest.position, rest.zeros + (if q == 0 then 1 else 0))
  }

  /**
    Turning right ends at `(p + steps) mod 100`, and the clicks that land on 0 are
    the whole hundreds passed: `(p + steps) div 100`.
  */
  lemma {:induction false} TurnRightClosedForm(p: nat, steps: nat)
    requires IsPosition(p)
    ensures TurnRight(p, steps) == Turn((p + steps) % MARKS, (p + steps) / MARKS)
    decreases steps
  {
    if steps > 0 {
      var q := ClickRight(p);
      TurnRightClosedForm(q, steps - 1);
      if p == MAXIMUM_DIAL_POSITION {
        ShiftByMarks(steps - 1);
      } else {
        assert q + (steps - 1) == p + steps;
      }
    }
  }

  /**
    Turning left ends at the Euclidean `(p - steps) mod 100`. From 0, a click lands
    on 0 once every hundred clicks; from any other mark, the first landing is after
    `p` clicks and then once every hundred.
  */
  lemma TurnLeftClosedForm(p: nat, steps: nat)
    requires IsPosition(p)
    ensures TurnLeft(p, steps).position == (p - steps) % MARKS
    ensures TurnLeft(p, steps).zeros ==
      if p == 0 then steps / MARKS
      else if steps < p then 0
      else (steps - p) / MARKS + 1
  {
    TurnLeftPosition(p, steps);
    TurnLeftZeros(p, steps);
  }

  lemma {:induction false} TurnLeftPosition(p: nat, steps: nat)
    requires IsPosition(p)
    ensures TurnLeft(p, steps).position == (p - steps) % MARKS
    decreases steps
  {
    if steps > 0 {
      var q := ClickLeft(p);
      TurnLeftPosition(q, steps - 1);
      if p == 0 {
        assert q - (steps - 1) == (p - steps) + MARKS;
        ShiftByMarks(p - steps);
      } else {
        assert q - (steps - 1) == p - steps;
      }
    }
  }

  lemma {:induction false} TurnLeftZeros(p: nat, steps: nat)
    requires IsPosition(p)
    ensures TurnLeft(p, steps).zeros ==
      if p == 0 then steps / MARKS
      else if steps < p then 0
      else (steps - p) / MARKS + 1
    decreases steps
  {
    if steps > 0 {
      var q := ClickLeft(p);
      TurnLeftZeros(q, steps - 1);
      var rest := TurnLeft(q, steps - 1);
      if p == 0 {
        assert TurnLeft(p, steps).zeros == rest.zeros;
        if steps >= MARKS {
          assert steps - 1 - q == steps - MARKS;
          ShiftByMarks(steps - MARKS);
        }
      } else if p == 1 {
        assert TurnLeft(p, steps).zeros == rest.zeros + 1;
      } else {
        assert TurnLeft(p, steps).zeros == rest.zeros;
      }
    }
  }

  /** Adding one whole turn adds one to the quotient and keeps the remainder. */
  lemma ShiftByMarks(n: int)
    ensures (n + MARKS) / MARKS == n / MARKS + 1
    ensures (n + MARKS) % MARKS == n % MARKS
  {
  }
}
