/** `F.smooth_l1_loss` with its default threshold 1 and summed reduction
    (`size_average=False`): quadratic for a residual below 1 in magnitude and
    linear above it. */
module SmoothL1Loss {

  function Abs(x: real): real {
    if x < 0.0 then -x else x
  }

  function Square(x: real): real {
    x * x
  }

  /** The square of a value in [0, 1) is no larger than the value, and
      positive when the value is. */
  lemma SquareOnUnit(y: real)
    requires 0.0 <= y < 1.0
    ensures Square(y) <= y
    ensures 0.0 < y ==> 0.0 < Square(y)
  {
    assert Square(y) == y * y <= y * 1.0;
    if 0.0 < y {
      calc {
        Square(y);
        y * y;
      > { assert 0.0 < y * y; }
        0.0;
      }
    }
  }

  /** Below the threshold the square lies between 0 and the absolute value, and
      it is 0 only at 0. */
  lemma SquareNearZero(x: real)
    requires Abs(x) < 1.0
    ensures 0.0 <= Square(x) <= Abs(x)
    ensures Square(x) == 0.0 <==> x == 0.0
  {
    assert Square(x) == Square(Abs(x));
    SquareOnUnit(Abs(x));
  }

  /** The half square never falls below the line |x| - 1/2, and reaches it at
      |x| = 1; from there on the square exceeds |x|. */
  lemma SquareAboveLine(x: real)
    ensures Abs(x) - 0.5 <= 0.5 * Square(x)
    ensures 1.0 <= Abs(x) ==> Abs(x) <= Square(x)
  {
    var y := Abs(x);
    assert Square(x) == Square(Abs(x));
    calc {
      0.5 * Square(x) - (y - 0.5);
      0.5 * (y * y) - y + 0.5;
      0.5 * ((y - 1.0) * (y - 1.0));
    >= { assert 0.0 <= (y - 1.0) * (y - 1.0); }
      0.0;
    }
    if 1.0 <= y {
      calc {
        Square(x);
        y * y;
      >= { assert y * 1.0 <= y * y; }
        y;
      }
    }
  }

  /** `F.smooth_l1_loss` on one residual. */
  function SmoothL1(x: real): (r: real)
    ensures 0.0 <= r <= Abs(x)
    ensures r == 0.0 <==> x == 0.0
  {
    if Abs(x) < 1.0 then
      SquareNearZero(x);
      0.5 * Square(x)
    else
      Abs(x) - 0.5
  }

  /** Smooth-L1 lies between the line |x| - 1/2 and the half square, equal to
      the second below the threshold and to the first above it. */
  lemma SmoothL1Bounds(x: real)
    ensures Abs(x) - 0.5 <= SmoothL1(x) <= 0.5 * Square(x)
    ensures Abs(x) < 1.0 ==> SmoothL1(x) == 0.5 * Square(x)
    ensures 1.0 <= Abs(x) ==> SmoothL1(x) == Abs(x) - 0.5
  {
    SquareAboveLine(x);
  }

  /** The summed smooth-L1 loss between a predicted and a target box. */
  function BoxLoss(input: seq<real>, target: seq<real>): (r: real)
    requires |input| == |target|
    ensures 0.0 <= r
    ensures r == 0.0 <==> input == target
  {
    if input == [] then 0.0
    else
      assert input == [input[0]] + input[1..] && target == [target[0]] + target[1..];
      SmoothL1(input[0] - target[0]) + BoxLoss(input[1..], target[1..])
  }
}
