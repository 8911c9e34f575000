/** The straight line that cross-validation fits through its splits' scores
    (tools/pbo_ledger.py, cscv). */
module Degradation {
  import opened RealAlgebra
  import opened RealSeq

  datatype Line = Line(slope: real, intercept: real) {
    function Miss(x: real, y: real): real {
      y - (slope * x + intercept)
    }
  }

  function Square(d: real): (dd: real)
    ensures dd >= 0.0 && (dd == 0.0 <==> d == 0.0)
  {
    SquareSign(d, d * d);
    d * d
  }

  function SquaredError(line: Line, x: seq<real>, y: seq<real>): (e: real)
    requires |x| == |y|
    ensures e >= 0.0
    decreases |x|
  {
    if x == [] then 0.0
    else
      var k := |x| - 1;
      SquaredError(line, x[..k], y[..k]) + Square(line.Miss(x[k], y[k]))
  }

  /** np.ptp above zero: not all entries are equal. */
  predicate Varies(x: seq<real>) {
    exists i, j :: 0 <= i < |x| && 0 <= j < |x| && x[i] != x[j]
  }

  type Polyfit = (seq<real>, seq<real>) -> Line

  /** No line has a smaller squared error. */
  ghost predicate BestLine(best: Line, x: seq<real>, y: seq<real>)
    requires |x| == |y|
  {
    forall line :: SquaredError(best, x, y) <= SquaredError(line, x, y)
  }

  /** np.polyfit of degree one, through points that do not all lie above each other. */
  ghost predicate IsLeastSquares(polyfit: Polyfit) {
    forall x, y :: |x| == |y| && Varies(x) ==> BestLine(polyfit(x, y), x, y)
  }

  /** The degradation line: flat at the mean when the training scores do not vary. */
  function DegradationLine(polyfit: Polyfit, x: seq<real>, y: seq<real>): Line {
    if Varies(x) then polyfit(x, y)
    else Line(0.0, if y == [] then 0.0 else Quotient(Sum(y), |y| as real))
  }

  /** A line has no squared error exactly when every point lies on it. */
  lemma {:induction false} NoErrorExactlyWhen(line: Line, x: seq<real>, y: seq<real>)
    requires |x| == |y|
    ensures SquaredError(line, x, y) == 0.0 <==> forall i :: 0 <= i < |x| ==> line.Miss(x[i], y[i]) == 0.0
    decreases |x|
  {
    if x != [] {
      NoErrorExactlyWhen(line, x[..|x| - 1], y[..|x| - 1]);
    }
  }

  lemma TwoPointsFixTheLine(line: Line, a: real, b: real, total: real)
    requires a != b && line.Miss(a, total - a) == 0.0 && line.Miss(b, total - b) == 0.0
    ensures line == Line(-1.0, total)
  {
    var p, q := line.slope * a, line.slope * b;
    assert (line.slope + 1.0) * (a - b) == p - q + (a - b) == 0.0;
    NoFactor(line.slope + 1.0, a - b);
  }

  lemma NoFactor(p: real, d: real)
    requires d != 0.0 && p * d == 0.0
    ensures p == 0.0
  {
  }

  /** Scores that trade off one for one are fitted exactly: the line falls by one. */
  lemma TradeOffIsFitted(polyfit: Polyfit, x: seq<real>, y: seq<real>, total: real)
    requires IsLeastSquares(polyfit) && |x| == |y| && Varies(x)
    requires forall i :: 0 <= i < |x| ==> x[i] + y[i] == total
    ensures DegradationLine(polyfit, x, y) == Line(-1.0, total)
  {
    var falling, fitted := Line(-1.0, total), polyfit(x, y);
    NoErrorExactlyWhen(falling, x, y);
    NoErrorExactlyWhen(fitted, x, y);
    var i, j :| 0 <= i < |x| && 0 <= j < |x| && x[i] != x[j];
    TwoPointsFixTheLine(fitted, x[i], x[j], total);
  }

  // ---------------------------------------------------------------------------
  // The line is always a best one
  // ---------------------------------------------------------------------------

  function SquareSum(y: seq<real>): real {
    if y == [] then 0.0 else SquareSum(y[..|y| - 1]) + Square(y[|y| - 1])
  }

  /** The squared error of one value v against all points. */
  function ErrorOf(v: real, y: seq<real>): real {
    if y == [] then 0.0 else ErrorOf(v, y[..|y| - 1]) + Square(y[|y| - 1] - v)
  }

  function Expanded(q: real, v: real, sum: real, n: real): real {
    q - 2.0 * (v * sum) + n * (v * v)
  }

  lemma ExpandedNothing(v: real)
    ensures Expanded(0.0, v, 0.0, 0.0) == 0.0
  {
  }

  lemma ExpandedStep(q: real, v: real, sum: real, n: real, yk: real, q': real, sum': real, n': real)
    requires q' == q + Square(yk) && sum' == sum + yk && n' == n + 1.0
    ensures Expanded(q', v, sum', n') == Expanded(q, v, sum, n) + Square(yk - v)
  {
    Distribute(v, sum, yk);
    var vv := v * v;
    assert n' * vv == n * vv + vv;
    assert (yk - v) * (yk - v) == yk * yk - 2.0 * (v * yk) + vv;
  }

  lemma {:induction false} ErrorExpands(v: real, y: seq<real>)
    ensures ErrorOf(v, y) == Expanded(SquareSum(y), v, Sum(y), |y| as real)
    decreases |y|
  {
    if y == [] {
      ExpandedNothing(v);
    } else {
      var front, last := y[..|y| - 1], y[|y| - 1];
      ErrorExpands(v, front);
      ExpandedStep(SquareSum(front), v, Sum(front), |front| as real, last, SquareSum(y), Sum(y), |y| as real);
    }
  }

  lemma {:induction false} LevelError(line: Line, x: seq<real>, y: seq<real>, c: real, v: real)
    requires |x| == |y| && v == line.slope * c + line.intercept && forall i :: 0 <= i < |x| ==> x[i] == c
    ensures SquaredError(line, x, y) == ErrorOf(v, y)
    decreases |x|
  {
    if x != [] {
      LevelError(line, x[..|x| - 1], y[..|y| - 1], c, v);
    }
  }

  /** The mean is the best single value. */
  lemma MeanIsBest(y: seq<real>, mean: real, v: real)
    requires y != [] && mean == Quotient(Sum(y), |y| as real)
    ensures ErrorOf(mean, y) <= ErrorOf(v, y)
  {
    var n, sum := |y| as real, Sum(y);
    DivMul(sum, n, mean);
    ErrorExpands(mean, y);
    ErrorExpands(v, y);
    Excess(n, sum, mean, v, SquareSum(y));
  }

  lemma Excess(n: real, sum: real, mean: real, v: real, q: real)
    requires n > 0.0 && sum == mean * n
    ensures Expanded(q, mean, sum, n) <= Expanded(q, v, sum, n)
  {
    var d := v - mean;
    SquareSign(d, d * d);
    MulNonNeg(n, d * d, n * (d * d));
    assert n * (d * d) == n * (v * v) - 2.0 * (n * (v * mean)) + n * (mean * mean);
    assert v * sum == n * (v * mean) && mean * sum == n * (mean * mean);
  }

  /** Main result: no line fits the scores better than the degradation line, flat or not. */
  lemma DegradationIsBest(polyfit: Polyfit, x: seq<real>, y: seq<real>)
    requires IsLeastSquares(polyfit) && |x| == |y| > 0
    ensures BestLine(DegradationLine(polyfit, x, y), x, y)
  {
    if !Varies(x) {
      var flat, c := DegradationLine(polyfit, x, y), x[0];
      forall i | 0 <= i < |x| ensures x[i] == c {
        assert !Varies(x);
      }
      LevelError(flat, x, y, c, flat.intercept);
      forall line: Line ensures SquaredError(flat, x, y) <= SquaredError(line, x, y) {
        LevelError(line, x, y, c, line.slope * c + line.intercept);
        MeanIsBest(y, flat.intercept, line.slope * c + line.intercept);
      }
    }
  }
}
