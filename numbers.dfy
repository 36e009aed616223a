/** Floating-point values as the recommender uses them, and the numeric
    helpers built on them: sums, population mean and variance, z-scores and
    the dot product. A numpy float64 is modelled as a real number or NaN;
    rounding and infinities are not modelled, and the square root is a
    parameter (an uninterpreted function of the caller's choice). */
module Numbers {

  /** A float64 value: a real number, or the NaN that numpy produces for
      0/0, for a missing value or for any arithmetic that involves NaN. */
  datatype Num = Real(v: real) | NaN

  /** `a > c` on floats: false whenever `a` is NaN. */
  predicate Above(a: Num, c: real) {
    a.Real? && a.v > c
  }

  predicate AllReal(xs: seq<Num>) {
    forall i :: 0 <= i < |xs| ==> xs[i].Real?
  }

  function Values(xs: seq<Num>): (r: seq<real>)
    requires AllReal(xs)
    ensures |r| == |xs|
    ensures forall i :: 0 <= i < |xs| ==> xs[i] == Real(r[i])
  {
    seq(|xs|, i requires 0 <= i < |xs| => xs[i].v)
  }

  function Sum(xs: seq<real>): real
  {
    if |xs| == 0 then 0.0 else xs[0] + Sum(xs[1..])
  }

  /** Population mean (numpy's `mean`). */
  function Mean(xs: seq<real>): real
    requires |xs| > 0
  {
    Sum(xs) / (|xs| as real)
  }

  /** Population variance (numpy's `std` squared, ddof = 0). */
  function Variance(xs: seq<real>): real
    requires |xs| > 0
  {
    var m := Mean(xs);
    Mean(seq(|xs|, i requires 0 <= i < |xs| => (xs[i] - m) * (xs[i] - m)))
  }

  /** Population standard deviation, for the given square root. */
  function Std(xs: seq<real>, sqrt: real -> real): real
    requires |xs| > 0
  {
    sqrt(Variance(xs))
  }

  /** `(xs - xs.mean()) / xs.std()` on a float vector. Any NaN makes the mean
      NaN and so every element NaN; a zero standard deviation divides 0 by 0
      and gives NaN everywhere too. The empty vector stays empty. */
  function ZScores(xs: seq<Num>, sqrt: real -> real): (r: seq<Num>)
    ensures |r| == |xs|
    ensures Standardizable(xs, sqrt) ==> AllReal(r)
    ensures !Standardizable(xs, sqrt) ==> forall i :: 0 <= i < |r| ==> r[i] == NaN
    ensures Standardizable(xs, sqrt) ==>
              forall i :: 0 <= i < |xs| ==> Restores(r[i], Std(Values(xs), sqrt), Mean(Values(xs)), xs[i].v)
  {
    if Standardizable(xs, sqrt) then
      var m := Mean(Values(xs));
      var s := Std(Values(xs), sqrt);
      var r := seq(|xs|, i requires 0 <= i < |xs| => Real((xs[i].v - m) / s));
      assert forall i :: 0 <= i < |xs| ==> Restores(r[i], s, m, xs[i].v) by {
        forall i | 0 <= i < |xs| ensures Restores(r[i], s, m, xs[i].v) {
          ScaleBack(xs[i].v, m, s);
        }
      }
      r
    else
      seq(|xs|, i => NaN)
  }

  /** Dividing by a non-zero `s` and multiplying back cancel. */
  lemma ScaleBack(x: real, m: real, s: real)
    requires s != 0.0
    ensures (x - m) / s * s + m == x
  {
  }

  /** The score `z`, scaled back by the deviation `s` and shifted back by
      the mean `m`, is the value `x` it was computed from. */
  predicate Restores(z: Num, s: real, m: real, x: real) {
    z.Real? && z.v * s + m == x
  }

  /** The z-scores are proper numbers: no NaN, and a positive spread. A
      zero variance makes numpy's deviation 0 and every score 0/0. */
  predicate Standardizable(xs: seq<Num>, sqrt: real -> real) {
    |xs| > 0 && AllReal(xs) && Variance(Values(xs)) > 0.0 && Std(Values(xs), sqrt) > 0.0
  }

  /** Standardising keeps the order of the values: a larger value gets a
      larger z-score, and equal values the same one. */
  lemma ZScoresMonotone(xs: seq<Num>, sqrt: real -> real, i: nat, j: nat)
    requires Standardizable(xs, sqrt) && i < |xs| && j < |xs|
    ensures xs[i].v <= xs[j].v <==> ZScores(xs, sqrt)[i].v <= ZScores(xs, sqrt)[j].v
  {
    var s := Std(Values(xs), sqrt);
    var m := Mean(Values(xs));
    assert ZScores(xs, sqrt)[i].v == (xs[i].v - m) / s;
    assert ZScores(xs, sqrt)[j].v == (xs[j].v - m) / s;
    ShiftScaleMonotone(xs[i].v, xs[j].v, m, s);
  }

  /** Shifting and then dividing by a positive number keeps the order. */
  lemma ShiftScaleMonotone(a: real, b: real, m: real, s: real)
    requires s > 0.0
    ensures a <= b <==> (a - m) / s <= (b - m) / s
  {
    assert (b - m) / s - (a - m) / s == (b - a) / s;
  }

  /** Shifting every element by `c` shifts the sum by `|xs| * c`. */
  lemma {:induction false} SumShift(xs: seq<real>, ys: seq<real>, c: real)
    requires |ys| == |xs|
    requires forall i :: 0 <= i < |xs| ==> ys[i] == xs[i] - c
    ensures Sum(ys) == Sum(xs) - (|xs| as real) * c
  {
    if |xs| > 0 {
      SumShift(xs[1..], ys[1..], c);
    }
  }

  /** Dividing every element by `s` divides the sum by `s`. */
  lemma {:induction false} SumScale(xs: seq<real>, ys: seq<real>, s: real)
    requires s != 0.0
    requires |ys| == |xs|
    requires forall i :: 0 <= i < |xs| ==> ys[i] == xs[i] / s
    ensures Sum(ys) == Sum(xs) / s
  {
    if |xs| > 0 {
      SumScale(xs[1..], ys[1..], s);
      assert ys[0] + Sum(xs[1..]) / s == (xs[0] + Sum(xs[1..])) / s;
    }
  }

  /** The mean-subtracted values sum to zero, so standardised scores sum to
      zero (mean 0) whenever they are numbers at all. */
  lemma ZScoresSumToZero(xs: seq<Num>, sqrt: real -> real)
    requires Standardizable(xs, sqrt)
    ensures Sum(Values(ZScores(xs, sqrt))) == 0.0
  {
    var vs := Values(xs);
    var m := Mean(vs);
    var s := Std(vs, sqrt);
    var centred := seq(|vs|, i requires 0 <= i < |vs| => vs[i] - m);
    SumShift(vs, centred, m);
    assert Sum(centred) == 0.0;
    SumScale(centred, Values(ZScores(xs, sqrt)), s);
  }

  /** `row.dot(xs)`: the signed sum of products. NaN if any factor is NaN;
      there is no division by the sum of the weights. */
  function Dot(row: seq<real>, xs: seq<Num>): (r: Num)
    requires |row| == |xs|
    ensures r.Real? <==> AllReal(xs)
  {
    if AllReal(xs) then Real(Inner(row, Values(xs))) else NaN
  }

  function Inner(a: seq<real>, b: seq<real>): real
    requires |a| == |b|
  {
    if |a| == 0 then 0.0 else a[0] * b[0] + Inner(a[1..], b[1..])
  }

  /** The dot product is linear in the weights: scaling every similarity by
      `c` scales the prediction by `c`. A weighted average would not change. */
  lemma {:induction false} InnerScales(a: seq<real>, ca: seq<real>, b: seq<real>, c: real)
    requires |a| == |b| == |ca|
    requires forall i :: 0 <= i < |a| ==> ca[i] == c * a[i]
    ensures Inner(ca, b) == c * Inner(a, b)
  {
    if |a| > 0 {
      InnerScales(a[1..], ca[1..], b[1..], c);
      assert ca[0] * b[0] == c * (a[0] * b[0]);
    }
  }

  /** Splitting the played games in two splits the prediction in two: the
      dot product is a plain sum over the columns. */
  lemma {:induction false} InnerAppend(a1: seq<real>, a2: seq<real>, b1: seq<real>, b2: seq<real>)
    requires |a1| == |b1| && |a2| == |b2|
    ensures Inner(a1 + a2, b1 + b2) == Inner(a1, b1) + Inner(a2, b2)
  {
    if |a1| > 0 {
      assert (a1 + a2)[1..] == a1[1..] + a2;
      assert (b1 + b2)[1..] == b1[1..] + b2;
      InnerAppend(a1[1..], a2, b1[1..], b2);
    } else {
      assert a1 + a2 == a2;
      assert b1 + b2 == b2;
    }
  }

  /** Opposite similarities to two equally played games cancel exactly. */
  lemma CancellingWeights(w: real, x: real)
    ensures Dot([w, -w], [Real(x), Real(x)]) == Real(0.0)
  {
    var row, vs := [w, -w], [x, x];
    assert Values([Real(x), Real(x)]) == vs;
    assert Inner(row[1..], vs[1..]) == -w * x + Inner([], []);
  }
}
