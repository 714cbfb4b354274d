/**
 The resampler's geometry (modules/opencv/pil/Resample.c, precompute_coeffs): for each output
 index, the window of input indices it reads and the weight of each. Reals stand for doubles.
 */
module Windows {
  import opened Collections

  type Filter = real -> real

  /** One axis of the picture: the box `in0..in1` of `inSize` inputs becomes `outSize` outputs. */
  datatype Axis = Axis(inSize: nat, in0: real, in1: real, outSize: nat, reach: real)

  /** The box lies inside the picture. Every filter of the source reaches half a pixel or more. */
  predicate Boxed(a: Axis) {
    0.0 <= a.in0 < a.in1 <= a.inSize as real && a.outSize > 0 && a.reach >= 0.5
  }

  /** A cast from double to int: toward zero. */
  function Trunc(x: real): int {
    if x >= 0.0 then x.Floor else -((-x).Floor)
  }

  function Ceil(x: real): int {
    -((-x).Floor)
  }

  function Scale(a: Axis): real
    requires Boxed(a)
  {
    (a.in1 - a.in0) / (a.outSize as real)
  }

  function Stretch(a: Axis): (w: real)
    requires Boxed(a)
    ensures w >= 1.0
  {
    if Scale(a) < 1.0 then 1.0 else Scale(a)
  }

  function Support(a: Axis): real
    requires Boxed(a)
  {
    a.reach * Stretch(a)
  }

  function Taps(a: Axis): int
    requires Boxed(a)
  {
    Ceil(Support(a)) * 2 + 1
  }

  function Center(a: Axis, i: nat): real
    requires Boxed(a)
  {
    a.in0 + (i as real + 0.5) * Scale(a)
  }

  function First(a: Axis, i: nat): (r: nat)
    requires Boxed(a)
  {
    var v := Trunc(Center(a, i) - Support(a) + 0.5);
    if v < 0 then 0 else v
  }

  function End(a: Axis, i: nat): int
    requires Boxed(a)
  {
    var v := Trunc(Center(a, i) + Support(a) + 0.5);
    if v > a.inSize then a.inSize else v
  }

  // ---- where windows lie -------------------------------------------------------------------------

  lemma CenterInside(a: Axis, i: nat)
    requires Boxed(a) && i < a.outSize
    ensures Scale(a) > 0.0 && a.in0 < Center(a, i) < a.in1
  {
    var s, n := Scale(a), a.outSize as real;
    assert s * n == a.in1 - a.in0;
    var x := i as real + 0.5;
    assert x * s > 0.0;
    assert (n - x) * s > 0.0;
    assert x * s + (n - x) * s == s * n;
  }

  lemma SupportReaches(a: Axis)
    requires Boxed(a)
    ensures Stretch(a) >= 1.0 && Support(a) >= 0.5 * Stretch(a) >= 0.5
  {
    assert (a.reach - 0.5) * Stretch(a) >= 0.0;
  }

  /**
   Every window is non-empty, in range, shorter than the row of coefficients kept for it, and
   has in it the input the output lies over.
   */
  lemma WindowRight(a: Axis, i: nat)
    requires Boxed(a) && i < a.outSize
    ensures 0 <= First(a, i) < End(a, i) <= a.inSize && End(a, i) - First(a, i) < Taps(a)
    ensures First(a, i) <= Center(a, i).Floor < End(a, i)
  {
    CenterInside(a, i);
    SupportReaches(a);
    WindowOf(Center(a, i), Support(a), a.inSize);
  }

  /** The same, about any centre inside the picture and any support of half a pixel or more. */
  lemma WindowOf(c: real, s: real, n: nat)
    requires 0.0 < c < n as real && s >= 0.5
    ensures var lo := Trunc(c - s + 0.5); var hi := Trunc(c + s + 0.5);
            var first := if lo < 0 then 0 else lo; var end := if hi > n then n else hi;
            0 <= first <= c.Floor < end <= n && end - first <= 2 * Ceil(s)
  {
    var x, y := c - s + 0.5, c + s + 0.5;
    assert y.Floor as real <= y && x < x.Floor as real + 1.0;
    assert s <= Ceil(s) as real;
    assert (y.Floor - x.Floor) as real < (2 * Ceil(s) + 1) as real;
    assert y.Floor >= c.Floor + 1 by { assert y >= c + 1.0 && (c + 1.0).Floor == c.Floor + 1; }
  }

  /** Windows move only forward: neither their starts nor their ends ever decrease. */
  lemma WindowsForward(a: Axis, i: nat, j: nat)
    requires Boxed(a) && i <= j < a.outSize
    ensures First(a, i) <= First(a, j) && End(a, i) <= End(a, j)
  {
    CenterInside(a, i);
    var d := (j - i) as real;
    assert d * Scale(a) >= 0.0;
    assert Center(a, j) == Center(a, i) + d * Scale(a);
    TruncForward(Center(a, i) - Support(a) + 0.5, Center(a, j) - Support(a) + 0.5);
    TruncForward(Center(a, i) + Support(a) + 0.5, Center(a, j) + Support(a) + 0.5);
  }

  lemma TruncForward(x: real, y: real)
    requires x <= y
    ensures Trunc(x) <= Trunc(y)
  {
  }

  // ---- weights ----------------------------------------------------------------------------------------

  function Count(a: Axis, i: nat): (n: nat)
    requires Boxed(a) && i < a.outSize
    ensures 0 < n < Taps(a) && First(a, i) + n == End(a, i) <= a.inSize
  {
    WindowRight(a, i);
    End(a, i) - First(a, i)
  }

  /** Where the filter is asked about input `First + x`. */
  function Asked(a: Axis, i: nat, x: nat): real
    requires Boxed(a) && i < a.outSize
  {
    InUnits((x + First(a, i)) as real - Center(a, i) + 0.5, Stretch(a))
  }

  /** A distance in units of the stretch. */
  function InUnits(d: real, w: real): real
    requires w >= 1.0
  {
    d * (1.0 / w)
  }

  function RawRow(a: Axis, f: Filter, i: nat): seq<real>
    requires Boxed(a) && i < a.outSize
  {
    seq(Count(a, i), x requires 0 <= x < Count(a, i) => f(Asked(a, i, x)))
  }

  /** The weights of output `i`: divided by their sum unless that is zero. */
  function Row(a: Axis, f: Filter, i: nat): seq<real>
    requires Boxed(a) && i < a.outSize
  {
    var raw := RawRow(a, f, i);
    Over(raw, if Sum(raw) != 0.0 then Sum(raw) else 1.0)
  }

  function Over(s: seq<real>, w: real): (r: seq<real>)
    requires w != 0.0
    ensures |r| == |s| && forall x :: 0 <= x < |s| ==> r[x] == s[x] / w
  {
    seq(|s|, x requires 0 <= x < |s| => s[x] / w)
  }

  lemma {:induction false} SumOver(s: seq<real>, w: real)
    requires w != 0.0
    ensures Sum(Over(s, w)) == Sum(s) / w
  {
    if s != [] {
      var n := |s| - 1;
      SumOver(s[..n], w);
      assert Over(s, w)[..n] == Over(s[..n], w);
    }
  }

  /** The weights of an output add up to one. */
  lemma WeightsSumToOne(a: Axis, f: Filter, i: nat)
    requires Boxed(a) && i < a.outSize && Sum(RawRow(a, f, i)) != 0.0
    ensures Sum(Row(a, f, i)) == 1.0
  {
    hide Sum, RawRow;
    var w := Sum(RawRow(a, f, i));
    SumOver(RawRow(a, f, i), w);
    assert w / w == 1.0;
  }

  /** A filter that is nowhere negative, and positive within half a pixel. */
  ghost predicate Positive(f: Filter) {
    forall t :: f(t) >= 0.0 && (-0.5 < t <= 0.5 ==> f(t) > 0.0)
  }

  lemma {:induction false} SumPositive(s: seq<real>, x: nat)
    requires x < |s| && s[x] > 0.0 && forall y :: 0 <= y < |s| ==> s[y] >= 0.0
    ensures Sum(s) > 0.0
    decreases |s|
  {
    var n := |s| - 1;
    if x < n { SumPositive(s[..n], x); } else { SumNonNegative(s[..n]); }
  }

  lemma {:induction false} SumNonNegative(s: seq<real>)
    requires forall y :: 0 <= y < |s| ==> s[y] >= 0.0
    ensures Sum(s) >= 0.0
  {
    if s != [] { SumNonNegative(s[..|s| - 1]); }
  }

  /** A positive filter never meets the source's zero-sum case, and gives no negative weight. */
  lemma PositiveSums(a: Axis, f: Filter, i: nat)
    requires Boxed(a) && i < a.outSize && Positive(f)
    ensures Sum(RawRow(a, f, i)) > 0.0
    ensures forall x :: 0 <= x < Count(a, i) ==> Row(a, f, i)[x] >= 0.0
  {
    hide Stretch, Support, Center, First, End;
    var raw := RawRow(a, f, i);
    var x := OverCenter(a, i);
    assert raw[x] == f(Asked(a, i, x));
    SumPositive(raw, x);
    forall y | 0 <= y < Count(a, i) ensures Row(a, f, i)[y] >= 0.0 {
      assert raw[y] >= 0.0;
      Quotient(raw[y], Sum(raw));
    }
  }

  /** The input an output lies over is asked about within half a pixel. */
  lemma OverCenter(a: Axis, i: nat) returns (x: nat)
    requires Boxed(a) && i < a.outSize
    ensures x < Count(a, i) && -0.5 < Asked(a, i, x) <= 0.5
  {
    hide Stretch, Support, Center, First, End, Taps;
    WindowRight(a, i);
    SupportReaches(a);
    x := Center(a, i).Floor - First(a, i);
    assert (x + First(a, i)) as real == Center(a, i).Floor as real;
    Shrunk(Center(a, i).Floor as real - Center(a, i) + 0.5, Stretch(a));
  }

  lemma Quotient(x: real, y: real)
    requires x >= 0.0 && y > 0.0
    ensures x / y >= 0.0
  {
  }

  lemma Product(x: real, y: real)
    requires x >= 0.0 && y >= 0.0
    ensures x * y >= 0.0
  {
  }

  lemma Shrunk(t: real, w: real)
    requires -0.5 < t <= 0.5 && w >= 1.0
    ensures -0.5 < InUnits(t, w) <= 0.5
  {
    var v := 1.0 / w;
    assert 0.0 < v <= 1.0;
    var u := if t >= 0.0 then t else -t;
    Product(u, v);
    Product(u, 1.0 - v);
    assert u * (1.0 - v) == u - u * v;
    assert t * v == if t >= 0.0 then u * v else -(u * v);
  }

  // ---- the filters that are plain arithmetic -------------------------------------------------------------

  function Box(x: real): real {
    if -0.5 < x <= 0.5 then 1.0 else 0.0
  }

  function Bilinear(x: real): real {
    var y := if x < 0.0 then -x else x;
    if y < 1.0 then 1.0 - y else 0.0
  }

  function Bicubic(x: real): real {
    var y := if x < 0.0 then -x else x;
    if y < 1.0 then ((-0.5 + 2.0) * y - (-0.5 + 3.0)) * y * y + 1.0
    else if y < 2.0 then (((y - 5.0) * y + 8.0) * y - 4.0) * -0.5
    else 0.0
  }

  /** One over its own input and nothing over the others. */
  ghost predicate Interpolates(f: Filter) {
    f(0.0) == 1.0 && forall t :: t != 0.0 && t == t.Floor as real ==> f(t) == 0.0
  }

  lemma FiltersInterpolate()
    ensures Interpolates(Box) && Interpolates(Bilinear) && Interpolates(Bicubic)
    ensures Positive(Box) && Positive(Bilinear)
  {
    forall t: real | t != 0.0 && t == t.Floor as real ensures Bicubic(t) == 0.0 {
      assert t.Floor == 1 || t.Floor == -1 || t.Floor >= 2 || t.Floor <= -2;
    }
  }
}
