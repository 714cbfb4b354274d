/**
 Two-pass resampling of one eight-bit band (modules/opencv/pil/Resample.c). The horizontal pass
 is made only for the rows the vertical pass will read, into a temporary picture that starts at
 the first of them; here that shortcut is shown to make no difference.
 */
module Resampling {
  import opened Collections
  import opened Windows
  import opened FixedPoint
  import opened Lobes
  import opened Sines

  type Image = seq<seq<Pixel>>

  const INT_MAX: int := 0x7FFF_FFFF

  // ---- what resampling should give -----------------------------------------------------------------

  ghost predicate Sized(p: Image, w: nat, h: nat) {
    |p| == h && forall y :: 0 <= y < h ==> |p[y]| == w
  }

  function Weights(a: Axis, f: Filter, i: nat): (ks: seq<int>)
    requires Boxed(a) && i < a.outSize
    ensures |ks| == Count(a, i)
  {
    RowLength(a, f, i);
    FixedRow(Row(a, f, i))
  }

  function Part(line: seq<Pixel>, from: nat, n: nat): (r: seq<Pixel>)
    requires from + n <= |line|
    ensures |r| == n && forall j :: 0 <= j < n ==> r[j] == line[from + j]
  {
    line[from..from + n]
  }

  ghost function Column(p: Image, x: nat, from: nat, n: nat): (c: seq<Pixel>)
    requires from + n <= |p| && forall y :: 0 <= y < |p| ==> x < |p[y]|
    ensures |c| == n && forall j :: 0 <= j < n ==> c[j] == p[from + j][x]
  {
    seq(n, j requires 0 <= j < n => p[from + j][x])
  }

  ghost function AcrossAt(p: Image, a: Axis, f: Filter, y: nat, x: nat): Pixel
    requires Boxed(a) && Sized(p, a.inSize, |p|) && y < |p| && x < a.outSize
  {
    Output(Part(p[y], First(a, x), Count(a, x)), Weights(a, f, x))
  }

  ghost function DownAt(p: Image, w: nat, a: Axis, f: Filter, y: nat, x: nat): Pixel
    requires Boxed(a) && Sized(p, w, a.inSize) && y < a.outSize && x < w
  {
    Output(Column(p, x, First(a, y), Count(a, y)), Weights(a, f, y))
  }

  /** Every row resampled along itself. */
  ghost function Across(p: Image, a: Axis, f: Filter): (r: Image)
    requires Boxed(a) && Sized(p, a.inSize, |p|)
    ensures Sized(r, a.outSize, |p|)
    ensures forall y, x :: 0 <= y < |p| && 0 <= x < a.outSize ==> r[y][x] == AcrossAt(p, a, f, y, x)
  {
    seq(|p|, y requires 0 <= y < |p| => seq(a.outSize, x requires 0 <= x < a.outSize => AcrossAt(p, a, f, y, x)))
  }

  /** Every column resampled along itself. */
  ghost function Down(p: Image, w: nat, a: Axis, f: Filter): (r: Image)
    requires Boxed(a) && Sized(p, w, a.inSize)
    ensures Sized(r, w, a.outSize)
    ensures forall y, x :: 0 <= y < a.outSize && 0 <= x < w ==> r[y][x] == DownAt(p, w, a, f, y, x)
  {
    seq(a.outSize, y requires 0 <= y < a.outSize => seq(w, x requires 0 <= x < w => DownAt(p, w, a, f, y, x)))
  }

  /** A pass is skipped when the box is the whole axis and its size does not change. */
  predicate Needed(a: Axis) {
    a.outSize != a.inSize || a.in0 != 0.0 || a.in1 != a.outSize as real
  }

  ghost function Resampled(p: Image, ax: Axis, ay: Axis, f: Filter): (r: Image)
    requires Boxed(ax) && Boxed(ay) && Sized(p, ax.inSize, ay.inSize)
    ensures Sized(r, ax.outSize, ay.outSize)
  {
    var t := if Needed(ax) then Across(p, ax, f) else p;
    if Needed(ay) then Down(t, ax.outSize, ay, f) else t
  }

  /** Both passes, always. */
  ghost function TwoPass(p: Image, ax: Axis, ay: Axis, f: Filter): (r: Image)
    requires Boxed(ax) && Boxed(ay) && Sized(p, ax.inSize, ay.inSize)
  {
    Down(Across(p, ax, f), ax.outSize, ay, f)
  }

  // ---- skipping a pass ------------------------------------------------------------------------------------

  /** An axis left as it is: output `i` lies over input `i`. */
  lemma StillCenter(a: Axis, i: nat)
    requires Boxed(a) && !Needed(a) && i < a.outSize
    ensures Stretch(a) == 1.0 && Center(a, i) == i as real + 0.5 && First(a, i) <= i < End(a, i)
  {
    var n := a.outSize as real;
    assert n / n == 1.0;
    WindowRight(a, i);
    assert (i as real + 0.5).Floor == i;
  }

  /** The raw weights of such an axis under an interpolating filter: one at its own input. */
  lemma StillRaw(a: Axis, f: Filter, i: nat, x: nat)
    requires Boxed(a) && !Needed(a) && i < a.outSize && Interpolates(f) && x < Count(a, i)
    ensures RawRow(a, f, i)[x] == if x + First(a, i) == i then 1.0 else 0.0
  {
    hide Center, Stretch, First, End, Scale;
    StillCenter(a, i);
    var d: int := x + First(a, i) - i;
    assert Asked(a, i, x) == d as real by {
      assert (x + First(a, i)) as real - Center(a, i) + 0.5 == d as real;
      assert InUnits(d as real, 1.0) == d as real;
    }
    assert (d as real).Floor == d;
  }

  lemma {:induction false} SumOfOne(s: seq<real>, k: nat)
    requires forall x :: 0 <= x < |s| ==> s[x] == if x == k then 1.0 else 0.0
    ensures Sum(s) == if k < |s| then 1.0 else 0.0
  {
    if s != [] { SumOfOne(s[..|s| - 1], k); }
  }

  lemma {:induction false} DotOfOne(ps: seq<Pixel>, ks: seq<int>, k: nat)
    requires |ps| == |ks| && forall x :: 0 <= x < |ks| ==> ks[x] == if x == k then ONE else 0
    ensures Dot(ps, ks) == if k < |ps| then ps[k] * ONE else 0
  {
    if ps != [] {
      var n := |ps| - 1;
      DotOfOne(ps[..n], ks[..n], k);
      assert ps[n] * 0 == 0;
    }
  }

  lemma StillWeights(a: Axis, f: Filter, i: nat)
    requires Boxed(a) && !Needed(a) && i < a.outSize && Interpolates(f)
    ensures 0 <= i - First(a, i) < Count(a, i)
    ensures forall x :: 0 <= x < Count(a, i) ==> Weights(a, f, i)[x] == if x == i - First(a, i) then ONE else 0
  {
    hide Center, Stretch, First, End, Scale, RawRow, Sum;
    StillCenter(a, i);
    var raw, k := RawRow(a, f, i), i - First(a, i);
    RowLength(a, f, i);
    forall x | 0 <= x < |raw| ensures raw[x] == if x == k then 1.0 else 0.0 {
      StillRaw(a, f, i, x);
    }
    SumOfOne(raw, k);
    forall x | 0 <= x < Count(a, i) ensures Weights(a, f, i)[x] == if x == k then ONE else 0 {
      assert Row(a, f, i)[x] == raw[x] / 1.0;
      assert Fixed(1.0) == ONE && Fixed(0.0) == 0;
    }
  }

  /** A window over its own input only gives that input back. */
  lemma StillOutput(a: Axis, f: Filter, i: nat, ps: seq<Pixel>)
    requires Boxed(a) && !Needed(a) && i < a.outSize && Interpolates(f) && |ps| == Count(a, i)
    ensures 0 <= i - First(a, i) < Count(a, i) && Output(ps, Weights(a, f, i)) == ps[i - First(a, i)]
  {
    hide First, End, Weights, Dot;
    StillWeights(a, f, i);
    DotOfOne(ps, Weights(a, f, i), i - First(a, i));
  }

  /** Skipping the passes that are not needed changes nothing. */
  lemma SkippingIsSafe(p: Image, ax: Axis, ay: Axis, f: Filter)
    requires Boxed(ax) && Boxed(ay) && Sized(p, ax.inSize, ay.inSize) && Interpolates(f)
    ensures Resampled(p, ax, ay, f) == TwoPass(p, ax, ay, f)
  {
    hide First, End, Weights, Output;
    var t := if Needed(ax) then Across(p, ax, f) else p;
    if !Needed(ax) {
      forall y, x | 0 <= y < |p| && 0 <= x < ax.outSize ensures AcrossAt(p, ax, f, y, x) == p[y][x] {
        StillOutput(ax, f, x, Part(p[y], First(ax, x), Count(ax, x)));
      }
      SameImage(t, Across(p, ax, f), ax.outSize, |p|);
    }
    if !Needed(ay) {
      forall y, x | 0 <= y < ay.outSize && 0 <= x < ax.outSize ensures DownAt(t, ax.outSize, ay, f, y, x) == t[y][x] {
        StillOutput(ay, f, y, Column(t, x, First(ay, y), Count(ay, y)));
      }
      SameImage(t, Down(t, ax.outSize, ay, f), ax.outSize, |p|);
    }
  }

  lemma SameImage(p: Image, q: Image, w: nat, h: nat)
    requires Sized(p, w, h) && Sized(q, w, h) && forall y, x :: 0 <= y < h && 0 <= x < w ==> p[y][x] == q[y][x]
    ensures p == q
  {
    forall y | 0 <= y < h ensures p[y] == q[y] {
    }
  }

  // ---- what a picture keeps ---------------------------------------------------------------------------------

  ghost predicate Within(p: Image, lo: Pixel, hi: Pixel) {
    forall y, x :: 0 <= y < |p| && 0 <= x < |p[y]| ==> lo <= p[y][x] <= hi
  }

  /** Rows of weights that add up to one, or near enough, in no more taps than rounding allows. */
  ghost predicate Balanced(a: Axis, f: Filter)
    requires Boxed(a)
  {
    forall i :: 0 <= i < a.outSize ==> Count(a, i) <= MAX_TAPS && Sum(RawRow(a, f, i)) != 0.0
  }

  lemma ConstantAcross(p: Image, a: Axis, f: Filter, c: Pixel)
    requires Boxed(a) && Sized(p, a.inSize, |p|) && Balanced(a, f) && Within(p, c, c)
    ensures Within(Across(p, a, f), c, c)
  {
    hide First, End, Output, RawRow, Sum, Row;
    forall y, x | 0 <= y < |p| && 0 <= x < a.outSize ensures AcrossAt(p, a, f, y, x) == c {
      RowNearOne(a, f, x);
      ConstantStays(c, Part(p[y], First(a, x), Count(a, x)), Weights(a, f, x));
    }
  }

  lemma ConstantDown(p: Image, w: nat, a: Axis, f: Filter, c: Pixel)
    requires Boxed(a) && Sized(p, w, a.inSize) && Balanced(a, f) && Within(p, c, c)
    ensures Within(Down(p, w, a, f), c, c)
  {
    hide First, End, Output, RawRow, Sum, Row;
    forall y, x | 0 <= y < a.outSize && 0 <= x < w ensures DownAt(p, w, a, f, y, x) == c {
      RowNearOne(a, f, y);
      ConstantStays(c, Column(p, x, First(a, y), Count(a, y)), Weights(a, f, y));
    }
  }

  /** A picture of one colour stays that colour, under any filter whose weights do not cancel. */
  lemma ConstantImageStays(p: Image, ax: Axis, ay: Axis, f: Filter, c: Pixel)
    requires Boxed(ax) && Boxed(ay) && Sized(p, ax.inSize, ay.inSize) && Within(p, c, c)
    requires Balanced(ax, f) && Balanced(ay, f)
    ensures Within(Resampled(p, ax, ay, f), c, c)
  {
    hide Balanced, Within, Across, Down;
    var t := if Needed(ax) then Across(p, ax, f) else p;
    if Needed(ax) { ConstantAcross(p, ax, f, c); }
    if Needed(ay) { ConstantDown(t, ax.outSize, ay, f, c); }
  }

  /** A window of one colour keeps it exactly when the weights do not cancel, or the colour is black. */
  lemma ConstantExactly(a: Axis, f: Filter, i: nat, ps: seq<Pixel>, c: Pixel)
    requires Boxed(a) && i < a.outSize && Count(a, i) <= MAX_TAPS && |ps| == Count(a, i)
    requires forall x :: 0 <= x < |ps| ==> ps[x] == c
    ensures Output(ps, Weights(a, f, i)) == c <==> Sum(RawRow(a, f, i)) != 0.0 || c == 0
  {
    hide First, End, Output, RawRow, Sum, Row;
    if Sum(RawRow(a, f, i)) != 0.0 {
      RowNearOne(a, f, i);
      ConstantStays(c, ps, Weights(a, f, i));
    } else {
      RowCancels(a, f, i);
      CancelledIsBlack(c, ps, Weights(a, f, i));
    }
  }

  /**
   The weights of positive filters, and of filters with lobes no deeper than a quarter of what they give
   near, never cancel.
   */
  lemma FiltersBalance(a: Axis, f: Filter, near: real, depth: real)
    requires Boxed(a) && Taps(a) <= MAX_TAPS && (Positive(f) || Lobed(f, near, depth))
    ensures Balanced(a, f)
  {
    hide First, End, RawRow, Sum, Taps, Positive, Lobed;
    forall i | 0 <= i < a.outSize ensures Count(a, i) <= MAX_TAPS && Sum(RawRow(a, f, i)) != 0.0 {
      if Positive(f) { PositiveSums(a, f, i); } else { NeverCancels(a, f, near, depth, i); }
    }
  }

  /** So a picture of one colour stays that colour under every such filter. */
  lemma ConstantPictureStays(p: Image, ax: Axis, ay: Axis, f: Filter, c: Pixel, near: real, depth: real)
    requires Boxed(ax) && Boxed(ay) && Sized(p, ax.inSize, ay.inSize) && Within(p, c, c)
    requires Taps(ax) <= MAX_TAPS && Taps(ay) <= MAX_TAPS && (Positive(f) || Lobed(f, near, depth))
    ensures Within(Resampled(p, ax, ay, f), c, c)
  {
    hide Balanced, Within, Positive, Lobed, Resampled;
    FiltersBalance(ax, f, near, depth);
    FiltersBalance(ay, f, near, depth);
    ConstantImageStays(p, ax, ay, f, c);
  }

  lemma BoundedAcross(p: Image, a: Axis, f: Filter, lo: Pixel, hi: Pixel)
    requires Boxed(a) && Sized(p, a.inSize, |p|) && Taps(a) <= MAX_TAPS && Positive(f) && Within(p, lo, hi) && lo <= hi
    ensures Within(Across(p, a, f), lo, hi)
  {
    hide First, End, Output, RawRow, Sum, Row, Taps;
    forall y, x | 0 <= y < |p| && 0 <= x < a.outSize ensures lo <= AcrossAt(p, a, f, y, x) <= hi {
      PositiveRow(a, f, x);
      StaysBetween(lo, hi, Part(p[y], First(a, x), Count(a, x)), Weights(a, f, x));
    }
  }

  lemma BoundedDown(p: Image, w: nat, a: Axis, f: Filter, lo: Pixel, hi: Pixel)
    requires Boxed(a) && Sized(p, w, a.inSize) && Taps(a) <= MAX_TAPS && Positive(f) && Within(p, lo, hi) && lo <= hi
    ensures Within(Down(p, w, a, f), lo, hi)
  {
    hide First, End, Output, RawRow, Sum, Row, Taps;
    forall y, x | 0 <= y < a.outSize && 0 <= x < w ensures lo <= DownAt(p, w, a, f, y, x) <= hi {
      PositiveRow(a, f, y);
      StaysBetween(lo, hi, Column(p, x, First(a, y), Count(a, y)), Weights(a, f, y));
    }
  }

  /** A positive filter makes nothing darker than the darkest input or lighter than the lightest. */
  lemma RangeKept(p: Image, ax: Axis, ay: Axis, f: Filter, lo: Pixel, hi: Pixel)
    requires Boxed(ax) && Boxed(ay) && Sized(p, ax.inSize, ay.inSize) && Within(p, lo, hi) && lo <= hi
    requires Taps(ax) <= MAX_TAPS && Taps(ay) <= MAX_TAPS && Positive(f)
    ensures Within(Resampled(p, ax, ay, f), lo, hi)
  {
    hide Within, Across, Down;
    var t := if Needed(ax) then Across(p, ax, f) else p;
    if Needed(ax) { BoundedAcross(p, ax, f, lo, hi); }
    if Needed(ay) { BoundedDown(t, ax.outSize, ay, f, lo, hi); }
  }

  // ---- the five filters -------------------------------------------------------------------------------------

  /** The filters that ImagingResample can be asked for. */
  datatype Choice = ChooseBox | ChooseBilinear | ChooseHamming | ChooseBicubic | ChooseLanczos

  function Chosen(c: Trig, k: Choice): Filter {
    match k
    case ChooseBox => Box
    case ChooseBilinear => Bilinear
    case ChooseHamming => ((x: real) => Hamming(c, x))
    case ChooseBicubic => Bicubic
    case ChooseLanczos => ((x: real) => Lanczos(c, x))
  }

  /** Two filters have lobes, the others are positive. */
  lemma ChosenShape(c: Trig, k: Choice)
    requires Textbook(c)
    ensures Positive(Chosen(c, k)) || Lobed(Chosen(c, k), 0.5625, 0.125) || Lobed(Chosen(c, k), 0.6, 0.148)
    ensures Positive(Chosen(c, k)) <==> !k.ChooseBicubic? && !k.ChooseLanczos?
  {
    hide Textbook, Lobed, Positive;
    FiltersInterpolate();
    match k
    case ChooseBox =>
    case ChooseBilinear =>
    case ChooseHamming => HammingIsPositive(c);
    case ChooseBicubic => BicubicIsLobed(); NotPositive(Bicubic, 1.5) by { assert Bicubic(1.5) < 0.0; }
    case ChooseLanczos => LanczosIsLobed(c); NotPositive(Chosen(c, k), 1.5) by { LanczosDips(c); }
  }

  lemma NotPositive(f: Filter, x: real)
    requires f(x) < 0.0
    ensures !Positive(f)
  {
  }

  lemma ChosenInterpolates(c: Trig, k: Choice)
    requires Textbook(c)
    ensures Interpolates(Chosen(c, k))
  {
    hide Textbook, Interpolates;
    FiltersInterpolate();
    HammingInterpolates(c);
    LanczosInterpolates(c);
  }

  /** Every filter on offer keeps a picture of one colour. */
  lemma EveryFilterKeepsColour(p: Image, ax: Axis, ay: Axis, c: Trig, k: Choice, colour: Pixel)
    requires Boxed(ax) && Boxed(ay) && Sized(p, ax.inSize, ay.inSize) && Within(p, colour, colour)
    requires Taps(ax) <= MAX_TAPS && Taps(ay) <= MAX_TAPS && Textbook(c)
    ensures Within(Resampled(p, ax, ay, Chosen(c, k)), colour, colour)
  {
    hide Within, Positive, Lobed, Resampled, Chosen, Textbook;
    ChosenShape(c, k);
    if Lobed(Chosen(c, k), 0.5625, 0.125) {
      ConstantPictureStays(p, ax, ay, Chosen(c, k), colour, 0.5625, 0.125);
    } else {
      ConstantPictureStays(p, ax, ay, Chosen(c, k), colour, 0.6, 0.148);
    }
  }

  /** Under every filter on offer, the passes that are skipped would have changed nothing. */
  lemma EveryFilterMaySkip(p: Image, ax: Axis, ay: Axis, c: Trig, k: Choice)
    requires Boxed(ax) && Boxed(ay) && Sized(p, ax.inSize, ay.inSize) && Textbook(c)
    ensures Resampled(p, ax, ay, Chosen(c, k)) == TwoPass(p, ax, ay, Chosen(c, k))
  {
    hide Resampled, TwoPass, Interpolates, Chosen, Textbook;
    ChosenInterpolates(c, k);
    SkippingIsSafe(p, ax, ay, Chosen(c, k));
  }

  /** Box, bilinear and Hamming keep every byte within the range of the picture. */
  lemma PositiveFiltersKeepRange(p: Image, ax: Axis, ay: Axis, c: Trig, k: Choice, lo: Pixel, hi: Pixel)
    requires Boxed(ax) && Boxed(ay) && Sized(p, ax.inSize, ay.inSize) && Within(p, lo, hi) && lo <= hi
    requires Taps(ax) <= MAX_TAPS && Taps(ay) <= MAX_TAPS && Textbook(c) && !k.ChooseBicubic? && !k.ChooseLanczos?
    ensures Within(Resampled(p, ax, ay, Chosen(c, k)), lo, hi)
  {
    hide Within, Positive, Lobed, Resampled, Chosen, Textbook;
    ChosenShape(c, k);
    RangeKept(p, ax, ay, Chosen(c, k), lo, hi);
  }
}
