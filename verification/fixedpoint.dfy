/**
 Eight-bit sums in fixed point (modules/opencv/pil/Resample.c: normalize_coeffs_8bpc, clip8 and
 the sum of each output): weights become integers in units of 2^-22, the sum is kept in an int32
 that wraps, and a table turns its top bits into a byte.
 */
module FixedPoint {
  import opened Collections
  import opened Windows

  const ONE: int := 0x40_0000
  const HALF: int := 0x20_0000
  const MAX_TAPS: int := 16448

  type Pixel = v: int | 0 <= v < 256

  /** A weight in fixed point, rounded to nearest, halves away from zero. */
  function Fixed(k: real): int {
    if k < 0.0 then Trunc(-0.5 + k * ONE as real) else Trunc(0.5 + k * ONE as real)
  }

  lemma FixedNear(k: real)
    ensures -0.5 <= Fixed(k) as real - k * ONE as real <= 0.5 && (k >= 0.0 ==> Fixed(k) >= 0)
  {
    FixedOf(k * ONE as real, k < 0.0);
  }

  lemma FixedOf(x: real, negative: bool)
    requires negative <==> x < 0.0
    ensures var r := Trunc((if negative then -0.5 else 0.5) + x); -0.5 <= r as real - x <= 0.5 && (!negative ==> r >= 0)
  {
  }

  function FixedRow(ks: seq<real>): (r: seq<int>)
    ensures |r| == |ks| && forall x :: 0 <= x < |ks| ==> r[x] == Fixed(ks[x])
  {
    seq(|ks|, x requires 0 <= x < |ks| => Fixed(ks[x]))
  }

  function Total(ks: seq<int>): int {
    if ks == [] then 0 else Total(ks[..|ks| - 1]) + ks[|ks| - 1]
  }

  /** Rounding each of `n` weights moves their sum by at most half a unit each. */
  lemma {:induction false} TotalNear(ks: seq<real>)
    ensures -(|ks| as real) / 2.0 <= Total(FixedRow(ks)) as real - Sum(ks) * ONE as real <= |ks| as real / 2.0
  {
    if ks != [] {
      var n := |ks| - 1;
      TotalNear(ks[..n]);
      assert FixedRow(ks)[..n] == FixedRow(ks[..n]);
      FixedNear(ks[n]);
      var s, k, one := Sum(ks[..n]), ks[n], ONE as real;
      assert (s + k) * one == s * one + k * one;
    }
  }

  // ---- sums ----------------------------------------------------------------------------------------

  /** Two's complement: what an int32 holds of an exact value. */
  function Wrap32(x: int): (r: int)
    ensures -0x8000_0000 <= r < 0x8000_0000
    ensures -0x8000_0000 <= x < 0x8000_0000 ==> r == x
  {
    (x + 0x8000_0000) % 0x1_0000_0000 - 0x8000_0000
  }

  lemma WrapAdds(x: int, y: int)
    ensures Wrap32(Wrap32(x) + y) == Wrap32(x + y)
  {
    var m := 0x1_0000_0000;
    var q := (x + 0x8000_0000) / m;
    assert Wrap32(x) == x - m * q;
    ModShift(x + y + 0x8000_0000, -q);
  }

  lemma ModShift(x: int, q: int)
    ensures (x + 0x1_0000_0000 * q) % 0x1_0000_0000 == x % 0x1_0000_0000
  {
    var m := 0x1_0000_0000;
    assert x == m * (x / m) + x % m;
    SameRemainder(x + m * q, x / m + q, x % m);
  }

  lemma SameRemainder(x: int, q: int, r: int)
    requires x == 0x1_0000_0000 * q + r && 0 <= r < 0x1_0000_0000
    ensures x % 0x1_0000_0000 == r
  {
  }

  /** The exact sum of pixels times weights. */
  function Dot(ps: seq<Pixel>, ks: seq<int>): int
    requires |ps| == |ks|
  {
    if ps == [] then 0 else Dot(ps[..|ps| - 1], ks[..|ks| - 1]) + ps[|ps| - 1] * ks[|ks| - 1]
  }

  /** The source's table: values -640 to 639, held from index 640 on. */
  function ClipTable(): (t: seq<Pixel>)
    ensures |t| == 1280
  {
    seq(1280, j => ClipEntry(j))
  }

  function ClipEntry(j: int): Pixel {
    if j < 640 then 0 else if j < 640 + 256 then j - 640 else 255
  }

  /** clip8: every int32 has its entry. */
  function Clip8(ss: int): (r: Pixel)
    requires -0x8000_0000 <= ss < 0x8000_0000
    ensures 0 <= ss < 256 * ONE ==> r == ss / ONE
  {
    assert -640 <= ss / ONE < 640;
    ClipTable()[640 + ss / ONE]
  }

  /** The byte an output gets from its window and its fixed-point weights. */
  function Output(ps: seq<Pixel>, ks: seq<int>): Pixel
    requires |ps| == |ks|
  {
    Clip8(Wrap32(HALF + Dot(ps, ks)))
  }

  // ---- what rounding does to a picture -------------------------------------------------------------------

  /** Fixed-point weights whose sum is off one by at most half a unit each. */
  ghost predicate NearOne(ks: seq<int>) {
    ONE - |ks| / 2 <= Total(ks) <= ONE + |ks| / 2
  }

  lemma RowNearOne(a: Axis, f: Filter, i: nat)
    requires Boxed(a) && i < a.outSize && Sum(RawRow(a, f, i)) != 0.0
    ensures NearOne(FixedRow(Row(a, f, i)))
  {
    WeightsSumToOne(a, f, i);
    TotalNear(Row(a, f, i));
    HalfRounds(Total(FixedRow(Row(a, f, i))) - ONE, |Row(a, f, i)|);
  }

  lemma HalfRounds(d: int, n: nat)
    requires -(n as real) / 2.0 <= d as real <= n as real / 2.0
    ensures -(n / 2) <= d <= n / 2
  {
    assert 0 <= 2 * d + n && 2 * d <= n;
  }

  lemma {:induction false} DotConstant(c: Pixel, ps: seq<Pixel>, ks: seq<int>)
    requires |ps| == |ks| && forall x :: 0 <= x < |ps| ==> ps[x] == c
    ensures Dot(ps, ks) == c * Total(ks)
  {
    if ps != [] {
      var n := |ps| - 1;
      DotConstant(c, ps[..n], ks[..n]);
      assert c * (Total(ks[..n]) + ks[n]) == c * Total(ks[..n]) + c * ks[n];
    }
  }

  /** A sum near `c` times one is rounded to `c`. */
  lemma RoundsTo(c: Pixel, total: int, n: nat)
    requires n <= MAX_TAPS && ONE - n / 2 <= total <= ONE + n / 2
    ensures c * ONE < HALF + c * total < (c + 1) * ONE
  {
    var e := total - ONE;
    assert c * total == c * ONE + c * e;
    Scaled(c, e, n / 2);
  }

  lemma Scaled(c: Pixel, e: int, n: nat)
    requires 0 <= e + n && e <= n && n <= MAX_TAPS / 2
    ensures -HALF < c * e < HALF
  {
    Times(c, 255, n - e);
    Times(c, 255, n + e);
    Times(c, 255, n);
    assert c * (n - e) == c * n - c * e && c * (n + e) == c * n + c * e;
  }

  lemma Times(x: nat, y: nat, n: nat)
    requires x <= y
    ensures 0 <= x * n <= y * n
  {
    assert (y - x) * n >= 0;
  }

  /** A window of one colour gives that colour, whatever the signs of the weights. */
  lemma ConstantStays(c: Pixel, ps: seq<Pixel>, ks: seq<int>)
    requires |ps| == |ks| <= MAX_TAPS && NearOne(ks) && forall x :: 0 <= x < |ps| ==> ps[x] == c
    ensures Output(ps, ks) == c
  {
    hide Dot, Total;
    DotConstant(c, ps, ks);
    RoundsTo(c, Total(ks), |ks|);
  }

  /** Weights that cancel make a window of one colour black. */
  lemma CancelledIsBlack(c: Pixel, ps: seq<Pixel>, ks: seq<int>)
    requires |ps| == |ks| <= MAX_TAPS && 0 <= Total(ks) + |ks| / 2 <= 2 * (|ks| / 2)
    requires forall x :: 0 <= x < |ps| ==> ps[x] == c
    ensures Output(ps, ks) == 0
  {
    hide Dot, Total;
    DotConstant(c, ps, ks);
    Scaled(c, Total(ks), |ks| / 2);
  }

  lemma RowCancels(a: Axis, f: Filter, i: nat)
    requires Boxed(a) && i < a.outSize && Sum(RawRow(a, f, i)) == 0.0
    ensures var ks := FixedRow(Row(a, f, i)); 0 <= Total(ks) + |ks| / 2 <= 2 * (|ks| / 2)
  {
    hide RawRow;
    SumOver(RawRow(a, f, i), 1.0);
    TotalNear(Row(a, f, i));
    assert 0.0 / 1.0 == 0.0 && 0.0 * ONE as real == 0.0;
    HalfRounds(Total(FixedRow(Row(a, f, i))), |Row(a, f, i)|);
  }

  ghost predicate NonNegative(ks: seq<int>) {
    forall x :: 0 <= x < |ks| ==> ks[x] >= 0
  }

  lemma {:induction false} DotBetween(lo: Pixel, hi: Pixel, ps: seq<Pixel>, ks: seq<int>)
    requires |ps| == |ks| && NonNegative(ks) && forall x :: 0 <= x < |ps| ==> lo <= ps[x] <= hi
    ensures lo * Total(ks) <= Dot(ps, ks) <= hi * Total(ks) && Total(ks) >= 0
  {
    if ps != [] {
      var n := |ps| - 1;
      DotBetween(lo, hi, ps[..n], ks[..n]);
      Times(lo, ps[n], ks[n]);
      Times(ps[n], hi, ks[n]);
      var t, k := Total(ks[..n]), ks[n];
      assert lo * (t + k) == lo * t + lo * k && hi * (t + k) == hi * t + hi * k;
    }
  }

  lemma {:induction false} TotalGrows(ks: seq<int>, n: nat)
    requires NonNegative(ks) && n <= |ks|
    ensures 0 <= Total(ks[..n]) <= Total(ks)
  {
    if n == |ks| {
      assert ks[..n] == ks;
      if n > 0 { TotalGrows(ks[..n - 1], n - 1); assert ks[..n - 1][..n - 1] == ks[..n - 1]; }
    } else {
      TotalGrows(ks[..|ks| - 1], n);
      assert ks[..|ks| - 1][..n] == ks[..n];
    }
  }

  /** Weights nowhere negative keep every output between the least and the greatest of its window. */
  lemma StaysBetween(lo: Pixel, hi: Pixel, ps: seq<Pixel>, ks: seq<int>)
    requires |ps| == |ks| <= MAX_TAPS && NearOne(ks) && NonNegative(ks)
    requires forall x :: 0 <= x < |ps| ==> lo <= ps[x] <= hi
    requires lo <= hi
    ensures lo <= Output(ps, ks) <= hi
  {
    hide Dot, Total;
    DotBetween(lo, hi, ps, ks);
    RoundsTo(lo, Total(ks), |ks|);
    RoundsTo(hi, Total(ks), |ks|);
    var ss := HALF + Dot(ps, ks);
    assert lo * ONE < ss < (hi + 1) * ONE;
    assert lo <= ss / ONE <= hi;
  }

  /** ... and no partial sum leaves the int32 range. */
  lemma NoOverflow(ps: seq<Pixel>, ks: seq<int>, n: nat)
    requires |ps| == |ks| <= MAX_TAPS && NearOne(ks) && NonNegative(ks) && n <= |ps|
    ensures HALF <= HALF + Dot(ps[..n], ks[..n]) < 0x8000_0000
  {
    hide Dot, Total;
    DotBetween(0, 255, ps[..n], ks[..n]);
    TotalGrows(ks, n);
  }

  /** A weight row of a positive filter is such a row. */
  lemma PositiveRow(a: Axis, f: Filter, i: nat)
    requires Boxed(a) && i < a.outSize && Positive(f)
    ensures NearOne(FixedRow(Row(a, f, i))) && NonNegative(FixedRow(Row(a, f, i)))
  {
    hide Row, RawRow;
    PositiveSums(a, f, i);
    RowNearOne(a, f, i);
    RowLength(a, f, i);
    forall x | 0 <= x < |FixedRow(Row(a, f, i))| ensures FixedRow(Row(a, f, i))[x] >= 0 {
      FixedNear(Row(a, f, i)[x]);
    }
  }

  lemma RowLength(a: Axis, f: Filter, i: nat)
    requires Boxed(a) && i < a.outSize
    ensures |Row(a, f, i)| == |RawRow(a, f, i)| == Count(a, i)
  {
  }

  // ---- coefficients written over the doubles they are read from ------------------------------------------

  /** Four bytes of an int32, least significant first. */
  function Int32Bytes(k: int): (bs: seq<Pixel>)
    ensures |bs| == 4
  {
    var u := k % 0x1_0000_0000;
    [u % 256, u / 256 % 256, u / 0x1_0000 % 256, u / 0x100_0000 % 256]
  }

  function Int32Of(bs: seq<Pixel>): int
    requires |bs| == 4
  {
    var b0: int, b1: int, b2: int, b3: int := bs[0], bs[1], bs[2], bs[3];
    var u := b0 + 256 * b1 + 0x1_0000 * b2 + 0x100_0000 * b3;
    if u < 0x8000_0000 then u else u - 0x1_0000_0000
  }

  /** What is stored in four bytes is read back from them. */
  lemma Int32RoundTrip(k: int)
    requires -0x8000_0000 <= k < 0x8000_0000
    ensures Int32Of(Int32Bytes(k)) == k
  {
    var u := k % 0x1_0000_0000;
    assert u == if k >= 0 then k else k + 0x1_0000_0000;
    FourBytes(u);
  }

  lemma FourBytes(u: nat)
    requires u < 0x1_0000_0000
    ensures u == u % 256 + 256 * (u / 256 % 256) + 0x1_0000 * (u / 0x1_0000 % 256) + 0x100_0000 * (u / 0x100_0000 % 256)
  {
    var a := u / 256;
    var b := a / 256;
    var c := b / 256;
    Quotients(u);
    assert u == 256 * a + u % 256 && a == 256 * b + a % 256 && b == 256 * c + b % 256 && c < 256;
  }

  lemma Quotients(u: nat)
    ensures u / 256 / 256 == u / 0x1_0000 && u / 256 / 256 / 256 == u / 0x100_0000
  {
  }

  /** Every coefficient converted into a buffer of its own. */
  function Converted(double: seq<Pixel> -> real, bytes: seq<Pixel>, n: nat): (r: seq<Pixel>)
    requires 8 * n <= |bytes|
    ensures |r| == 4 * n
  {
    if n == 0 then [] else Converted(double, bytes, n - 1) + Int32Bytes(Fixed(double(bytes[8 * (n - 1)..8 * n])))
  }

  /**
   normalize_coeffs_8bpc, byte by byte: int32 `x` goes over bytes 4x..4x+4 of the very buffer
   whose bytes 8x..8x+8 hold double `x`. The first half ends up as a separate buffer would.
   */
  method NormalizeInPlace(double: seq<Pixel> -> real, buffer: array<Pixel>, n: nat)
    requires buffer.Length == 8 * n
    modifies buffer
    ensures buffer[..4 * n] == Converted(double, old(buffer[..]), n)
    ensures buffer[4 * n..] == old(buffer[4 * n..])
  {
    var x := 0;
    while x < n
      invariant 0 <= x <= n && Halfway(double, old(buffer[..]), buffer[..], n, x)
    {
      NormalizeOne(double, buffer, n, x, old(buffer[..]));
      x := x + 1;
    }
    assert buffer[4 * n..] == buffer[..][4 * n..] && buffer[..4 * n] == buffer[..][..4 * n];
  }

  /** `x` of `n` coefficients converted: the bytes of the rest are as they were. */
  ghost predicate Halfway(double: seq<Pixel> -> real, before: seq<Pixel>, now: seq<Pixel>, n: nat, x: nat) {
    && x <= n && |before| == |now| == 8 * n
    && now[..4 * x] == Converted(double, before, x) && now[4 * x..] == before[4 * x..]
  }

  method NormalizeOne(double: seq<Pixel> -> real, buffer: array<Pixel>, n: nat, x: nat, ghost before: seq<Pixel>)
    requires buffer.Length == 8 * n && x < n && Halfway(double, before, buffer[..], n, x)
    modifies buffer
    ensures Halfway(double, before, buffer[..], n, x + 1)
  {
    hide Int32Bytes, Fixed, Halfway, Converted;
    ghost var now := buffer[..];
    assert buffer[8 * x..8 * x + 8] == now[8 * x..8 * x + 8];
    var bs := Int32Bytes(Fixed(double(buffer[8 * x..8 * x + 8])));
    HalfwayOn(double, before, now, n, x);
    StoreFour(buffer, 4 * x, bs);
    assert old(buffer[..4 * x]) == now[..4 * x] && old(buffer[4 * x + 4..]) == now[4 * x + 4..];
  }

  /** The double about to be read is still whole, and its coefficient goes where it belongs. */
  lemma HalfwayOn(double: seq<Pixel> -> real, before: seq<Pixel>, now: seq<Pixel>, n: nat, x: nat)
    requires x < n && |now| == 8 * n && Halfway(double, before, now, n, x)
    ensures Halfway(double, before,
        now[..4 * x] + Int32Bytes(Fixed(double(now[8 * x..8 * x + 8]))) + now[4 * x + 4..], n, x + 1)
  {
    hide Int32Bytes, Fixed;
    assert now[8 * x..8 * x + 8] == now[4 * x..][4 * x..4 * x + 8];
    assert now[4 * x..][4 * x..4 * x + 8] == before[4 * x..][4 * x..4 * x + 8] == before[8 * x..8 * x + 8];
    FourMore(now, Int32Bytes(Fixed(double(now[8 * x..8 * x + 8]))), before, 4 * x);
  }

  lemma FourMore(now: seq<Pixel>, bs: seq<Pixel>, before: seq<Pixel>, k: nat)
    requires |bs| == 4 && |now| == |before| && k + 4 <= |now| && now[k..] == before[k..]
    ensures var next := now[..k] + bs + now[k + 4..]; next[..k + 4] == now[..k] + bs && next[k + 4..] == before[k + 4..]
  {
    assert now[k + 4..] == now[k..][4..] && before[k + 4..] == before[k..][4..];
  }

  /** Four bytes stored from `at` on. */
  method StoreFour(buffer: array<Pixel>, at: nat, bs: seq<Pixel>)
    requires |bs| == 4 && at + 4 <= buffer.Length
    modifies buffer
    ensures buffer[..] == old(buffer[..at]) + bs + old(buffer[at + 4..])
  {
    buffer[at], buffer[at + 1], buffer[at + 2], buffer[at + 3] := bs[0], bs[1], bs[2], bs[3];
  }

  /** Coefficient `x` of a converted buffer is read back as the fixed-point weight of double `x`. */
  lemma {:induction false} ConvertedAt(double: seq<Pixel> -> real, bytes: seq<Pixel>, n: nat, x: nat)
    requires x < n && 8 * n <= |bytes|
    requires -0x8000_0000 <= Fixed(double(bytes[8 * x..8 * x + 8])) < 0x8000_0000
    ensures Int32Of(Converted(double, bytes, n)[4 * x..4 * x + 4]) == Fixed(double(bytes[8 * x..8 * x + 8]))
  {
    hide Int32Bytes, Int32Of, Fixed;
    var c, m := Converted(double, bytes, n), n - 1;
    if x == m {
      assert c[4 * x..4 * x + 4] == Int32Bytes(Fixed(double(bytes[8 * x..8 * x + 8])));
      Int32RoundTrip(Fixed(double(bytes[8 * x..8 * x + 8])));
    } else {
      ConvertedAt(double, bytes, m, x);
      assert c[4 * x..4 * x + 4] == Converted(double, bytes, m)[4 * x..4 * x + 4];
    }
  }
}
