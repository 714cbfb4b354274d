/**
 Filters with negative lobes (modules/opencv/pil/Resample.c: bicubic_filter, lanczos_filter). No row
 of their weights ever cancels: the part of a window within half a pixel outweighs both lobes, at the
 edges of the picture too. Of a filter only two numbers matter, how much it gives within half a pixel
 and how deep its lobes are.
 */
module Lobes {
  import opened Collections
  import opened Windows

  /**
   At least `near` within half a pixel, nowhere negative but between one pixel and two, and no lower
   than `-depth` there.
   */
  ghost predicate Lobed(f: Filter, near: real, depth: real) {
    && depth >= 0.0 && near > 4.0 * depth
    && forall t :: f(t) >= -depth && ((-1.0 <= t <= 1.0 || t <= -2.0 || t >= 2.0) ==> f(t) >= 0.0)
                   && (-0.5 < t <= 0.5 ==> f(t) >= near)
  }

  // ---- the bicubic filter, lobe by lobe --------------------------------------------------------------------

  lemma NearValue(y: real)
    requires 0.0 <= y <= 0.5
    ensures Bicubic(y) >= 0.5625 && Bicubic(-y) >= 0.5625
  {
    var u := 0.5 - y;
    Product(u, 0.875 + 1.75 * y - 1.5 * (y * y)) by { Product(y, 0.5 - y); }
    assert Bicubic(y) - 0.5625 == u * (0.875 + 1.75 * y - 1.5 * (y * y));
    assert Bicubic(-y) == Bicubic(y);
  }

  lemma InnerValue(y: real)
    requires 0.0 <= y <= 1.0
    ensures Bicubic(y) >= 0.0 && Bicubic(-y) >= 0.0
  {
    assert Bicubic(-y) == Bicubic(y);
    if y < 1.0 {
      Product(y, 1.0 - y);
      Product(1.0 - y, 1.0 + y - 1.5 * (y * y));
      assert Bicubic(y) == (1.0 - y) * (1.0 + y - 1.5 * (y * y));
    }
  }

  lemma LobeValue(y: real)
    requires y >= 1.0
    ensures Bicubic(y) >= -0.125 && Bicubic(-y) >= -0.125
  {
    assert Bicubic(-y) == Bicubic(y);
    if y < 2.0 {
      var u := y - 1.0;
      var q := u * (1.0 - u);
      assert 0.25 - q == (u - 0.5) * (u - 0.5);
      Square(u - 0.5);
      Product(0.25 - q, 1.0 - u);
      assert Bicubic(y) == -0.5 * (q * (1.0 - u));
    }
  }

  lemma Square(x: real)
    ensures x * x >= 0.0
  {
  }

  // ---- sums of parts ----------------------------------------------------------------------------------

  ghost predicate AtLeast(s: seq<real>, b: real) {
    forall x :: 0 <= x < |s| ==> s[x] >= b
  }

  lemma {:induction false} SumAtLeast(s: seq<real>, b: real)
    requires AtLeast(s, b)
    ensures Sum(s) >= b * |s| as real
  {
    if s != [] {
      var n := |s| - 1;
      SumAtLeast(s[..n], b);
      assert b * (n as real + 1.0) == b * n as real + b;
    }
  }

  lemma {:induction false} SumSplit(s: seq<real>, k: nat)
    requires k <= |s|
    ensures Sum(s) == Sum(s[..k]) + Sum(s[k..])
    decreases |s|
  {
    var n := |s| - 1;
    if k == |s| {
      assert s[..k] == s && s[k..] == [];
    } else {
      SumSplit(s[..n], k);
      assert s[..n][..k] == s[..k] && s[..n][k..] == s[k..n] && s[k..][..n - k] == s[k..n];
    }
  }

  lemma SumBetween(s: seq<real>, k: nat, m: nat)
    requires k <= m <= |s|
    ensures Sum(s[k..]) == Sum(s[k..m]) + Sum(s[m..])
  {
    SumSplit(s[k..], m - k);
    assert s[k..][..m - k] == s[k..m] && s[k..][m - k..] == s[m..];
  }

  /**
   Two lobes of no more than `m` weights each, and between them near weights enough to outweigh
   them: `k` and `l` are where the left lobe begins and ends, `p` and `q` the near weights, `r` and `t`
   the right lobe.
   */
  lemma PartsSum(s: seq<real>, k: nat, l: nat, p: nat, q: nat, r: nat, t: nat, m: nat, near: real, depth: real)
    requires k <= l <= p < q <= r <= t <= |s| && l - k <= m && t - r <= m && m <= 2 * (q - p)
    requires depth >= 0.0 && near > 4.0 * depth
    requires AtLeast(s[..k], 0.0) && AtLeast(s[k..l], -depth) && AtLeast(s[l..p], 0.0) && AtLeast(s[p..q], near)
    requires AtLeast(s[q..r], 0.0) && AtLeast(s[r..t], -depth) && AtLeast(s[t..], 0.0)
    ensures Sum(s) > 0.0
  {
    hide Sum, AtLeast;
    SumSplit(s, k);
    SumBetween(s, k, l);
    SumBetween(s, l, p);
    SumBetween(s, p, q);
    SumBetween(s, q, r);
    SumBetween(s, r, t);
    NotNegative(s[..k]);
    NotNegative(s[l..p]);
    NotNegative(s[q..r]);
    NotNegative(s[t..]);
    PartsOutweigh(s[p..q], s[k..l], s[r..t], near, depth);
  }

  lemma NotNegative(s: seq<real>)
    requires AtLeast(s, 0.0)
    ensures Sum(s) >= 0.0
  {
    SumAtLeast(s, 0.0);
  }

  /** The near weights against the two lobes. */
  lemma PartsOutweigh(mid: seq<real>, left: seq<real>, right: seq<real>, near: real, depth: real)
    requires mid != [] && |left| <= 2 * |mid| && |right| <= 2 * |mid| && depth >= 0.0 && near > 4.0 * depth
    requires AtLeast(mid, near) && AtLeast(left, -depth) && AtLeast(right, -depth)
    ensures Sum(mid) + Sum(left) + Sum(right) > 0.0
  {
    hide Sum, AtLeast;
    SumAtLeast(mid, near);
    SumAtLeast(left, -depth);
    SumAtLeast(right, -depth);
    Outweighs(|mid| as real, |left| as real, |right| as real, near, depth);
  }

  lemma Outweighs(n: real, left: real, right: real, near: real, depth: real)
    requires n >= 1.0 && 0.0 <= left <= 2.0 * n && 0.0 <= right <= 2.0 * n && depth >= 0.0 && near > 4.0 * depth
    ensures near * n + -depth * left + -depth * right > 0.0
  {
    Product(depth, 2.0 * n - left);
    Product(depth, 2.0 * n - right);
    Product(near - 4.0 * depth, n - 1.0);
    assert near * n - depth * left - depth * right
        == (near - 4.0 * depth) * (n - 1.0) + (near - 4.0 * depth)
           + depth * (2.0 * n - left) + depth * (2.0 * n - right);
  }

  // ---- where the parts of a window lie ---------------------------------------------------------------------

  /** The first input more than `d` past the centre, counting from its middle. */
  function Past(c: real, d: real): int {
    (c + d - 0.5).Floor + 1
  }

  lemma PastIs(c: real, d: real, j: int)
    ensures j >= Past(c, d) <==> j as real + 0.5 - c > d
  {
  }

  /** Cuts of a window of centre `c`, stretch `w` and support `s`, clipped to a picture of `n`. */
  lemma Cuts(c: real, w: real, s: real, n: nat, first: nat, end: nat)
    requires w >= 1.0 && s >= w / 2.0 && c >= w / 2.0 - 0.5 && c + w / 2.0 - 0.5 < n as real
    requires first == Greater(0, (c - s + 0.5).Floor) && end == Lesser(n, (c + s + 0.5).Floor)
    ensures var p, q := Past(c, -w / 2.0), Past(c, w / 2.0);
            first <= p < q <= end && q - p >= w.Floor >= 1
    ensures Past(c, -w) - Past(c, -2.0 * w) <= w.Floor + 1 && Past(c, 2.0 * w) - Past(c, w) <= w.Floor + 1
    ensures Past(c, -2.0 * w) <= Past(c, -w) <= Past(c, -w / 2.0) && Past(c, w / 2.0) <= Past(c, w) <= Past(c, 2.0 * w)
  {
    var u := c - w / 2.0 - 0.5;
    assert Past(c, -w / 2.0) == u.Floor + 1 && Past(c, w / 2.0) == (u + w).Floor + 1;
    assert w < w.Floor as real + 1.0;
  }

  function Greater(a: int, b: int): int {
    if a > b then a else b
  }

  function Lesser(a: int, b: int): int {
    if a < b then a else b
  }

  /** An output's centre is half a step from the edges of its box, or more. */
  lemma CenterRoom(a: Axis, i: nat)
    requires Boxed(a) && i < a.outSize
    ensures var c, w := Center(a, i), Stretch(a); c >= w / 2.0 - 0.5 && c + w / 2.0 - 0.5 < a.inSize as real
  {
    CenterInside(a, i);
    var s, n, x := Scale(a), a.outSize as real, i as real;
    assert s * n == a.in1 - a.in0;
    Product(x, s);
    Product(n - x - 1.0, s);
    assert (x + 0.5) * s == x * s + 0.5 * s;
    assert (n - x - 1.0) * s == s * n - x * s - s;
  }

  /** Asked about at `d` past the centre, a filter sees `d` in units of the stretch. */
  lemma Unit(d: real, w: real)
    requires w >= 1.0
    ensures var t := InUnits(d, w);
            && (d <= w ==> t <= 1.0) && (d >= -w ==> t >= -1.0)
            && (d >= 2.0 * w ==> t >= 2.0) && (d <= -2.0 * w ==> t <= -2.0)
            && (d <= w / 2.0 ==> t <= 0.5) && (d > -w / 2.0 ==> t > -0.5)
  {
    var v := 1.0 / w;
    assert v > 0.0 && w * v == 1.0;
    UnitOf(d, 1.0, w, v);
    UnitOf(d, -1.0, w, v);
    UnitOf(d, 2.0, w, v);
    UnitOf(d, -2.0, w, v);
    UnitOf(d, 0.5, w, v);
    UnitOf(d, -0.5, w, v);
    if d > -w / 2.0 { assert (d + w / 2.0) * v > 0.0 && (d + w / 2.0) * v == d * v + (w * v) / 2.0; }
  }

  lemma UnitOf(d: real, k: real, w: real, v: real)
    requires v > 0.0 && w * v == 1.0
    ensures (d <= k * w ==> d * v <= k) && (d >= k * w ==> d * v >= k)
  {
    var e := k * w - d;
    assert e * v == k * (w * v) - d * v;
    if d <= k * w { Product(e, v); }
    if d >= k * w { Product(-e, v); assert (-e) * v == -(e * v); }
  }

  /** What each part of a window is worth at least. */
  lemma ValueAt(f: Filter, near: real, depth: real, d: real, w: real)
    requires w >= 1.0 && Lobed(f, near, depth)
    ensures var b := f(InUnits(d, w));
            && b >= -depth && (-w <= d <= w || d <= -2.0 * w || d >= 2.0 * w ==> b >= 0.0)
            && (-w / 2.0 < d <= w / 2.0 ==> b >= near)
  {
    hide InUnits;
    Unit(d, w);
  }

  /** No row of weights of such a filter cancels, whatever the sizes and however the window is clipped. */
  lemma NeverCancels(a: Axis, f: Filter, near: real, depth: real, i: nat)
    requires Boxed(a) && i < a.outSize && Lobed(f, near, depth)
    ensures Sum(RawRow(a, f, i)) > 0.0
  {
    hide Sum, RawRow, Stretch, Center, First, End, Taps, Past, AtLeast, Lobed;
    var c, w, first, n := Center(a, i), Stretch(a), First(a, i), Count(a, i);
    var raw := RawRow(a, f, i);
    assert |raw| == n by { RawLength(a, f, i); }
    SupportReaches(a);
    CenterRoom(a, i);
    WindowEnds(a, i);
    Cuts(c, w, Support(a), a.inSize, first, first + n);
    LobeIs(f, near, depth);
    var p, q := Past(c, -w / 2.0) - first, Past(c, w / 2.0) - first;
    var l, r := Greater(0, Past(c, -w) - first), Lesser(n, Past(c, w) - first);
    var k, t := Greater(0, Past(c, -2.0 * w) - first), Lesser(n, Past(c, 2.0 * w) - first);
    forall x | 0 <= x < n
      ensures raw[x] >= -depth && (x < k || l <= x < r || x >= t ==> raw[x] >= 0.0) && (p <= x < q ==> raw[x] >= near)
    {
      RowValue(a, f, near, depth, i, x);
    }
    PartsAtLeast(raw, k, l, p, q, r, t, near, depth);
    PartsSum(raw, k, l, p, q, r, t, w.Floor + 1, near, depth);
  }

  lemma LobeIs(f: Filter, near: real, depth: real)
    requires Lobed(f, near, depth)
    ensures depth >= 0.0 && near > 4.0 * depth
  {
  }

  lemma RawLength(a: Axis, f: Filter, i: nat)
    requires Boxed(a) && i < a.outSize
    ensures |RawRow(a, f, i)| == Count(a, i)
  {
  }

  lemma WindowEnds(a: Axis, i: nat)
    requires Boxed(a) && i < a.outSize
    ensures var c, s := Center(a, i), Support(a);
            && First(a, i) == Greater(0, (c - s + 0.5).Floor)
            && First(a, i) + Count(a, i) == Lesser(a.inSize, (c + s + 0.5).Floor)
  {
    CenterInside(a, i);
    SupportReaches(a);
    hide Center, Stretch, Support;
    ClippedTrunc(Center(a, i) - Support(a) + 0.5);
  }

  lemma ClippedTrunc(x: real)
    ensures (if Trunc(x) < 0 then 0 else Trunc(x)) == Greater(0, x.Floor)
  {
  }

  lemma PartsAtLeast(s: seq<real>, k: nat, l: nat, p: nat, q: nat, r: nat, t: nat, near: real, depth: real)
    requires k <= l <= p < q <= r <= t <= |s|
    requires forall x :: 0 <= x < |s| ==>
               s[x] >= -depth && (x < k || l <= x < r || x >= t ==> s[x] >= 0.0) && (p <= x < q ==> s[x] >= near)
    ensures AtLeast(s[..k], 0.0) && AtLeast(s[k..l], -depth) && AtLeast(s[l..p], 0.0) && AtLeast(s[p..q], near)
    ensures AtLeast(s[q..r], 0.0) && AtLeast(s[r..t], -depth) && AtLeast(s[t..], 0.0)
  {
  }

  lemma RowValue(a: Axis, f: Filter, near: real, depth: real, i: nat, x: nat)
    requires Boxed(a) && i < a.outSize && x < Count(a, i) && Lobed(f, near, depth)
    ensures var c, w, j, v := Center(a, i), Stretch(a), x + First(a, i), RawRow(a, f, i)[x];
            && v >= -depth && (Past(c, -w) <= j < Past(c, w) || j < Past(c, -2.0 * w) || j >= Past(c, 2.0 * w) ==>
              v >= 0.0)
            && (Past(c, -w / 2.0) <= j < Past(c, w / 2.0) ==> v >= near)
  {
    hide Stretch, Center, First, End, Taps, Past, InUnits, Lobed;
    var c, w, j := Center(a, i), Stretch(a), x + First(a, i);
    var d := j as real - c + 0.5;
    PastIs(c, -w, j);
    PastIs(c, w, j);
    PastIs(c, -2.0 * w, j);
    PastIs(c, 2.0 * w, j);
    PastIs(c, -w / 2.0, j);
    PastIs(c, w / 2.0, j);
    ValueAt(f, near, depth, d, w);
    assert Asked(a, i, x) == InUnits(d, w);
    assert RawRow(a, f, i)[x] == f(Asked(a, i, x));
  }

  // ---- the filters --------------------------------------------------------------------------------------

  lemma BicubicIsLobed()
    ensures Lobed(Bicubic, 0.5625, 0.125)
  {
    forall t ensures Bicubic(t) >= -0.125 && ((-1.0 <= t <= 1.0 || t <= -2.0 || t >= 2.0) ==> Bicubic(t) >= 0.0)
                     && (-0.5 < t <= 0.5 ==> Bicubic(t) >= 0.5625) {
      BicubicAt(t);
    }
  }

  lemma BicubicAt(t: real)
    ensures Bicubic(t) >= -0.125 && ((-1.0 <= t <= 1.0 || t <= -2.0 || t >= 2.0) ==> Bicubic(t) >= 0.0)
    ensures -0.5 < t <= 0.5 ==> Bicubic(t) >= 0.5625
  {
    var y := if t < 0.0 then -t else t;
    assert Bicubic(t) == Bicubic(y) by { assert t == y || t == -y; }
    if y <= 0.5 { NearValue(y); }
    if y <= 1.0 { InnerValue(y); } else { LobeValue(y); }
  }
}
