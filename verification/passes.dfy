/**
 The resampler as it runs: coefficient tables filled row by row, the two passes, and the shift of
 the vertical bounds to the temporary picture (modules/opencv/pil/Resample.c).
 */
module Passes {
  import opened Collections
  import opened Wrappers
  import opened Windows
  import opened FixedPoint
  import opened Resampling

  ghost function Pixels(m: array2<Pixel>): (p: Image)
    reads m
    ensures Sized(p, m.Length1, m.Length0)
    ensures forall y, x :: 0 <= y < m.Length0 && 0 <= x < m.Length1 ==> p[y][x] == m[y, x]
  {
    seq(m.Length0, y requires 0 <= y < m.Length0 reads m =>
      seq(m.Length1, x requires 0 <= x < m.Length1 reads m => m[y, x]))
  }

  // ---- coefficient tables ---------------------------------------------------------------------------

  /** Zeros after the weights, up to the length of a row. */
  ghost function Padded(row: seq<real>, ksize: nat): (r: seq<real>)
    requires |row| <= ksize
    ensures |r| == ksize && r[..|row|] == row
  {
    row + seq(ksize - |row|, _ => 0.0)
  }

  /** The first `n` rows, end to end. */
  ghost function Rows(a: Axis, f: Filter, n: nat): (r: seq<real>)
    requires Boxed(a) && n <= a.outSize
    ensures |r| == n * Taps(a)
  {
    if n == 0 then []
    else
      RowFits(a, f, n - 1);
      Rows(a, f, n - 1) + Padded(Row(a, f, n - 1), Taps(a))
  }

  lemma RowFits(a: Axis, f: Filter, i: nat)
    requires Boxed(a) && i < a.outSize
    ensures |Row(a, f, i)| == Count(a, i) < Taps(a)
  {
    RowLength(a, f, i);
  }

  lemma {:induction false} RowsAt(a: Axis, f: Filter, n: nat, i: nat)
    requires Boxed(a) && i < n <= a.outSize
    ensures 0 <= i * Taps(a) && i * Taps(a) + Count(a, i) <= n * Taps(a)
    ensures Rows(a, f, n)[i * Taps(a)..i * Taps(a) + Count(a, i)] == Row(a, f, i)
  {
    hide Row, Taps;
    var t := Taps(a);
    RowFits(a, f, n - 1);
    if i == n - 1 {
      assert n * t == i * t + t;
      var row := Row(a, f, i);
      assert Rows(a, f, n)[i * t..] == Padded(row, t);
      assert Rows(a, f, n)[i * t..i * t + |row|] == Rows(a, f, n)[i * t..][..|row|];
    } else {
      RowsAt(a, f, n - 1, i);
      assert n * t == (n - 1) * t + t;
      assert Rows(a, f, n)[i * t..i * t + Count(a, i)] == Rows(a, f, n - 1)[i * t..i * t + Count(a, i)];
    }
  }

  ghost function Bounds(a: Axis, n: nat, shift: int): (r: seq<int>)
    requires Boxed(a) && n <= a.outSize
    ensures |r| == 2 * n
    ensures forall i :: 0 <= i < n ==> r[2 * i] == First(a, i) - shift && r[2 * i + 1] == Count(a, i)
  {
    if n == 0 then [] else Bounds(a, n - 1, shift) + [First(a, n - 1) - shift, Count(a, n - 1)]
  }

  /** The weights of output `i` asked of the filter, divided by their sum, and zeros after them. */
  method FillRow(a: Axis, f: Filter, i: nat, kk: array<real>, at: nat)
    requires Boxed(a) && i < a.outSize && at + Taps(a) <= kk.Length
    modifies kk
    ensures |Row(a, f, i)| <= Taps(a)
    ensures kk[..] == old(kk[..at]) + Padded(Row(a, f, i), Taps(a)) + old(kk[at + Taps(a)..])
  {
    hide First, End, Taps, Stretch, Center, Sum;
    RowFits(a, f, i);
    var n, t := Count(a, i), Taps(a);
    ghost var raw := RawRow(a, f, i);
    var ww := AskRow(a, f, i, kk, at);
    ghost var asked := kk[..];
    var x := 0;
    while x < n
      invariant 0 <= x <= n && (forall y :: 0 <= y < x ==> kk[at + y] == Row(a, f, i)[y])
      invariant forall y :: 0 <= y < kk.Length && !(at <= y < at + x) ==> kk[y] == asked[y]
    {
      assert kk[at + x] == raw[x];
      if ww != 0.0 { kk[at + x] := kk[at + x] / ww; }
      x := x + 1;
    }
    while x < t
      invariant n <= x <= t && (forall y :: 0 <= y < x ==> kk[at + y] == Padded(Row(a, f, i), t)[y])
      invariant forall y :: 0 <= y < kk.Length && !(at <= y < at + t) ==> kk[y] == old(kk[y])
    {
      kk[at + x] := 0.0;
      x := x + 1;
    }
  }

  /** The filter asked about every input of the window. */
  method AskRow(a: Axis, f: Filter, i: nat, kk: array<real>, at: nat) returns (ww: real)
    requires Boxed(a) && i < a.outSize && at + Taps(a) <= kk.Length
    modifies kk
    ensures ww == Sum(RawRow(a, f, i)) && (forall y :: 0 <= y < Count(a, i) ==> kk[at + y] == RawRow(a, f, i)[y])
    ensures forall y :: 0 <= y < kk.Length && !(at <= y < at + Count(a, i)) ==> kk[y] == old(kk[y])
  {
    hide First, End, Taps, Stretch, Center;
    var n, x := Count(a, i), 0;
    ghost var raw := RawRow(a, f, i);
    ww := 0.0;
    while x < n
      invariant 0 <= x <= n && ww == Sum(raw[..x]) && (forall y :: 0 <= y < x ==> kk[at + y] == raw[y])
      invariant forall y :: 0 <= y < kk.Length && !(at <= y < at + x) ==> kk[y] == old(kk[y])
    {
      var w := f(Asked(a, i, x));
      kk[at + x] := w;
      assert raw[..x + 1][..x] == raw[..x];
      ww := ww + w;
      x := x + 1;
    }
    assert raw[..n] == raw;
  }

  predicate Affordable(a: Axis)
    requires Boxed(a)
  {
    Taps(a) > 0 && a.outSize <= INT_MAX / (Taps(a) * 8)
  }

  /** precompute_coeffs: the bounds and the rows of weights, unless they would be too many. */
  method Precompute(a: Axis, f: Filter) returns (ok: bool, bounds: array<int>, kk: array<real>)
    requires Boxed(a)
    ensures ok <==> Affordable(a)
    ensures fresh(bounds) && fresh(kk)
    ensures ok ==> bounds[..] == Bounds(a, a.outSize, 0) && kk[..] == Rows(a, f, a.outSize)
  {
    hide First, End, Taps, Row;
    WindowRight(a, 0);
    var t := Taps(a);
    if a.outSize > INT_MAX / (t * 8) {
      return false, new int[0], new real[0];
    }
    assert 0 <= a.outSize * t;
    kk := new real[a.outSize * t];
    bounds := new int[a.outSize * 2];
    var i := 0;
    while i < a.outSize
      invariant 0 <= i <= a.outSize && i * t <= kk.Length && kk[..i * t] == Rows(a, f, i)
      invariant bounds[..2 * i] == Bounds(a, i, 0)
    {
      RowEnds(i, a.outSize, t);
      FillRow(a, f, i, kk, i * t);
      assert kk[..(i + 1) * t] == Rows(a, f, i + 1);
      bounds[2 * i], bounds[2 * i + 1] := First(a, i), Count(a, i);
      assert bounds[..2 * (i + 1)] == bounds[..2 * i] + [First(a, i), Count(a, i)];
      i := i + 1;
    }
    ok := true;
    assert kk[..] == kk[..i * t] && bounds[..] == bounds[..2 * i];
  }

  lemma RowEnds(i: nat, n: nat, t: nat)
    requires i < n
    ensures 0 <= i * t && (i + 1) * t == i * t + t <= n * t
  {
    Times(i + 1, n, t);
    Times(0, i, t);
  }

  /** Fixed-point weights of a whole table, into a table of their own. */
  method Normalize(kk: array<real>) returns (k: array<int>)
    ensures fresh(k) && k[..] == FixedRow(kk[..])
  {
    k := new int[kk.Length];
    var x := 0;
    while x < kk.Length
      invariant 0 <= x <= kk.Length && forall y :: 0 <= y < x ==> k[y] == Fixed(kk[y])
    {
      k[x] := Fixed(kk[x]);
      x := x + 1;
    }
  }

  ghost predicate Table(a: Axis, f: Filter, ks: seq<int>)
    requires Boxed(a)
  {
    ks == FixedRow(Rows(a, f, a.outSize))
  }

  /** Where output `i` finds its weights. */
  lemma TableAt(a: Axis, f: Filter, ks: seq<int>, i: nat)
    requires Boxed(a) && Table(a, f, ks) && i < a.outSize
    ensures 0 <= i * Taps(a) && i * Taps(a) + Count(a, i) <= |ks|
    ensures ks[i * Taps(a)..i * Taps(a) + Count(a, i)] == Weights(a, f, i)
  {
    hide Row, Taps, Rows;
    RowsAt(a, f, a.outSize, i);
    RowFits(a, f, i);
    var o, rows := i * Taps(a), Rows(a, f, a.outSize);
    forall x | 0 <= x < Count(a, i) ensures ks[o..o + Count(a, i)][x] == Weights(a, f, i)[x] {
      assert rows[o..o + Count(a, i)][x] == rows[o + x];
    }
  }

  // ---- the passes ---------------------------------------------------------------------------------------

  /** One tap more. */
  lemma DotMore(ps: seq<Pixel>, ks: seq<int>, x: nat)
    requires |ps| == |ks| && x < |ps|
    ensures Wrap32(Wrap32(HALF + Dot(ps[..x], ks[..x])) + ps[x] * ks[x]) == Wrap32(HALF + Dot(ps[..x + 1], ks[..x + 1]))
  {
    hide Wrap32;
    assert ps[..x + 1][..x] == ps[..x] && ks[..x + 1][..x] == ks[..x];
    WrapAdds(HALF + Dot(ps[..x], ks[..x]), ps[x] * ks[x]);
  }

  /** The sum of one output: along row `y` from `x0`, or down column `x0` from `y`. */
  method SumOf(m: array2<Pixel>, y: nat, x0: nat, n: nat, down: bool, k: array<int>, at: nat, ghost ps: seq<Pixel>,
               ghost ks: seq<int>)
    returns (p: Pixel)
    requires if down then y + n <= m.Length0 && x0 < m.Length1 else y < m.Length0 && x0 + n <= m.Length1
    requires at + n <= k.Length && |ps| == |ks| == n && ks == k[at..at + n]
    requires forall j :: 0 <= j < n ==> ps[j] == if down then m[y + j, x0] else m[y, x0 + j]
    ensures p == Output(ps, ks)
  {
    hide Dot;
    var ss, x := HALF, 0;
    assert ps[..0] == [] && ks[..0] == [] && HALF + Dot([], []) == HALF by { DotNone(); }
    while x < n
      invariant 0 <= x <= n && ss == Wrap32(HALF + Dot(ps[..x], ks[..x]))
    {
      DotMore(ps, ks, x);
      var v: int := if down then m[y + x, x0] else m[y, x0 + x];
      ss := Wrap32(ss + v * k[at + x]);
      x := x + 1;
    }
    assert ps[..n] == ps && ks[..n] == ks;
    p := Clip8(ss);
  }

  lemma DotNone()
    ensures Dot([], []) == 0
  {
  }

  /** ImagingResampleHorizontal_8bpc: row `y` of the output is row `y + offset` of the input, resampled. */
  method Horizontal(out: array2<Pixel>, m: array2<Pixel>, offset: nat, a: Axis, ghost f: Filter, bounds: array<int>,
                    k: array<int>)
    requires Boxed(a) && out != m && offset + out.Length0 <= m.Length0 && out.Length1 == a.outSize
    requires m.Length1 == a.inSize
    requires bounds[..] == Bounds(a, a.outSize, 0) && Table(a, f, k[..])
    modifies out
    ensures forall y, x :: 0 <= y < out.Length0 && 0 <= x < a.outSize ==>
      out[y, x] == AcrossAt(Pixels(m), a, f, y + offset, x)
  {
    hide First, End, Taps, AcrossAt, Table;
    var y := 0;
    while y < out.Length0
      invariant 0 <= y <= out.Length0
      invariant forall v, x :: 0 <= v < y && 0 <= x < a.outSize ==>
        out[v, x] == AcrossAt(Pixels(m), a, f, v + offset, x)
    {
      HorizontalRow(out, m, y, offset, a, f, bounds, k);
      y := y + 1;
    }
  }

  method HorizontalRow(out: array2<Pixel>, m: array2<Pixel>, y: nat, offset: nat, a: Axis, ghost f: Filter,
                       bounds: array<int>, k: array<int>)
    requires Boxed(a) && out != m && offset + out.Length0 <= m.Length0 && out.Length1 == a.outSize
    requires m.Length1 == a.inSize
    requires bounds[..] == Bounds(a, a.outSize, 0) && Table(a, f, k[..]) && y < out.Length0
    modifies out
    ensures forall x :: 0 <= x < a.outSize ==> out[y, x] == AcrossAt(Pixels(m), a, f, y + offset, x)
    ensures forall v, x :: 0 <= v < out.Length0 && v != y && 0 <= x < a.outSize ==> out[v, x] == old(out[v, x])
  {
    hide First, End, Taps, Table, Output;
    ghost var p := Pixels(m);
    var x := 0;
    while x < a.outSize
      invariant 0 <= x <= a.outSize
      invariant forall u :: 0 <= u < x ==> out[y, u] == AcrossAt(p, a, f, y + offset, u)
      invariant forall v, u :: 0 <= v < out.Length0 && v != y && 0 <= u < a.outSize ==> out[v, u] == old(out[v, u])
    {
      TableAt(a, f, k[..], x);
      assert bounds[..][2 * x] == First(a, x) && bounds[..][2 * x + 1] == Count(a, x);
      var first, n := bounds[2 * x], bounds[2 * x + 1];
      var at := x * Taps(a);
      var v := SumOf(m, y + offset, first, n, false, k, at, Part(p[y + offset], First(a, x), Count(a, x)), Weights(a,
          f, x));
      out[y, x] := v;
      x := x + 1;
    }
  }

  /**
   ImagingResampleVertical_8bpc, on a picture that begins `shift` rows into the one meant, with
   bounds moved to suit.
   */
  method Vertical(out: array2<Pixel>, m: array2<Pixel>, shift: nat, ghost whole: Image, a: Axis, ghost f: Filter,
                  bounds: array<int>, k: array<int>)
    requires Boxed(a) && out != m && out.Length0 == a.outSize && out.Length1 == m.Length1
    requires bounds[..] == Bounds(a, a.outSize, shift) && Table(a, f, k[..])
    requires Sized(whole, m.Length1, a.inSize) && Reaches(m.Length0, shift, a)
    requires forall y, x :: 0 <= y < m.Length0 && 0 <= x < m.Length1 ==> m[y, x] == whole[y + shift][x]
    modifies out
    ensures forall y, x :: 0 <= y < a.outSize && 0 <= x < m.Length1 ==>
      out[y, x] == DownAt(whole, m.Length1, a, f, y, x)
  {
    hide First, End, Taps, DownAt, Table;
    var y := 0;
    while y < a.outSize
      invariant 0 <= y <= a.outSize
      invariant forall v, x :: 0 <= v < y && 0 <= x < m.Length1 ==> out[v, x] == DownAt(whole, m.Length1, a, f, v, x)
    {
      VerticalRow(out, m, y, shift, whole, a, f, bounds, k);
      y := y + 1;
    }
  }

  /** Every row a window asks for is among `rows` rows from `shift` on. */
  ghost predicate Reaches(rows: nat, shift: nat, a: Axis)
    requires Boxed(a)
  {
    shift + rows <= a.inSize && forall i :: 0 <= i < a.outSize ==>
      shift <= First(a, i) && First(a, i) + Count(a, i) <= shift + rows
  }

  /** Because windows only move forward, the rows from the first window's start to the last one's end do. */
  lemma TemporaryReaches(a: Axis)
    requires Boxed(a)
    ensures var first := First(a, 0); var last := End(a, a.outSize - 1);
            first <= last && Reaches(last - first, first, a)
  {
    hide First, End, Taps;
    var n := a.outSize - 1;
    WindowsForward(a, 0, n);
    WindowRight(a, n);
    forall i | 0 <= i < a.outSize ensures First(a, 0) <= First(a, i) && First(a, i) + Count(a, i) <= End(a, n) {
      WindowsForward(a, 0, i);
      WindowsForward(a, i, n);
    }
  }

  method VerticalRow(out: array2<Pixel>, m: array2<Pixel>, y: nat, shift: nat, ghost whole: Image, a: Axis,
      ghost f: Filter,
                     bounds: array<int>, k: array<int>)
    requires Boxed(a) && out != m && out.Length0 == a.outSize && out.Length1 == m.Length1 && y < a.outSize
    requires bounds[..] == Bounds(a, a.outSize, shift) && Table(a, f, k[..])
    requires Sized(whole, m.Length1, a.inSize) && Reaches(m.Length0, shift, a)
    requires forall y, x :: 0 <= y < m.Length0 && 0 <= x < m.Length1 ==> m[y, x] == whole[y + shift][x]
    modifies out
    ensures forall x :: 0 <= x < m.Length1 ==> out[y, x] == DownAt(whole, m.Length1, a, f, y, x)
    ensures forall v, x :: 0 <= v < a.outSize && v != y && 0 <= x < m.Length1 ==> out[v, x] == old(out[v, x])
  {
    hide First, End, Taps, Table, Output;
    TableAt(a, f, k[..], y);
    assert bounds[..][2 * y] == First(a, y) - shift && bounds[..][2 * y + 1] == Count(a, y);
    var first, n := bounds[2 * y], bounds[2 * y + 1];
    var at := y * Taps(a);
    var x := 0;
    while x < m.Length1
      invariant 0 <= x <= m.Length1
      invariant forall u :: 0 <= u < x ==> out[y, u] == DownAt(whole, m.Length1, a, f, y, u)
      invariant forall v, u :: 0 <= v < a.outSize && v != y && 0 <= u < m.Length1 ==> out[v, u] == old(out[v, u])
    {
      ghost var column := Column(whole, x, First(a, y), Count(a, y));
      forall j | 0 <= j < n ensures column[j] == m[first + j, x] {
        assert m[first + j, x] == whole[first + j + shift][x];
      }
      var v := SumOf(m, first, x, n, true, k, at, column, Weights(a, f, y));
      out[y, x] := v;
      x := x + 1;
    }
  }

  // ---- both together ---------------------------------------------------------------------------------------

  /** The vertical bounds moved to a picture that begins `shift` rows down. */
  method Shift(bounds: array<int>, a: Axis, shift: int)
    requires Boxed(a) && bounds[..] == Bounds(a, a.outSize, 0)
    modifies bounds
    ensures bounds[..] == Bounds(a, a.outSize, shift)
  {
    hide First, End;
    ghost var before := Bounds(a, a.outSize, 0);
    var i := 0;
    while i < a.outSize
      invariant 0 <= i <= a.outSize
      invariant forall j :: 0 <= j < a.outSize ==> bounds[2 * j] == before[2 * j] - (if j < i then shift else 0)
      invariant forall j :: 0 <= j < a.outSize ==> bounds[2 * j + 1] == before[2 * j + 1]
    {
      bounds[2 * i] := bounds[2 * i] - shift;
      i := i + 1;
    }
    ghost var after := Bounds(a, a.outSize, shift);
    forall j | 0 <= j < a.outSize
      ensures bounds[..][2 * j] == after[2 * j] && bounds[..][2 * j + 1] == after[2 * j + 1]
    {
      assert before[2 * j] == First(a, j) && after[2 * j] == First(a, j) - shift;
    }
    EvenOdd(bounds[..], after, a.outSize);
  }

  lemma EvenOdd(s: seq<int>, t: seq<int>, n: nat)
    requires |s| == |t| == 2 * n && forall j :: 0 <= j < n ==> s[2 * j] == t[2 * j] && s[2 * j + 1] == t[2 * j + 1]
    ensures s == t
  {
    forall k | 0 <= k < 2 * n ensures s[k] == t[k] {
      assert k == 2 * (k / 2) || k == 2 * (k / 2) + 1;
    }
  }

  lemma BoundsEnds(a: Axis)
    requires Boxed(a)
    ensures var b, n := Bounds(a, a.outSize, 0), a.outSize - 1;
            |b| == 2 * a.outSize && b[0] == First(a, 0) && b[2 * n] + b[2 * n + 1] == End(a, n)
  {
    hide First, End, Taps;
    var b, n := Bounds(a, a.outSize, 0), a.outSize - 1;
    assert b[2 * 0] == First(a, 0) && b[2 * n] == First(a, n) && b[2 * n + 1] == Count(a, n);
  }

  /** The horizontal pass into a temporary picture of only the rows wanted. */
  method FirstPass(m: array2<Pixel>, first: nat, rows: nat, ax: Axis, ghost f: Filter, bounds: array<int>,
                   kk: array<real>)
    returns (t: array2<Pixel>)
    requires Boxed(ax) && m.Length1 == ax.inSize && first + rows <= m.Length0
    requires bounds[..] == Bounds(ax, ax.outSize, 0) && kk[..] == Rows(ax, f, ax.outSize)
    ensures fresh(t) && t.Length0 == rows && t.Length1 == ax.outSize
    ensures forall y, x :: 0 <= y < rows && 0 <= x < ax.outSize ==> t[y, x] == Across(Pixels(m), ax, f)[y + first][x]
  {
    hide First, End, Taps, AcrossAt, Rows;
    t := new Pixel[rows, ax.outSize];
    var k := Normalize(kk);
    Horizontal(t, m, first, ax, f, bounds, k);
  }

  /** The vertical pass, from a picture that begins `shift` rows into the one meant. */
  method SecondPass(m: array2<Pixel>, shift: nat, ghost whole: Image, a: Axis, ghost f: Filter, bounds: array<int>,
                    kk: array<real>)
    returns (t: array2<Pixel>)
    requires Boxed(a) && bounds[..] == Bounds(a, a.outSize, shift) && kk[..] == Rows(a, f, a.outSize)
    requires Sized(whole, m.Length1, a.inSize) && Reaches(m.Length0, shift, a)
    requires forall y, x :: 0 <= y < m.Length0 && 0 <= x < m.Length1 ==> m[y, x] == whole[y + shift][x]
    ensures fresh(t) && Pixels(t) == Down(whole, m.Length1, a, f)
  {
    hide First, End, Taps, DownAt, Rows, Reaches;
    t := new Pixel[a.outSize, m.Length1];
    var k := Normalize(kk);
    Vertical(t, m, shift, whole, a, f, bounds, k);
    SameImage(Pixels(t), Down(whole, m.Length1, a, f), m.Length1, a.outSize);
  }

  /** ImagingResampleInner: the whole picture resampled, however the passes are arranged. */
  method Resample(m: array2<Pixel>, ax: Axis, ay: Axis, f: Filter) returns (r: Option<array2<Pixel>>)
    requires Boxed(ax) && Boxed(ay) && m.Length0 == ay.inSize && m.Length1 == ax.inSize
    ensures r.None? <==> !Affordable(ax) || !Affordable(ay)
    ensures r.Some? ==> fresh(r.value) && Pixels(r.value) == Resampled(Pixels(m), ax, ay, f)
  {
    hide First, End, Taps, AcrossAt, DownAt, Rows, Reaches, Bounds;
    var okx, boundsX, kx := Precompute(ax, f);
    if !okx { return None; }
    var oky, boundsY, ky := Precompute(ay, f);
    if !oky { return None; }
    TemporaryReaches(ay);
    BoundsEnds(ay);
    assert boundsY[..][0] == boundsY[0];
    var first, last := boundsY[0], boundsY[ay.outSize * 2 - 2] + boundsY[ay.outSize * 2 - 1];
    var out, shift := m, 0;
    ghost var whole := Pixels(m);
    if Needed(ax) {
      Shift(boundsY, ay, first);
      shift := first;
      out := FirstPass(m, first, last - first, ax, f, boundsX, kx);
      whole := Across(Pixels(m), ax, f);
    }
    if Needed(ay) {
      if !Needed(ax) { WholeReaches(ay); }
      out := SecondPass(out, shift, whole, ay, f, boundsY, ky);
      return Some(out);
    }
    StillWhole(ay);
    if Needed(ax) {
      SameImage(Pixels(out), whole, ax.outSize, ay.outSize);
      return Some(out);
    }
    var copy := Copy(m);
    return Some(copy);
  }

  lemma WholeReaches(a: Axis)
    requires Boxed(a)
    ensures Reaches(a.inSize, 0, a)
  {
  }

  /** An axis left as it is reads every row. */
  lemma StillWhole(a: Axis)
    requires Boxed(a) && !Needed(a)
    ensures First(a, 0) == 0 && End(a, a.outSize - 1) == a.inSize
  {
    hide First, End, Taps;
    StillCenter(a, 0);
    StillCenter(a, a.outSize - 1);
    WindowRight(a, a.outSize - 1);
  }

  method Copy(m: array2<Pixel>) returns (r: array2<Pixel>)
    ensures fresh(r) && Pixels(r) == Pixels(m)
  {
    r := new Pixel[m.Length0, m.Length1]((y, x) requires 0 <= y < m.Length0 && 0 <= x < m.Length1 reads m => m[y, x]);
    SameImage(Pixels(r), Pixels(m), m.Length1, m.Length0);
  }
}
