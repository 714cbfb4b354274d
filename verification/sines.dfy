/**
 The two filters made of sines (modules/opencv/pil/Resample.c: hamming_filter, sinc_filter and
 lanczos_filter). The C library's sine, cosine and pi are parameters, of which only textbook facts are
 used. From those facts Hamming is positive, and the lobes of Lanczos are shallow enough for its
 weights never to cancel.
 */
module Sines {
  import opened Windows
  import opened Lobes

  type Pos = r: real | r > 0.0 witness 1.0

  datatype Trig = Trig(sine: real -> real, cosine: real -> real, pi: Pos)

  // ---- the textbook facts ----------------------------------------------------------------------------------

  /** The first Taylor polynomials of sine over its argument, in the square of the argument. */
  function Above(z: real): real {
    1.0 - z / 6.0 + z * z / 120.0
  }

  function Below(z: real): real {
    Above(z) - z * z * z / 5040.0
  }

  function Times(x: real, y: real): real {
    x * y
  }

  /**
   Sine is odd, changes sign over half a turn, is positive within the first half turn, no more than one,
   and between its Taylor polynomials of degrees seven and five. Cosine is no less than minus one.
   */
  ghost predicate FactsAt(c: Trig, y: real) {
    && c.sine(-y) == -c.sine(y)
    && c.sine(y + c.pi) == -c.sine(y)
    && (0.0 < y < c.pi ==> c.sine(y) > 0.0)
    && c.sine(y) <= 1.0 && c.cosine(y) >= -1.0
    && (y >= 0.0 ==> Times(y, Below(Times(y, y))) <= c.sine(y) <= Times(y, Above(Times(y, y))))
  }

  ghost predicate Textbook(c: Trig) {
    3.1415 <= c.pi <= 3.1416 && forall y :: FactsAt(c, y)
  }

  // ---- the filters ------------------------------------------------------------------------------------------

  /** Half turns as an angle. */
  function Angle(p: Pos, x: real): (y: real)
    ensures x != 0.0 ==> y != 0.0
  {
    x * p
  }

  function Sinc(c: Trig, x: real): real {
    if x == 0.0 then 1.0 else c.sine(Angle(c.pi, x)) / Angle(c.pi, x)
  }

  function Lanczos(c: Trig, x: real): real {
    if -3.0 <= x < 3.0 then Sinc(c, x) * Sinc(c, x / 3.0) else 0.0
  }

  function Hamming(c: Trig, x: real): real {
    var y := if x < 0.0 then -x else x;
    if y == 0.0 then 1.0
    else if y >= 1.0 then 0.0
    else Sinc(c, y) * (0.54 + 0.46 * c.cosine(Angle(c.pi, y)))
  }

  // ---- the signs of sinc ------------------------------------------------------------------------------------

  lemma Multiply(x: real, y: real)
    requires x > 0.0 && y > 0.0
    ensures x * y > 0.0
  {
  }

  lemma AngleIs(p: Pos, x: real)
    ensures Angle(p, -x) == -Angle(p, x) && Angle(p, x + 1.0) == Angle(p, x) + p
    ensures (x > 0.0 ==> Angle(p, x) > 0.0) && (x == 0.0 ==> Angle(p, x) == 0.0)
  {
    if x > 0.0 { Multiply(x, p); }
  }

  lemma LessThanHalf(p: Pos, x: real)
    requires x < 1.0
    ensures Angle(p, x) < p
  {
    var q: real := p;
    Multiply(1.0 - x, q);
    assert (1.0 - x) * q == q - x * q;
  }

  lemma SincEven(c: Trig, x: real)
    requires Textbook(c)
    ensures Sinc(c, -x) == Sinc(c, x)
  {
    hide Angle;
    if x != 0.0 {
      AngleIs(c.pi, x);
      assert FactsAt(c, Angle(c.pi, x));
      SameQuotient(c.sine(Angle(c.pi, x)), Angle(c.pi, x));
    }
  }

  lemma SameQuotient(n: real, d: real)
    requires d != 0.0
    ensures (-n) / (-d) == n / d
  {
    var q := n / d;
    assert q * d == n;
    assert q * (-d) == -n;
  }

  /** Half a turn on, the sine has changed its sign. */
  lemma OneOn(c: Trig, x: real)
    requires Textbook(c)
    ensures c.sine(Angle(c.pi, x + 1.0)) == -c.sine(Angle(c.pi, x))
  {
    hide Angle;
    AngleIs(c.pi, x);
    assert FactsAt(c, Angle(c.pi, x));
  }

  lemma FirstHalf(c: Trig, x: real)
    requires Textbook(c) && 0.0 <= x < 1.0
    ensures var s := c.sine(Angle(c.pi, x)); s >= 0.0 && (s == 0.0 <==> x == 0.0)
  {
    hide Angle;
    AngleIs(c.pi, x);
    LessThanHalf(c.pi, x);
    assert FactsAt(c, Angle(c.pi, x));
  }

  /** Positive over one pixel, then not, then not negative again. */
  lemma SincSign(c: Trig, x: real)
    requires Textbook(c) && 0.0 <= x < 3.0
    ensures (x < 1.0 ==> Sinc(c, x) > 0.0) && (1.0 <= x < 2.0 ==> Sinc(c, x) <= 0.0) && (2.0 <= x ==> Sinc(c, x) >= 0.0)
    ensures x == 1.0 ==> Sinc(c, x) == 0.0
  {
    if x > 0.0 {
      SineSign(c, x);
      hide Angle, Textbook;
      AngleIs(c.pi, x);
      QuotientSign(c.sine(Angle(c.pi, x)), Angle(c.pi, x));
    }
  }

  lemma QuotientSign(n: real, d: real)
    requires d > 0.0
    ensures (n >= 0.0 ==> n / d >= 0.0) && (n > 0.0 ==> n / d > 0.0) && (n <= 0.0 ==> n / d <= 0.0)
  {
  }

  lemma SineSign(c: Trig, x: real)
    requires Textbook(c) && 0.0 < x < 3.0
    ensures var s := c.sine(Angle(c.pi, x));
            (x < 1.0 ==> s > 0.0) && (1.0 <= x < 2.0 ==> s <= 0.0) && (2.0 <= x ==> s >= 0.0) && (x == 1.0 ==> s == 0.0)
  {
    hide Angle, FactsAt, Textbook;
    if x < 1.0 {
      FirstHalf(c, x);
    } else if x < 2.0 {
      FirstHalf(c, x - 1.0);
      OneOn(c, x - 1.0);
    } else {
      FirstHalf(c, x - 2.0);
      OneOn(c, x - 2.0);
      OneOn(c, x - 1.0);
      assert x - 2.0 + 1.0 == x - 1.0;
    }
  }

  // ---- within half a pixel ----------------------------------------------------------------------------------

  /** Sinc between the same polynomials. */
  lemma SincBetween(c: Trig, x: real)
    requires Textbook(c) && x >= 0.0
    ensures var y := Angle(c.pi, x); Below(Times(y, y)) <= Sinc(c, x) <= Above(Times(y, y))
  {
    hide Above, Below, Angle, Times;
    var y := Angle(c.pi, x);
    AngleIs(c.pi, x);
    if x > 0.0 {
      assert FactsAt(c, y);
      Quotient(c.sine(y), y, Below(Times(y, y)), Above(Times(y, y)));
    } else {
      BothAtZero();
    }
  }

  lemma Quotient(n: real, d: real, lo: real, hi: real)
    requires d > 0.0 && Times(d, lo) <= n <= Times(d, hi)
    ensures lo <= n / d <= hi
  {
    var q := n / d;
    assert n == d * q;
    if q < lo { Multiply(d, lo - q); assert false; }
    if q > hi { Multiply(d, q - hi); assert false; }
  }

  lemma BothAtZero()
    ensures Times(0.0, 0.0) == 0.0 && Below(0.0) == Above(0.0) == 1.0
  {
  }

  lemma AngleSquared(p: Pos, x: real)
    requires 3.1415 <= p <= 3.1416
    ensures var y, s := Angle(p, x), Times(x, x); 0.0 <= 9.869 * s <= Times(y, y) <= 9.8697 * s
  {
    Square(x);
    assert 9.869 <= p * p <= 9.8697 by { Product(p - 3.1415, p + 3.1415); Product(3.1416 - p, p + 3.1416); }
    assert x * p * (x * p) == p * p * (x * x);
    Product(p * p - 9.869, x * x);
    Product(9.8697 - p * p, x * x);
  }

  lemma NearBelow(z: real)
    requires 0.0 <= z <= 2.4675
    ensures Below(z) >= 0.636
  {
    Square(z);
    Product(2.4675 - z, z * z);
    Product(2.4675 - z, 2.4675 - z);
  }

  lemma FarBelow(z: real)
    requires 0.0 <= z <= 0.2742
    ensures Below(z) >= 0.954
  {
    Square(z);
    Product(0.2742 - z, z * z);
  }

  lemma Small(x: real)
    requires 0.0 <= x <= 0.5
    ensures 0.0 <= Times(x, x) <= 0.25 && Times(x / 3.0, x / 3.0) == Times(x, x) / 9.0
  {
    Product(0.5 - x, 0.5 + x);
    Square(x);
  }

  lemma LanczosNear(c: Trig, x: real)
    requires Textbook(c) && 0.0 <= x <= 0.5
    ensures Lanczos(c, x) >= 0.6
  {
    SincBetween(c, x);
    SincBetween(c, x / 3.0);
    hide Sinc, Below, Above, Angle, FactsAt, Times;
    var y, v := Angle(c.pi, x), Angle(c.pi, x / 3.0);
    AngleSquared(c.pi, x);
    AngleSquared(c.pi, x / 3.0);
    Small(x);
    NearBelow(Times(y, y));
    FarBelow(Times(v, v));
    Larger(Sinc(c, x), Sinc(c, x / 3.0), 0.636, 0.954);
  }

  lemma Larger(a: real, b: real, l: real, m: real)
    requires a >= l >= 0.0 && b >= m >= 0.0
    ensures a * b >= l * m
  {
    Product(a - l, b);
    Product(l, b - m);
  }

  // ---- the lobe ---------------------------------------------------------------------------------------------

  lemma AboveFalls(z: real, w: real)
    requires 0.0 <= z <= w <= 10.0
    ensures Above(w) <= Above(z)
  {
    Product(w - z, 20.0 - w - z);
    assert Above(z) - Above(w) == (w - z) * (20.0 - w - z) / 120.0;
  }

  /** Lines above sine and sinc, that touch them where the lobe is deepest. */
  function SineLine(u: real): real {
    0.2943 + 0.38634 * (u - 0.375)
  }

  function SincLine(x: real): real {
    0.6904 - 0.3984 * (x - 1.375)
  }

  lemma BelowSineLine(c: Trig, u: real)
    requires Textbook(c) && 0.0 <= u <= 1.0
    ensures c.sine(Angle(c.pi, u)) <= Angle(c.pi, SineLine(u))
  {
    hide Above, Below, Angle, Times;
    assert FactsAt(c, Angle(c.pi, u));
    if u <= 0.5 {
      assert 0.0 <= Angle(c.pi, u) by { AngleIs(c.pi, u); }
      EarlyLine(c.pi, u);
    } else {
      LateLine(c.pi, SineLine(u));
    }
  }

  lemma LateLine(p: Pos, l: real)
    requires p >= 3.1415 && l >= 0.3425
    ensures Angle(p, l) >= 1.0
  {
    Larger(p, l, 3.1415, 0.3425);
  }

  lemma EarlyLine(p: Pos, u: real)
    requires 3.1415 <= p <= 3.1416 && 0.0 <= u <= 0.5
    ensures var y := Angle(p, u); Times(y, Above(Times(y, y))) <= Angle(p, SineLine(u))
  {
    hide Above, SineLine, Angle, Times;
    var y := Angle(p, u);
    AngleSquared(p, u);
    Small(u);
    AboveFalls(9.869 * Times(u, u), Times(y, y));
    CubeLine(u);
    Scaled(p, u, Above(Times(y, y)), Above(9.869 * Times(u, u)), SineLine(u));
  }

  lemma Scaled(p: Pos, u: real, a: real, b: real, l: real)
    requires u >= 0.0 && a <= b && Times(u, b) <= l
    ensures Times(Angle(p, u), a) <= Angle(p, l)
  {
    Product(u, b - a);
    Product(p, l - u * a);
    assert u * p * a == p * (u * a);
  }

  lemma AtMost(x: real, a: real, b: real)
    requires x >= 0.0 && a <= b
    ensures Times(x, a) <= Times(x, b)
  {
    Product(x, b - a);
  }

  lemma CubeLine(u: real)
    requires 0.0 <= u <= 0.5
    ensures Times(u, Above(9.869 * Times(u, u))) <= SineLine(u)
  {
    RoundedUp(Times(u, u));
    hide Above, SineLine, Rounded, Times;
    AtMost(u, Above(9.869 * Times(u, u)), Rounded(Times(u, u)));
    TouchesLine(u);
  }

  function Rounded(s: real): real {
    1.0 - 1.6448 * s + 0.8117 * (s * s)
  }

  lemma RoundedUp(s: real)
    requires s >= 0.0
    ensures Above(9.869 * s) <= Rounded(s)
  {
    Square(s);
    assert 9.869 * s * (9.869 * s) == 97.397161 * (s * s);
  }

  function Cofactor(u: real): real {
    1.06238203125 + 1.3023640625 * u - 0.608775 * (u * u) - 0.8117 * (u * u * u)
  }

  lemma CofactorIs(u: real)
    requires 0.0 <= u <= 0.5
    ensures Cofactor(u) >= 0.0
  {
    Product(u, 0.5 - u);
    Product(u * u, 0.5 - u) by { Square(u); }
  }

  lemma TouchesLine(u: real)
    requires 0.0 <= u <= 0.5
    ensures Times(u, Rounded(Times(u, u))) <= SineLine(u)
  {
    CofactorIs(u);
    Divided(u);
    hide Cofactor, Times, Rounded, SineLine;
    NotNegative(u - 0.375, Cofactor(u));
  }

  lemma Divided(u: real)
    requires 0.0 <= u <= 0.5
    ensures Times(u, Rounded(Times(u, u))) + Times(Times(u - 0.375, u - 0.375), Cofactor(u)) <= SineLine(u)
  {
  }

  lemma NotNegative(v: real, q: real)
    requires q >= 0.0
    ensures Times(Times(v, v), q) >= 0.0
  {
    Square(v);
    Product(v * v, q);
  }

  /** The second factor is slower: a third of the way along. */
  lemma BelowSincLine(c: Trig, x: real)
    requires Textbook(c) && 1.0 <= x <= 2.0
    ensures Sinc(c, x / 3.0) <= SincLine(x)
  {
    SincBetween(c, x / 3.0);
    hide Sinc, Above, Below, Angle, FactsAt, Times, SincLine;
    var y := Angle(c.pi, x / 3.0);
    AngleSquared(c.pi, x / 3.0);
    Third(x);
    AboveFalls(9.869 * (Times(x, x) / 9.0), Times(y, y));
    QuarticLine(x);
  }

  lemma Third(x: real)
    requires 1.0 <= x <= 2.0
    ensures 0.0 <= Times(x, x) <= 4.0 && Times(x / 3.0, x / 3.0) == Times(x, x) / 9.0
  {
    Product(2.0 - x, 2.0 + x);
    Square(x);
  }

  lemma QuarticLine(x: real)
    requires 1.0 <= x <= 2.0
    ensures Above(9.869 * (Times(x, x) / 9.0)) <= SincLine(x)
  {
    RoundedThird(Times(x, x));
    LobeCofactorIs(x);
    DividedThird(x);
    hide Above, SincLine, ThirdRounded, Times, LobeCofactor;
    NotNegative(x - 1.375, LobeCofactor(x));
  }

  function ThirdRounded(s: real): real {
    1.0 - 0.18275 * s + 0.010021 * (s * s)
  }

  lemma RoundedThird(s: real)
    requires s >= 0.0
    ensures Above(9.869 * (s / 9.0)) <= ThirdRounded(s)
  {
    Square(s);
    assert 9.869 * (s / 9.0) * (9.869 * (s / 9.0)) == 97.397161 / 81.0 * (s * s);
  }

  function LobeCofactor(x: real): real {
    0.18275 - 0.010021 * (x * x + 2.75 * x + 5.671875)
  }

  lemma LobeCofactorIs(x: real)
    requires 1.0 <= x <= 2.0
    ensures LobeCofactor(x) >= 0.0
  {
    Product(2.0 - x, 2.0 + x);
  }

  lemma DividedThird(x: real)
    requires 1.0 <= x <= 2.0
    ensures ThirdRounded(Times(x, x)) + Times(Times(x - 1.375, x - 1.375), LobeCofactor(x)) <= SincLine(x)
  {
  }

  /** In the lobe, the first factor is the sine of the angle since the last zero, turned over. */
  lemma LobeFactor(c: Trig, x: real)
    requires Textbook(c) && 1.0 <= x < 2.0
    ensures Sinc(c, x) <= 0.0 && Times(x, -Sinc(c, x)) <= SineLine(x - 1.0)
  {
    hide Angle, Times, SineLine, FactsAt, Textbook;
    SincSign(c, x);
    BelowSineLine(c, x - 1.0);
    OneOn(c, x - 1.0);
    assert x - 1.0 + 1.0 == x;
    TurnedOver(c.pi, x, c.sine(Angle(c.pi, x)), SineLine(x - 1.0));
  }

  lemma TurnedOver(p: Pos, x: real, n: real, l: real)
    requires x > 0.0 && -n <= Angle(p, l)
    ensures Times(x, -(n / Angle(p, x))) <= l
  {
    hide Angle;
    AngleIs(p, x);
    var d := Angle(p, x);
    var q := n / d;
    assert d * q == n;
    Unscaled(p, x, q, l);
  }

  lemma Unscaled(p: Pos, x: real, q: real, l: real)
    requires -(Angle(p, x) * q) <= Angle(p, l)
    ensures Times(x, -q) <= l
  {
    var e, r := x * -q, p as real;
    assert -(x * r * q) == e * r && (e - l) * r == e * r - l * r;
    if e > l { Multiply(e - l, r); assert false; }
  }

  /** No lower than minus 0.148 in the lobe. */
  lemma LanczosLobe(c: Trig, x: real)
    requires Textbook(c) && 1.0 <= x < 2.0
    ensures Lanczos(c, x) >= -0.148
  {
    hide Sinc, SineLine, SincLine, Times, FactsAt, Textbook;
    LobeFactor(c, x);
    BelowSincLine(c, x);
    SincSign(c, x / 3.0);
    LinesMeet(x);
    Shallow(x, -Sinc(c, x), Sinc(c, x / 3.0), SineLine(x - 1.0), SincLine(x));
  }

  lemma LinesMeet(x: real)
    requires 1.0 <= x < 2.0
    ensures SineLine(x - 1.0) * SincLine(x) <= 0.148 * x
  {
    var v := x - 1.375;
    Square(v - 0.0048);
    assert SineLine(x - 1.0) == 0.2943 + 0.38634 * v;
    assert SincLine(x) == 0.6904 - 0.3984 * v;
  }

  lemma Shallow(x: real, a: real, b: real, l: real, m: real)
    requires x >= 1.0 && a >= 0.0 && 0.0 <= b <= m && Times(x, a) <= l && l * m <= 0.148 * x
    ensures -a * b >= -0.148
  {
    Product(x, a);
    Product(l - x * a, b);
    Product(l, m - b);
    assert (l - x * a) * b == l * b - x * a * b && l * (m - b) == l * m - l * b;
    assert x * (a * b - 0.148) == x * a * b - 0.148 * x;
    if a * b > 0.148 { Multiply(x, a * b - 0.148); assert false; }
  }

  // ---- what kind of filters they are ------------------------------------------------------------------------

  lemma LanczosEven(c: Trig, x: real)
    requires Textbook(c) && -3.0 < x < 0.0
    ensures Lanczos(c, x) == Lanczos(c, -x)
  {
    SincEven(c, x);
    SincEven(c, x / 3.0);
    assert -x / 3.0 == -(x / 3.0);
  }

  lemma LanczosAt(c: Trig, x: real)
    requires Textbook(c) && 0.0 <= x <= 3.0
    ensures Lanczos(c, x) >= -0.148 && (x <= 1.0 || x >= 2.0 ==> Lanczos(c, x) >= 0.0)
    ensures x <= 0.5 ==> Lanczos(c, x) >= 0.6
  {
    hide Sinc, FactsAt, Textbook;
    if x < 3.0 {
      if x <= 0.5 { LanczosNear(c, x); }
      if 1.0 <= x < 2.0 { LanczosLobe(c, x); }
      SincSign(c, x);
      SincSign(c, x / 3.0);
      if x <= 1.0 || x >= 2.0 { Product(Sinc(c, x), Sinc(c, x / 3.0)); }
    }
  }

  /** Lanczos is a filter with shallow lobes. */
  lemma LanczosIsLobed(c: Trig)
    requires Textbook(c)
    ensures Lobed((x: real) => Lanczos(c, x), 0.6, 0.148)
  {
    hide Lanczos, Textbook;
    forall t: real
      ensures Lanczos(c, t) >= -0.148 && ((-1.0 <= t <= 1.0 || t <= -2.0 || t >= 2.0) ==> Lanczos(c, t) >= 0.0)
              && (-0.5 < t <= 0.5 ==> Lanczos(c, t) >= 0.6)
    {
      if 0.0 <= t < 3.0 {
        LanczosAt(c, t);
      } else if -3.0 < t < 0.0 {
        LanczosEven(c, t);
        LanczosAt(c, -t);
      } else {
        LanczosOutside(c, t);
      }
    }
  }

  /** Its lobe is below zero, halfway along. */
  lemma LanczosDips(c: Trig)
    requires Textbook(c)
    ensures Lanczos(c, 1.5) < 0.0
  {
    hide Angle, Textbook;
    FirstHalf(c, 0.5);
    OneOn(c, 0.5);
    AngleIs(c.pi, 1.5);
    SincSign(c, 0.5);
    OppositeSigns(c.sine(Angle(c.pi, 1.5)), Angle(c.pi, 1.5), Sinc(c, 0.5));
  }

  lemma OppositeSigns(n: real, d: real, s: real)
    requires n < 0.0 && d > 0.0 && s > 0.0
    ensures n / d * s < 0.0
  {
    var q := n / d;
    Multiply(-q, s);
    assert -q * s == -(q * s);
  }

  lemma LanczosOutside(c: Trig, x: real)
    requires Textbook(c) && (x <= -3.0 || x >= 3.0)
    ensures Lanczos(c, x) == 0.0
  {
    hide Sinc, Textbook;
    if x == -3.0 {
      SincEven(c, 1.0);
      SincSign(c, 1.0);
    }
  }

  /** Hamming is positive: its second factor is, whatever the cosine. */
  lemma HammingIsPositive(c: Trig)
    requires Textbook(c)
    ensures Positive((x: real) => Hamming(c, x))
  {
    hide Hamming, Textbook;
    forall t: real ensures Hamming(c, t) >= 0.0 && (-0.5 < t <= 0.5 ==> Hamming(c, t) > 0.0) {
      HammingAt(c, t);
    }
  }

  lemma HammingAt(c: Trig, x: real)
    requires Textbook(c)
    ensures Hamming(c, x) >= 0.0 && (-1.0 < x < 1.0 ==> Hamming(c, x) > 0.0)
  {
    hide Sinc, Angle;
    var y := if x < 0.0 then -x else x;
    if 0.0 < y < 1.0 {
      SincSign(c, y);
      assert FactsAt(c, Angle(c.pi, y));
      Multiply(Sinc(c, y), 0.54 + 0.46 * c.cosine(Angle(c.pi, y)));
    }
  }

  /** Hamming is one over its own input and nothing over the others, whatever sine and cosine are. */
  lemma HammingInterpolates(c: Trig)
    ensures Interpolates((x: real) => Hamming(c, x))
  {
    hide Sinc;
  }

  /** The sine of a whole number of half turns is zero. */
  lemma {:induction false} WholeTurns(c: Trig, n: nat)
    requires Textbook(c)
    ensures c.sine(Angle(c.pi, n as real)) == 0.0
  {
    if n == 0 {
      FirstHalf(c, 0.0);
    } else {
      WholeTurns(c, n - 1);
      OneOn(c, (n - 1) as real);
    }
  }

  /** So Lanczos is one over its own input and nothing over the others. */
  lemma LanczosInterpolates(c: Trig)
    requires Textbook(c)
    ensures Interpolates((x: real) => Lanczos(c, x))
  {
    forall t: real | t != 0.0 && t == t.Floor as real ensures Lanczos(c, t) == 0.0 {
      SincAtWhole(c, t);
      hide Sinc;
    }
  }

  lemma SincAtWhole(c: Trig, t: real)
    requires Textbook(c) && t != 0.0 && t == t.Floor as real
    ensures Sinc(c, t) == 0.0
  {
    hide Angle, Textbook;
    if t > 0.0 {
      WholeTurns(c, t.Floor);
    } else {
      assert -t == (-t.Floor) as real;
      WholeTurns(c, -t.Floor);
      SincEven(c, t);
    }
  }
}
