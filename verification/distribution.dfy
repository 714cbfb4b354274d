/**
 How Clay shares space among the children of a container along the layout axis
 (modules/clay/clay.h, Clay__SizeContainersAlongAxis): the loop that compresses children when
 the content is too large, and the loop that expands them when it is too small. Sizes are reals.

 `size` holds the children's sizes, updated in place; `buffer[..len]` is the buffer of children
 that can still be resized, from which a child is removed when it reaches its bound.
 */
module Distribution {
  import opened Collections

  const EPSILON := 0.01
  const MAX_FLOAT := 340282346638528859812000000000000000000.0

  predicate FloatEqual(left: real, right: real) {
    left - right < EPSILON && left - right > -EPSILON
  }

  function Max(a: real, b: real): real { if a > b then a else b }
  function Min(a: real, b: real): real { if a < b then a else b }

  lemma {:induction false} SumUpdate(s: seq<real>, i: nat, x: real)
    requires i < |s|
    ensures Sum(s[i := x]) == Sum(s) - s[i] + x
  {
    var n := |s| - 1;
    if i < n {
      assert s[i := x][..n] == s[..n][i := x];
      SumUpdate(s[..n], i, x);
    } else {
      assert s[i := x][..n] == s[..n];
    }
  }

  lemma NoElements()
    ensures Elements<nat>([]) == {}
  {
  }

  /** The buffer holds distinct children. */
  ghost predicate Distinct(b: seq<nat>, n: nat) {
    && (forall k :: 0 <= k < |b| ==> b[k] < n)
    && AllDistinct(b)
  }

  /** _RemoveSwapback: the last child takes the place of the one removed. */
  method RemoveSwapback(buffer: array<nat>, len: nat, index: nat) returns (len': nat, removed: nat)
    requires index < len <= buffer.Length
    modifies buffer
    ensures len' == len - 1 && removed == old(buffer[index])
    ensures buffer[..len'] == old(buffer[..len])[index := old(buffer[len - 1])][..len - 1]
  {
    removed := buffer[index];
    len' := len - 1;
    buffer[index] := buffer[len'];
  }

  /** After a swap-back the rest are as distinct as before, and only the one removed is gone. */
  lemma SwapbackKeeps(b: seq<nat>, n: nat, index: nat)
    requires Distinct(b, n) && index < |b|
    ensures var b' := b[index := b[|b| - 1]][..|b| - 1];
            Distinct(b', n) && Elements(b') == Elements(b) - {b[index]}
  {
    var b' := b[index := b[|b| - 1]][..|b| - 1];
    forall x | x in Elements(b) - {b[index]} ensures x in b' {
      var k :| 0 <= k < |b| && b[k] == x;
      if k == |b| - 1 { assert b'[index] == x; } else { assert b'[k] == x; }
    }
    forall x | x in b' ensures x in Elements(b) - {b[index]} {
      var k :| 0 <= k < |b'| && b'[k] == x;
    }
  }

  /** From the place of the one removed on, exactly the others are still to come. */
  lemma SwapbackRest(b: seq<nat>, n: nat, index: nat)
    requires Distinct(b, n) && index < |b|
    ensures Elements(b[index := b[|b| - 1]][..|b| - 1][index..]) == Elements(b[index..]) - {b[index]}
  {
    var r := b[index..];
    var r' := b[index := b[|b| - 1]][..|b| - 1][index..];
    forall x | x in Elements(r) - {b[index]} ensures x in r' {
      var k :| 0 <= k < |r| && r[k] == x;
      if k == |r| - 1 { assert r'[0] == x; } else { assert r'[k] == x; }
    }
    forall x | x in r' ensures x in Elements(r) - {b[index]} {
      var k :| 0 <= k < |r'| && r'[k] == x;
      assert x == if k == 0 then b[|b| - 1] else b[index + k];
      assert x == r[if k == 0 then |r| - 1 else k];
    }
  }

  lemma NextRest(b: seq<nat>, n: nat, index: nat)
    requires Distinct(b, n) && index < |b|
    ensures Elements(b[index + 1..]) == Elements(b[index..]) - {b[index]}
  {
    assert b[index..] == [b[index]] + b[index + 1..];
  }

  /** `n` shares of one size. */
  ghost function Shares(n: nat, share: real): real {
    if n == 0 then 0.0 else Shares(n - 1, share) + share
  }

  lemma {:induction false} SharesProduct(n: nat, share: real)
    ensures Shares(n, share) == (n as real) * share
  {
    if n > 0 {
      SharesProduct(n - 1, share);
    }
  }

  /** `n` shares of at most the `n`-th part of a negative remainder do not overshoot it. */
  lemma SharesFit(rest: real, share: real, n: nat)
    requires n > 0 && rest / (n as real) <= share
    ensures rest <= Shares(n, share)
  {
    SharesProduct(n, share);
    var m := n as real;
    assert m * (rest / m) == rest;
    assert m * (share - rest / m) >= 0.0;
  }

  /** How many rounds of epsilon over `n` children the remainder is worth. */
  ghost function Rounds(rest: real, n: nat): real {
    rest * (n as real) / EPSILON
  }

  lemma RoundsLeft(rest: real, n: nat)
    requires rest >= 0.0
    ensures Rounds(rest, n) >= 0.0
  {
    assert rest * (n as real) >= 0.0;
  }

  lemma ShareOf(rest: real, n: nat)
    requires n > 0 && rest > EPSILON
    ensures rest / (n as real) > 0.0 && rest / (n as real) * (n as real) == rest
    ensures -rest / (n as real) == -(rest / (n as real))
  {
  }

  /** A round that removes no child cuts the remainder by at least epsilon over the children left. */
  lemma RoundProgress(before: real, after: real, step: real, n: nat)
    requires n > 0 && before > EPSILON && 0.0 <= after <= before - step
    requires step >= EPSILON || step == before / (n as real)
    ensures Rounds(after, n) <= Rounds(before, n) - 1.0
  {
    var m := n as real;
    assert step * m >= EPSILON by {
      if step == before / m {
        assert step * m == before;
      } else {
        assert (step - EPSILON) * m >= 0.0;
      }
    }
    assert (before - step - after) * m >= 0.0;
    assert after * m <= before * m - EPSILON;
  }

  // ---- compressing -----------------------------------------------------------------------------

  /** Every child still in the buffer is at or above its minimum, and that is not negative. */
  ghost predicate AboveMin(size: seq<real>, minSize: seq<real>, b: seq<nat>)
    requires |size| == |minSize| && Distinct(b, |size|)
  {
    forall k {:trigger b[k]} :: 0 <= k < |b| ==> 0.0 <= minSize[b[k]] <= size[b[k]]
  }

  // ---- what a scan finds ------------------------------------------------------------------------

  datatype Scan = Scan(extreme: real, second: real, step: real)

  ghost function SizesOf(size: seq<real>, b: seq<nat>): (r: seq<real>)
    requires forall k :: 0 <= k < |b| ==> b[k] < |size|
    ensures |r| == |b| && forall k :: 0 <= k < |b| ==> r[k] == size[b[k]]
  {
    seq(|b|, k requires 0 <= k < |b| => size[b[k]])
  }

  /** The scan over sizes in order: the largest so far, the next to it, and the step toward that. */
  function ScanLargest(sizes: seq<real>, rest: real): Scan {
    if sizes == [] then Scan(0.0, 0.0, rest)
    else Larger(ScanLargest(sizes[..|sizes| - 1], rest), sizes[|sizes| - 1])
  }

  function Larger(sc: Scan, size: real): Scan {
    if FloatEqual(size, sc.extreme) then sc
    else if size > sc.extreme then Scan(size, sc.extreme, sc.step)
    else Scan(sc.extreme, Max(sc.second, size), Max(sc.second, size) - sc.extreme)
  }

  /** Child `k` is a new largest when the scan comes to it. */
  predicate NewLargest(sizes: seq<real>, rest: real, k: nat)
    requires k < |sizes|
  {
    var sc := ScanLargest(sizes[..k], rest);
    !FloatEqual(sizes[k], sc.extreme) && sizes[k] > sc.extreme
  }

  /**
   The step, exactly. Where child `at` is the last new largest: if some child after it is 0.01 or more
   smaller than it, the step is the gap to the next size; if none is, the step is the one the scan
   had before it came to `at`.
   */
  lemma {:induction false} StepDown(sizes: seq<real>, rest: real, at: nat)
    requires at < |sizes| && NewLargest(sizes, rest, at)
    requires forall k :: at < k < |sizes| ==> !NewLargest(sizes, rest, k)
    ensures var sc := ScanLargest(sizes, rest);
            && sc.extreme == sizes[at]
            && (if exists k :: at < k < |sizes| && sizes[k] <= sizes[at] - EPSILON
                then sc.step == sc.second - sc.extreme
                else var before := ScanLargest(sizes[..at], rest);
                     sc.step == before.step && sc.second == before.extreme)
    decreases |sizes|
  {
    var n := |sizes| - 1;
    if at < n {
      var less := sizes[..n];
      assert less[..at] == sizes[..at];
      forall k | at < k < n ensures !NewLargest(less, rest, k) {
        assert less[..k] == sizes[..k] && !NewLargest(sizes, rest, k);
      }
      StepDown(less, rest, at);
      assert !NewLargest(sizes, rest, n);
      assert forall k :: at < k < n ==> less[k] == sizes[k];
    }
  }

  lemma ScanLargestMore(sizes: seq<real>, rest: real, k: nat)
    requires k < |sizes|
    ensures ScanLargest(sizes[..k + 1], rest) == Larger(ScanLargest(sizes[..k], rest), sizes[k])
  {
    assert sizes[..k + 1][..k] == sizes[..k];
  }

  /** What the scan calls next is: every child is within 0.01 of the largest, or not beyond the next by 0.01. */
  lemma {:induction false} NextLargest(sizes: seq<real>, rest: real, k: nat)
    ensures var sc := ScanLargest(sizes, rest); sc.second <= sc.extreme && (sc.second == 0.0 || sc.second in sizes)
    ensures var sc := ScanLargest(sizes, rest);
            k < |sizes| ==> sizes[k] < sc.extreme + EPSILON
                            && (FloatEqual(sizes[k], sc.extreme) || sizes[k] < sc.second + EPSILON)
    ensures var sc := ScanLargest(sizes, rest); sc.extreme == 0.0 || sc.extreme in sizes
    decreases |sizes|
  {
    if sizes != [] {
      NextLargest(sizes[..|sizes| - 1], rest, k);
    }
  }

  /**
   When a round keeps the order. The largest children, cut by the round's step, stay at or above the next size
   if and only if a child after the last new largest is 0.01 or more smaller than it, or the step the
   scan had before that child, or an even share, is no deeper than the gap it opened.
   */
  lemma OrderKeptDown(sizes: seq<real>, rest: real, at: nat)
    requires at < |sizes| && NewLargest(sizes, rest, at)
    requires forall k :: at < k < |sizes| ==> !NewLargest(sizes, rest, k)
    ensures var sc, before := ScanLargest(sizes, rest), ScanLargest(sizes[..at], rest);
            var share := rest / |sizes| as real;
            sc.extreme + Max(sc.step, share) >= sc.second
            <==> (exists k :: at < k < |sizes| && sizes[k] <= sizes[at] - EPSILON)
                 || Max(before.step, share) >= before.extreme - sizes[at]
  {
    hide ScanLargest, NewLargest;
    StepDown(sizes, rest, at);
  }

  /** A finding: children of 5 and 10, in that order, 12 too large. The step is not the gap of 5 but the 12
   left from the start, so the second child gives up its share of 6 and ends below the first. */
  lemma StaleLargest()
    ensures var sc := ScanLargest([5.0, 10.0], -12.0);
            && sc == Scan(10.0, 5.0, -12.0) && 10.0 + Max(sc.step, -12.0 / 2.0) < 5.0
  {
    var s: seq<real> := [5.0, 10.0];
    ScanLargestMore(s, -12.0, 0);
    ScanLargestMore(s, -12.0, 1);
    assert s[..2] == s && s[..0] == [];
  }

  /** A child after one pass: as large as the largest, it has given up the step, down to its minimum. */
  function Lessened(size: real, minSize: real, largest: real, step: real): real {
    if FloatEqual(size, largest) then Max(minSize, size + step) else size
  }

  /** The scan of the first `i` sizes: none is beyond the largest by 0.01, and child `at` is as large. */
  ghost predicate LargestOf(sizes: seq<real>, i: nat, sc: Scan, at: nat) {
    && i <= |sizes| && sc.extreme >= 0.0 && sc.step <= -EPSILON
    && (sc.extreme == 0.0 || sc.second <= sc.extreme - EPSILON)
    && (forall k :: 0 <= k < i ==> sizes[k] < sc.extreme + EPSILON)
    && if sc.extreme == 0.0 then at == 0 && forall k :: 0 <= k < i ==> FloatEqual(sizes[k], 0.0)
       else at < i && sizes[at] == sc.extreme
  }

  lemma LargestMore(sizes: seq<real>, i: nat, sc: Scan, at: nat)
    requires LargestOf(sizes, i, sc, at) && i < |sizes| && sizes[i] >= 0.0
    ensures var next := Larger(sc, sizes[i]);
            LargestOf(sizes, i + 1, next, if next.extreme == sc.extreme then at else i)
  {
  }

  lemma LargestFound(sizes: seq<real>, sc: Scan, at: nat)
    requires LargestOf(sizes, |sizes|, sc, at) && sizes != []
    ensures at < |sizes| && FloatEqual(sizes[at], sc.extreme) && sc.step <= -EPSILON
    ensures forall k :: 0 <= k < |sizes| ==> sizes[k] < sc.extreme + EPSILON
  {
  }

  /** The scan at one child. */
  method LookLarger(childSize: real, largest0: real, second0: real, step0: real)
    returns (largest: real, second: real, step: real)
    ensures Scan(largest, second, step) == Larger(Scan(largest0, second0, step0), childSize)
  {
    largest, second, step := largest0, second0, step0;
    if FloatEqual(childSize, largest) { return; }
    if childSize > largest {
      second := largest;
      largest := childSize;
    }
    if childSize < largest {
      second := Max(second, childSize);
      step := second - largest;
    }
  }

  lemma SizesAboveMin(size: seq<real>, minSize: seq<real>, b: seq<nat>)
    requires |size| == |minSize| && Distinct(b, |size|) && AboveMin(size, minSize, b)
    ensures forall k :: 0 <= k < |b| ==> SizesOf(size, b)[k] >= 0.0
  {
  }

  /** The scan for the largest child, and the step toward the second largest. */
  method FindLargest(size: array<real>, ghost minSize: seq<real>, buffer: array<nat>, len: nat, rest: real)
    returns (largest: real, step: real, ghost at: nat)
    requires 0 < len <= buffer.Length && size.Length == |minSize| && Distinct(buffer[..len], size.Length)
    requires AboveMin(size[..], minSize, buffer[..len]) && rest < -EPSILON
    ensures at < len && FloatEqual(size[buffer[at]], largest)
    ensures step <= -EPSILON && forall k :: 0 <= k < len ==> size[buffer[k]] < largest + EPSILON
    ensures var sc := ScanLargest(SizesOf(size[..], buffer[..len]), rest); largest == sc.extreme && step == sc.step
  {
    ghost var sizes := SizesOf(size[..], buffer[..len]);
    assert sizes[..0] == [] && ScanLargest([], rest) == Scan(0.0, 0.0, rest);
    SizesAboveMin(size[..], minSize, buffer[..len]);
    largest := 0.0;
    at := 0;
    var second := 0.0;
    step := rest;
    var i := 0;
    assert LargestOf(sizes, 0, Scan(0.0, 0.0, rest), 0);
    hide ScanLargest, SizesOf, LargestOf, AboveMin, Larger;
    while i < len
      invariant i <= len && LargestOf(sizes, i, Scan(largest, second, step), at)
      invariant ScanLargest(sizes[..i], rest) == Scan(largest, second, step)
    {
      ScanLargestMore(sizes, rest, i);
      LargestMore(sizes, i, Scan(largest, second, step), at);
      assert buffer[..len][i] == buffer[i];
      ghost var before := largest;
      largest, second, step := LookLarger(size[buffer[i]], largest, second, step);
      at := if largest == before then at else i;
      i := i + 1;
    }
    assert sizes[..len] == sizes;
    LargestFound(sizes, Scan(largest, second, step), at);
    assert buffer[..len][at] == buffer[at];
    forall k | 0 <= k < len ensures size[buffer[k]] < largest + EPSILON { assert buffer[..len][k] == buffer[k]; }
  }

  /**
   Compressing so far, from sizes `size0` and resizable children `all`: nothing else moved, no
   child crossed its minimum or grew, and a child out of the buffer is at its minimum.
   */
  ghost predicate Compressed(size0: seq<real>, size: seq<real>, minSize: seq<real>, all: set<nat>, b: seq<nat>) {
    && |size0| == |size| == |minSize| && Distinct(b, |size|) && Elements(b) <= all
    && forall x: nat :: x < |size| ==> ChildCompressed(size0[x], size[x], minSize[x], x in all, x in b)
  }

  predicate ChildCompressed(size0: real, size: real, minSize: real, resizable: bool, inBuffer: bool) {
    if resizable then 0.0 <= minSize <= size <= size0 && (!inBuffer ==> size == minSize) else size == size0
  }

  lemma CompressedDistinct(size0: seq<real>, size: seq<real>, minSize: seq<real>, all: set<nat>, b: seq<nat>)
    requires Compressed(size0, size, minSize, all, b)
    ensures |size| == |minSize| && Distinct(b, |size|)
  {
  }

  lemma CompressedAboveMin(size0: seq<real>, size: seq<real>, minSize: seq<real>, all: set<nat>, b: seq<nat>)
    requires Compressed(size0, size, minSize, all, b)
    ensures AboveMin(size, minSize, b)
  {
    forall k | 0 <= k < |b| ensures 0.0 <= minSize[b[k]] <= size[b[k]] {
      assert b[k] in Elements(b);
    }
  }

  /** One child made smaller, in the buffer still or just removed at its minimum. */
  lemma CompressOne(size0: seq<real>, size: seq<real>, minSize: seq<real>, all: set<nat>, b: seq<nat>, i: nat, x: real)
    requires Compressed(size0, size, minSize, all, b) && i < |b| && minSize[b[i]] <= x <= size[b[i]]
    ensures Compressed(size0, size[b[i] := x], minSize, all, b)
    ensures x == minSize[b[i]] ==> Compressed(size0, size[b[i] := x], minSize, all, b[i := b[|b| - 1]][..|b| - 1])
  {
    assert b[i] in Elements(b);
    SwapbackKeeps(b, |size|, i);
    var b' := b[i := b[|b| - 1]][..|b| - 1];
    forall y: nat | y < |size| && y != b[i] ensures y in b <==> y in b' {
      assert y in b' <==> y in Elements(b');
    }
    assert b[i] in b' <==> b[i] in Elements(b');
  }

  /** Exactly the children of `done` have been through the pass. */
  ghost predicate PassedLessened(before: seq<real>, now: seq<real>, minSize: seq<real>, done: set<nat>, largest: real,
                                 step: real) {
    && |before| == |now| == |minSize|
    && forall x: nat :: x < |now| ==>
      now[x] == if x in done then Lessened(before[x], minSize[x], largest, step) else before[x]
  }

  lemma NothingLessened(size: seq<real>, minSize: seq<real>, largest: real, step: real)
    requires |size| == |minSize|
    ensures forall b: set<nat> :: PassedLessened(size, size, minSize, b - b, largest, step)
  {
  }

  /** The next child through the pass, from those still to come. */
  lemma PassLessened(before: seq<real>, now: seq<real>, minSize: seq<real>, all: set<nat>, ahead: seq<nat>,
                     largest: real, step: real)
    requires Elements(ahead) <= all && PassedLessened(before, now, minSize, all - Elements(ahead), largest, step)
    requires ahead != [] && ahead[0] < |now|
    ensures var x := ahead[0];
            PassedLessened(before, now[x := Lessened(now[x], minSize[x], largest, step)], minSize,
                all - (Elements(ahead) - {x}), largest, step)
  {
    var x := ahead[0];
    assert x in Elements(ahead) && x in all;
  }

  /** One child of the pass: as large as the largest, it gives up the step, down to its minimum. */
  method CompressChild(size: array<real>, minSize: seq<real>, buffer: array<nat>, len0: nat, i0: nat, largest: real,
      step: real,
                       rest0: real, ghost size0: seq<real>, ghost all: set<nat>, ghost t0: nat)
    returns (rest: real, len: nat, i: nat, ghost t: nat)
    requires i0 <= t0 < len0 && i0 < len0 <= buffer.Length
    requires Compressed(size0, size[..], minSize, all, buffer[..len0]) && step < 0.0
    modifies size, buffer
    ensures len <= len0 && Compressed(size0, size[..], minSize, all, buffer[..len])
    ensures Sum(size[..]) + rest == old(Sum(size[..])) + rest0
    ensures rest0 <= rest <= rest0 - step
    ensures i + len0 - len == i0 + 1 && i <= len && (i == i0 || (i == i0 + 1 && len == len0))
    ensures FloatEqual(old(size[buffer[i0]]), largest) ==> len < len0 || rest == rest0 - step
    ensures size[..] == old(size[..][buffer[i0] := Lessened(size[buffer[i0]], minSize[buffer[i0]], largest, step)])
    ensures Elements(buffer[..len][i..]) == old(Elements(buffer[..len0][i0..]) - {buffer[i0]})
    ensures t0 > i0 ==> i <= t < len && buffer[t] == old(buffer[t0])
  {
    hide Sum;
    rest, len, i, t := rest0, len0, i0, t0;
    var x := buffer[i];
    ghost var sizes, b := size[..], buffer[..len];
    assert b[i] == x && x in Elements(b);
    var previous := size[x];
    if !FloatEqual(previous, largest) {
      NextRest(b, size.Length, i);
      i := i + 1;
      return;
    }
    var clamped := previous + step <= minSize[x];
    size[x] := if clamped then minSize[x] else previous + step;
    assert size[..] == sizes[x := size[x]];
    SumUpdate(sizes, x, size[x]);
    CompressOne(size0, sizes, minSize, all, b, i, size[x]);
    rest := rest - (size[x] - previous);
    if clamped {
      var removed: nat;
      SwapbackRest(b, size.Length, i);
      len, removed := RemoveSwapback(buffer, len, i);
      t := if t0 == len then i else t0;
      assert t0 > i0 ==> buffer[..len][t] == b[t0];
    } else {
      NextRest(b, size.Length, i);
      i := i + 1;
    }
  }

  /** The second half of a round, over the whole buffer; some child is as large as the largest. */
  method CompressPass(size: array<real>, minSize: seq<real>, buffer: array<nat>, len0: nat, largest: real, step: real,
      rest0: real,
                      ghost size0: seq<real>, ghost all: set<nat>, ghost at: nat)
    returns (rest: real, len: nat)
    requires 0 < len0 <= buffer.Length && Compressed(size0, size[..], minSize, all, buffer[..len0])
    requires rest0 < 0.0 && step < 0.0 && rest0 <= Shares(len0, step)
    requires at < len0 && FloatEqual(size[buffer[at]], largest)
    modifies size, buffer
    ensures len <= len0 && Compressed(size0, size[..], minSize, all, buffer[..len])
    ensures Sum(size[..]) + rest == old(Sum(size[..])) + rest0
    ensures rest0 <= rest <= 0.0
    ensures len < len0 || rest >= rest0 - step
    ensures PassedLessened(old(size[..]), size[..], minSize, old(Elements(buffer[..len0])), largest, step)
  {
    hide PassedLessened, Compressed, Sum, FloatEqual, Elements;
    CompressedDistinct(size0, size[..], minSize, all, buffer[..len0]);
    rest, len := rest0, len0;
    ghost var t := at;
    ghost var before, b0 := size[..], Elements(buffer[..len0]);
    assert buffer[..len][0..] == buffer[..len];
    NothingLessened(before, minSize, largest, step);
    var i := 0;
    while i < len
      invariant 0 <= i <= len <= len0 && Compressed(size0, size[..], minSize, all, buffer[..len])
      invariant Distinct(buffer[..len], size.Length)
      invariant Sum(size[..]) + rest == old(Sum(size[..])) + rest0
      invariant rest0 <= rest <= rest0 - Shares(i + len0 - len, step)
      invariant len < len0 || rest >= rest0 - step || (i <= t < len && FloatEqual(size[buffer[..len][t]], largest))
      invariant Elements(buffer[..len][i..]) <= b0
      invariant PassedLessened(before, size[..], minSize, b0 - Elements(buffer[..len][i..]), largest, step)
      decreases len - i
    {
      ghost var t0 := if i <= t < len then t else i;
      assert t0 > i ==> buffer[..len][i] != buffer[..len][t0];
      PassLessened(before, size[..], minSize, b0, buffer[..len][i..], largest, step);
      rest, len, i, t := CompressChild(size, minSize, buffer, len, i, largest, step, rest, size0, all, t0);
      CompressedDistinct(size0, size[..], minSize, all, buffer[..len]);
    }
    assert buffer[..len][i..] == [];
    NoElements();
    assert b0 - Elements(buffer[..len][i..]) == b0;
  }

  /** One round: the step is found, and only children as large as the largest give it up. */
  method CompressRound(size: array<real>, minSize: seq<real>, buffer: array<nat>, len0: nat, rest0: real,
                       ghost size0: seq<real>, ghost all: set<nat>)
    returns (rest: real, len: nat)
    requires 0 < len0 <= buffer.Length && Compressed(size0, size[..], minSize, all, buffer[..len0]) && rest0 < -EPSILON
    modifies size, buffer
    ensures len <= len0 && Compressed(size0, size[..], minSize, all, buffer[..len])
    ensures Sum(size[..]) + rest == old(Sum(size[..])) + rest0
    ensures rest0 <= rest <= 0.0
    ensures len < len0 || Rounds(-rest, len0) <= Rounds(-rest0, len0) - 1.0
    ensures forall x: nat, k :: x < size.Length && size[x] != old(size[x]) && 0 <= k < len0 ==>
      old(size[buffer[k]]) < old(size[x]) + 2.0 * EPSILON
  {
    hide Sum;
    CompressedAboveMin(size0, size[..], minSize, all, buffer[..len0]);
    ghost var at: nat;
    var largest, gap;
    largest, gap, at := FindLargest(size, minSize, buffer, len0, rest0);
    var share := rest0 / (len0 as real);
    ShareOf(-rest0, len0);
    var step := Max(gap, share);
    SharesFit(rest0, step, len0);
    rest, len := CompressPass(size, minSize, buffer, len0, largest, step, rest0, size0, all, at);
    if len == len0 {
      RoundProgress(-rest0, -rest, -step, len0);
    }
  }

  /**
   Compressing, as a whole: it ends; what the children lose is what the remainder gains; no
   child crosses its minimum and no other child moves; the remainder keeps its sign; and either
   it is within epsilon of nothing, or every resizable child is at its minimum.
   */
  method Compress(size: array<real>, minSize: seq<real>, buffer: array<nat>, len0: nat, rest0: real)
    returns (rest: real, len: nat)
    requires size.Length == |minSize| && len0 <= buffer.Length && Distinct(buffer[..len0], size.Length)
    requires AboveMin(size[..], minSize, buffer[..len0]) && rest0 < 0.0
    modifies size, buffer
    ensures Sum(size[..]) + rest == old(Sum(size[..])) + rest0
    ensures rest0 <= rest <= 0.0
    ensures len <= len0 && Compressed(old(size[..]), size[..], minSize, old(Elements(buffer[..len0])), buffer[..len])
    ensures rest >= -EPSILON || forall k :: 0 <= k < len0 ==> size[old(buffer[k])] == minSize[old(buffer[k])]
  {
    hide Rounds, Sum, FloatEqual;
    rest, len := rest0, len0;
    ghost var all := Elements(buffer[..len0]);
    ghost var size0 := size[..];
    CompressedAtStart(size0, minSize, buffer[..len0]);
    while rest < -EPSILON && len > 0
      invariant len <= len0 && Compressed(size0, size[..], minSize, all, buffer[..len])
      invariant Sum(size[..]) + rest == Sum(size0) + rest0
      invariant rest0 <= rest <= 0.0
      decreases len, Rounds(-rest, len)
    {
      RoundsLeft(-rest, len);
      rest, len := CompressRound(size, minSize, buffer, len, rest, size0, all);
    }
    forall k | 0 <= k < len0 && len == 0 ensures size[old(buffer[k])] == minSize[old(buffer[k])] {
      assert old(buffer[..len0])[k] in all;
    }
  }

  lemma CompressedAtStart(size: seq<real>, minSize: seq<real>, b: seq<nat>)
    requires |size| == |minSize| && Distinct(b, |size|) && AboveMin(size, minSize, b)
    ensures Compressed(size, size, minSize, Elements(b), b)
  {
    forall x: nat | x < |size| && x in Elements(b) ensures 0.0 <= minSize[x] <= size[x] {
      var k :| 0 <= k < |b| && b[k] == x;
    }
  }

  // ---- expanding: the same shape, toward the maxima ---------------------------------------------

  ghost predicate BelowMax(size: seq<real>, maxSize: seq<real>, b: seq<nat>)
    requires |size| == |maxSize| && Distinct(b, |size|)
  {
    forall k {:trigger b[k]} :: 0 <= k < |b| ==> size[b[k]] <= maxSize[b[k]] <= MAX_FLOAT
  }

  /** Expanding so far: nothing else moved, no child crossed its maximum or shrank. */
  ghost predicate Expanded(size0: seq<real>, size: seq<real>, maxSize: seq<real>, all: set<nat>, b: seq<nat>) {
    && |size0| == |size| == |maxSize| && Distinct(b, |size|) && Elements(b) <= all
    && forall x: nat :: x < |size| ==> ChildExpanded(size0[x], size[x], maxSize[x], x in all, x in b)
  }

  predicate ChildExpanded(size0: real, size: real, maxSize: real, resizable: bool, inBuffer: bool) {
    if resizable then size0 <= size <= maxSize <= MAX_FLOAT && (!inBuffer ==> size == maxSize) else size == size0
  }

  lemma ExpandedDistinct(size0: seq<real>, size: seq<real>, maxSize: seq<real>, all: set<nat>, b: seq<nat>)
    requires Expanded(size0, size, maxSize, all, b)
    ensures |size| == |maxSize| && Distinct(b, |size|)
  {
  }

  lemma ExpandedBelowMax(size0: seq<real>, size: seq<real>, maxSize: seq<real>, all: set<nat>, b: seq<nat>)
    requires Expanded(size0, size, maxSize, all, b)
    ensures BelowMax(size, maxSize, b)
  {
    forall k | 0 <= k < |b| ensures size[b[k]] <= maxSize[b[k]] <= MAX_FLOAT {
      assert b[k] in Elements(b);
    }
  }

  lemma ExpandedAtStart(size: seq<real>, maxSize: seq<real>, b: seq<nat>)
    requires |size| == |maxSize| && Distinct(b, |size|) && BelowMax(size, maxSize, b)
    ensures Expanded(size, size, maxSize, Elements(b), b)
  {
    forall x: nat | x < |size| && x in Elements(b) ensures size[x] <= maxSize[x] <= MAX_FLOAT {
      var k :| 0 <= k < |b| && b[k] == x;
    }
  }

  lemma ExpandOne(size0: seq<real>, size: seq<real>, maxSize: seq<real>, all: set<nat>, b: seq<nat>, i: nat, x: real)
    requires Expanded(size0, size, maxSize, all, b) && i < |b| && size[b[i]] <= x <= maxSize[b[i]]
    ensures Expanded(size0, size[b[i] := x], maxSize, all, b)
    ensures x == maxSize[b[i]] ==> Expanded(size0, size[b[i] := x], maxSize, all, b[i := b[|b| - 1]][..|b| - 1])
  {
    assert b[i] in Elements(b);
    SwapbackKeeps(b, |size|, i);
    var b' := b[i := b[|b| - 1]][..|b| - 1];
    forall y: nat | y < |size| && y != b[i] ensures y in b <==> y in b' {
      assert y in b' <==> y in Elements(b');
    }
    assert b[i] in b' <==> b[i] in Elements(b');
  }

  /** `n` shares of at most the `n`-th part of a positive remainder do not overshoot it. */
  lemma SharesFitUp(rest: real, share: real, n: nat)
    requires n > 0 && share <= rest / (n as real)
    ensures Shares(n, share) <= rest
  {
    SharesProduct(n, share);
    var m := n as real;
    assert m * (rest / m) == rest;
    assert m * (rest / m - share) >= 0.0;
  }

  /** The scan over sizes in order: the smallest so far, the next to it, and the step toward that. */
  function ScanSmallest(sizes: seq<real>, rest: real): Scan {
    if sizes == [] then Scan(MAX_FLOAT, MAX_FLOAT, rest)
    else Smaller(ScanSmallest(sizes[..|sizes| - 1], rest), sizes[|sizes| - 1])
  }

  function Smaller(sc: Scan, size: real): Scan {
    if FloatEqual(size, sc.extreme) then sc
    else if size < sc.extreme then Scan(size, sc.extreme, sc.step)
    else Scan(sc.extreme, Min(sc.second, size), Min(sc.second, size) - sc.extreme)
  }

  /** Child `k` is a new smallest when the scan comes to it. */
  predicate NewSmallest(sizes: seq<real>, rest: real, k: nat)
    requires k < |sizes|
  {
    var sc := ScanSmallest(sizes[..k], rest);
    !FloatEqual(sizes[k], sc.extreme) && sizes[k] < sc.extreme
  }

  /**
   The step, exactly. Where child `at` is the last new smallest: if some child after it is 0.01 or more
   larger than it, the step is the gap to the next size; if none is, the step is the one the scan
   had before it came to `at`.
   */
  lemma {:induction false} StepUp(sizes: seq<real>, rest: real, at: nat)
    requires at < |sizes| && NewSmallest(sizes, rest, at)
    requires forall k :: at < k < |sizes| ==> !NewSmallest(sizes, rest, k)
    ensures var sc := ScanSmallest(sizes, rest);
            && sc.extreme == sizes[at]
            && (if exists k :: at < k < |sizes| && sizes[k] >= sizes[at] + EPSILON
                then sc.step == sc.second - sc.extreme
                else var before := ScanSmallest(sizes[..at], rest);
                     sc.step == before.step && sc.second == before.extreme)
    decreases |sizes|
  {
    var n := |sizes| - 1;
    if at < n {
      var less := sizes[..n];
      assert less[..at] == sizes[..at];
      forall k | at < k < n ensures !NewSmallest(less, rest,
          k) { assert less[..k] == sizes[..k] && !NewSmallest(sizes, rest, k); }
      StepUp(less, rest, at);
      assert !NewSmallest(sizes, rest, n);
      assert forall k :: at < k < n ==> less[k] == sizes[k];
    }
  }

  lemma ScanSmallestMore(sizes: seq<real>, rest: real, k: nat)
    requires k < |sizes|
    ensures ScanSmallest(sizes[..k + 1], rest) == Smaller(ScanSmallest(sizes[..k], rest), sizes[k])
  {
    assert sizes[..k + 1][..k] == sizes[..k];
  }

  /** What the scan calls next is: every child is within 0.01 of the smallest, or not beyond the next by 0.01. */
  lemma {:induction false} NextSmallest(sizes: seq<real>, rest: real, k: nat)
    ensures var sc := ScanSmallest(sizes, rest);
            sc.second >= sc.extreme && (sc.second == MAX_FLOAT || sc.second in sizes)
    ensures var sc := ScanSmallest(sizes, rest);
            k < |sizes| ==> sizes[k] > sc.extreme - EPSILON
                            && (FloatEqual(sizes[k], sc.extreme) || sizes[k] > sc.second - EPSILON)
    ensures var sc := ScanSmallest(sizes, rest); sc.extreme == MAX_FLOAT || sc.extreme in sizes
    decreases |sizes|
  {
    if sizes != [] {
      NextSmallest(sizes[..|sizes| - 1], rest, k);
    }
  }

  /** When a round keeps the order on the growing side. */
  lemma OrderKeptUp(sizes: seq<real>, rest: real, at: nat)
    requires at < |sizes| && NewSmallest(sizes, rest, at)
    requires forall k :: at < k < |sizes| ==> !NewSmallest(sizes, rest, k)
    ensures var sc, before := ScanSmallest(sizes, rest), ScanSmallest(sizes[..at], rest);
            var share := rest / |sizes| as real;
            sc.extreme + Min(sc.step, share) <= sc.second
            <==> (exists k :: at < k < |sizes| && sizes[k] >= sizes[at] + EPSILON)
                 || Min(before.step, share) <= before.extreme - sizes[at]
  {
    hide ScanSmallest, NewSmallest;
    StepUp(sizes, rest, at);
  }

  /** A finding: children of 10 and 5, in that order, with 12 to spare. The second takes its share of 6 and
   ends above the first. */
  lemma StaleSmallest()
    ensures var sc := ScanSmallest([10.0, 5.0], 12.0);
            && sc == Scan(5.0, 10.0, 12.0) && 5.0 + Min(sc.step, 12.0 / 2.0) > 10.0
  {
    var s: seq<real> := [10.0, 5.0];
    ScanSmallestMore(s, 12.0, 0);
    ScanSmallestMore(s, 12.0, 1);
    assert s[..2] == s && s[..0] == [];
  }

  /** A child after one pass: as small as the smallest, it has taken the step, up to its maximum. */
  function Enlarged(size: real, maxSize: real, smallest: real, step: real): real {
    if FloatEqual(size, smallest) then Min(maxSize, size + step) else size
  }

  /** The scan of the first `i` sizes on the growing side. */
  ghost predicate SmallestOf(sizes: seq<real>, i: nat, sc: Scan, at: nat) {
    && i <= |sizes| && sc.extreme <= MAX_FLOAT && sc.step >= EPSILON
    && (sc.extreme == MAX_FLOAT || sc.second >= sc.extreme + EPSILON)
    && (forall k :: 0 <= k < i ==> sizes[k] > sc.extreme - EPSILON)
    && if sc.extreme == MAX_FLOAT then at == 0 && forall k :: 0 <= k < i ==> FloatEqual(sizes[k], MAX_FLOAT)
       else at < i && sizes[at] == sc.extreme
  }

  lemma SmallestMore(sizes: seq<real>, i: nat, sc: Scan, at: nat)
    requires SmallestOf(sizes, i, sc, at) && i < |sizes| && sizes[i] <= MAX_FLOAT
    ensures var next := Smaller(sc, sizes[i]);
            SmallestOf(sizes, i + 1, next, if next.extreme == sc.extreme then at else i)
  {
  }

  lemma SmallestFound(sizes: seq<real>, sc: Scan, at: nat)
    requires SmallestOf(sizes, |sizes|, sc, at) && sizes != []
    ensures at < |sizes| && FloatEqual(sizes[at], sc.extreme) && sc.step >= EPSILON
    ensures forall k :: 0 <= k < |sizes| ==> sizes[k] > sc.extreme - EPSILON
  {
  }

  method LookSmaller(childSize: real, smallest0: real, second0: real, step0: real)
    returns (smallest: real, second: real, step: real)
    ensures Scan(smallest, second, step) == Smaller(Scan(smallest0, second0, step0), childSize)
  {
    smallest, second, step := smallest0, second0, step0;
    if FloatEqual(childSize, smallest) { return; }
    if childSize < smallest {
      second := smallest;
      smallest := childSize;
    }
    if childSize > smallest {
      second := Min(second, childSize);
      step := second - smallest;
    }
  }

  lemma SizesBelowMax(size: seq<real>, maxSize: seq<real>, b: seq<nat>)
    requires |size| == |maxSize| && Distinct(b, |size|) && BelowMax(size, maxSize, b)
    ensures forall k :: 0 <= k < |b| ==> SizesOf(size, b)[k] <= MAX_FLOAT
  {
  }

  /** The scan for the smallest child, and the step toward the second smallest. */
  method FindSmallest(size: array<real>, ghost maxSize: seq<real>, buffer: array<nat>, len: nat, rest: real)
    returns (smallest: real, step: real, ghost at: nat)
    requires 0 < len <= buffer.Length && size.Length == |maxSize| && Distinct(buffer[..len], size.Length)
    requires BelowMax(size[..], maxSize, buffer[..len]) && rest > EPSILON
    ensures at < len && FloatEqual(size[buffer[at]], smallest)
    ensures step >= EPSILON && forall k :: 0 <= k < len ==> size[buffer[k]] > smallest - EPSILON
    ensures var sc := ScanSmallest(SizesOf(size[..], buffer[..len]), rest); smallest == sc.extreme && step == sc.step
  {
    ghost var sizes := SizesOf(size[..], buffer[..len]);
    assert sizes[..0] == [] && ScanSmallest([], rest) == Scan(MAX_FLOAT, MAX_FLOAT, rest);
    SizesBelowMax(size[..], maxSize, buffer[..len]);
    smallest := MAX_FLOAT;
    at := 0;
    var second := MAX_FLOAT;
    step := rest;
    var i := 0;
    assert SmallestOf(sizes, 0, Scan(MAX_FLOAT, MAX_FLOAT, rest), 0);
    hide ScanSmallest, SizesOf, SmallestOf, BelowMax, Smaller;
    while i < len
      invariant i <= len && SmallestOf(sizes, i, Scan(smallest, second, step), at)
      invariant ScanSmallest(sizes[..i], rest) == Scan(smallest, second, step)
    {
      ScanSmallestMore(sizes, rest, i);
      SmallestMore(sizes, i, Scan(smallest, second, step), at);
      assert buffer[..len][i] == buffer[i];
      ghost var before := smallest;
      smallest, second, step := LookSmaller(size[buffer[i]], smallest, second, step);
      at := if smallest == before then at else i;
      i := i + 1;
    }
    assert sizes[..len] == sizes;
    SmallestFound(sizes, Scan(smallest, second, step), at);
    assert buffer[..len][at] == buffer[at];
    forall k | 0 <= k < len ensures size[buffer[k]] > smallest - EPSILON { assert buffer[..len][k] == buffer[k]; }
  }

  /** Exactly the children of `done` have been through the pass. */
  ghost predicate PassedEnlarged(before: seq<real>, now: seq<real>, maxSize: seq<real>, done: set<nat>,
                                 smallest: real, step: real) {
    && |before| == |now| == |maxSize|
    && forall x: nat :: x < |now| ==>
      now[x] == if x in done then Enlarged(before[x], maxSize[x], smallest, step) else before[x]
  }

  lemma NothingEnlarged(size: seq<real>, maxSize: seq<real>, smallest: real, step: real)
    requires |size| == |maxSize|
    ensures forall b: set<nat> :: PassedEnlarged(size, size, maxSize, b - b, smallest, step)
  {
  }

  /** The next child through the pass, from those still to come. */
  lemma PassEnlarged(before: seq<real>, now: seq<real>, maxSize: seq<real>, all: set<nat>, ahead: seq<nat>,
                     smallest: real, step: real)
    requires Elements(ahead) <= all && PassedEnlarged(before, now, maxSize, all - Elements(ahead), smallest, step)
    requires ahead != [] && ahead[0] < |now|
    ensures var x := ahead[0];
            PassedEnlarged(before, now[x := Enlarged(now[x], maxSize[x], smallest, step)], maxSize,
                all - (Elements(ahead) - {x}), smallest, step)
  {
    var x := ahead[0];
    assert x in Elements(ahead) && x in all;
  }

  method ExpandChild(size: array<real>, maxSize: seq<real>, buffer: array<nat>, len0: nat, i0: nat, smallest: real,
      step: real,
                     rest0: real, ghost size0: seq<real>, ghost all: set<nat>, ghost t0: nat)
    returns (rest: real, len: nat, i: nat, ghost t: nat)
    requires i0 <= t0 < len0 && i0 < len0 <= buffer.Length
    requires Expanded(size0, size[..], maxSize, all, buffer[..len0]) && step > 0.0
    modifies size, buffer
    ensures len <= len0 && Expanded(size0, size[..], maxSize, all, buffer[..len])
    ensures Sum(size[..]) + rest == old(Sum(size[..])) + rest0
    ensures rest0 - step <= rest <= rest0
    ensures i + len0 - len == i0 + 1 && i <= len && (i == i0 || (i == i0 + 1 && len == len0))
    ensures FloatEqual(old(size[buffer[i0]]), smallest) ==> len < len0 || rest == rest0 - step
    ensures size[..] == old(size[..][buffer[i0] := Enlarged(size[buffer[i0]], maxSize[buffer[i0]], smallest, step)])
    ensures Elements(buffer[..len][i..]) == old(Elements(buffer[..len0][i0..]) - {buffer[i0]})
    ensures t0 > i0 ==> i <= t < len && buffer[t] == old(buffer[t0])
  {
    hide Sum;
    rest, len, i, t := rest0, len0, i0, t0;
    var x := buffer[i];
    ghost var sizes, b := size[..], buffer[..len];
    assert b[i] == x && x in Elements(b);
    var previous := size[x];
    if !FloatEqual(previous, smallest) {
      NextRest(b, size.Length, i);
      i := i + 1;
      return;
    }
    var clamped := previous + step >= maxSize[x];
    size[x] := if clamped then maxSize[x] else previous + step;
    assert size[..] == sizes[x := size[x]];
    SumUpdate(sizes, x, size[x]);
    ExpandOne(size0, sizes, maxSize, all, b, i, size[x]);
    rest := rest - (size[x] - previous);
    if clamped {
      var removed: nat;
      SwapbackRest(b, size.Length, i);
      len, removed := RemoveSwapback(buffer, len, i);
      t := if t0 == len then i else t0;
      assert t0 > i0 ==> buffer[..len][t] == b[t0];
    } else {
      NextRest(b, size.Length, i);
      i := i + 1;
    }
  }

  method ExpandPass(size: array<real>, maxSize: seq<real>, buffer: array<nat>, len0: nat, smallest: real, step: real,
      rest0: real,
                    ghost size0: seq<real>, ghost all: set<nat>, ghost at: nat)
    returns (rest: real, len: nat)
    requires 0 < len0 <= buffer.Length && Expanded(size0, size[..], maxSize, all, buffer[..len0])
    requires rest0 > 0.0 && step > 0.0 && Shares(len0, step) <= rest0
    requires at < len0 && FloatEqual(size[buffer[at]], smallest)
    modifies size, buffer
    ensures len <= len0 && Expanded(size0, size[..], maxSize, all, buffer[..len])
    ensures Sum(size[..]) + rest == old(Sum(size[..])) + rest0
    ensures 0.0 <= rest <= rest0
    ensures len < len0 || rest <= rest0 - step
    ensures PassedEnlarged(old(size[..]), size[..], maxSize, old(Elements(buffer[..len0])), smallest, step)
  {
    hide PassedEnlarged, Expanded, Sum, FloatEqual, Elements;
    ExpandedDistinct(size0, size[..], maxSize, all, buffer[..len0]);
    rest, len := rest0, len0;
    ghost var t := at;
    ghost var before, b0 := size[..], Elements(buffer[..len0]);
    assert buffer[..len][0..] == buffer[..len];
    NothingEnlarged(before, maxSize, smallest, step);
    var i := 0;
    while i < len
      invariant 0 <= i <= len <= len0 && Expanded(size0, size[..], maxSize, all, buffer[..len])
      invariant Distinct(buffer[..len], size.Length)
      invariant Sum(size[..]) + rest == old(Sum(size[..])) + rest0
      invariant rest0 - Shares(i + len0 - len, step) <= rest <= rest0
      invariant len < len0 || rest <= rest0 - step || (i <= t < len && FloatEqual(size[buffer[..len][t]], smallest))
      invariant Elements(buffer[..len][i..]) <= b0
      invariant PassedEnlarged(before, size[..], maxSize, b0 - Elements(buffer[..len][i..]), smallest, step)
      decreases len - i
    {
      ghost var t0 := if i <= t < len then t else i;
      assert t0 > i ==> buffer[..len][i] != buffer[..len][t0];
      PassEnlarged(before, size[..], maxSize, b0, buffer[..len][i..], smallest, step);
      rest, len, i, t := ExpandChild(size, maxSize, buffer, len, i, smallest, step, rest, size0, all, t0);
      ExpandedDistinct(size0, size[..], maxSize, all, buffer[..len]);
    }
    assert buffer[..len][i..] == [];
    NoElements();
    assert b0 - Elements(buffer[..len][i..]) == b0;
  }

  method ExpandRound(size: array<real>, maxSize: seq<real>, buffer: array<nat>, len0: nat, rest0: real,
                     ghost size0: seq<real>, ghost all: set<nat>)
    returns (rest: real, len: nat)
    requires 0 < len0 <= buffer.Length && Expanded(size0, size[..], maxSize, all, buffer[..len0]) && rest0 > EPSILON
    modifies size, buffer
    ensures len <= len0 && Expanded(size0, size[..], maxSize, all, buffer[..len])
    ensures Sum(size[..]) + rest == old(Sum(size[..])) + rest0
    ensures 0.0 <= rest <= rest0
    ensures len < len0 || Rounds(rest, len0) <= Rounds(rest0, len0) - 1.0
    ensures forall x: nat, k :: x < size.Length && size[x] != old(size[x]) && 0 <= k < len0 ==>
      old(size[buffer[k]]) > old(size[x]) - 2.0 * EPSILON
  {
    hide Sum;
    ExpandedBelowMax(size0, size[..], maxSize, all, buffer[..len0]);
    ghost var at: nat;
    var smallest, gap;
    smallest, gap, at := FindSmallest(size, maxSize, buffer, len0, rest0);
    var share := rest0 / (len0 as real);
    ShareOf(rest0, len0);
    var step := Min(gap, share);
    SharesFitUp(rest0, step, len0);
    rest, len := ExpandPass(size, maxSize, buffer, len0, smallest, step, rest0, size0, all, at);
    if len == len0 {
      RoundProgress(rest0, rest, step, len0);
    }
  }

  /**
   Expanding, as a whole: it ends; what the children gain is what the remainder loses; no child
   crosses its maximum and no other child moves; the remainder keeps its sign; and either it is
   within epsilon of nothing, or every resizable child is at its maximum.
   */
  method Expand(size: array<real>, maxSize: seq<real>, buffer: array<nat>, len0: nat, rest0: real)
    returns (rest: real, len: nat)
    requires size.Length == |maxSize| && len0 <= buffer.Length && Distinct(buffer[..len0], size.Length)
    requires BelowMax(size[..], maxSize, buffer[..len0]) && rest0 > 0.0
    modifies size, buffer
    ensures Sum(size[..]) + rest == old(Sum(size[..])) + rest0
    ensures 0.0 <= rest <= rest0
    ensures len <= len0 && Expanded(old(size[..]), size[..], maxSize, old(Elements(buffer[..len0])), buffer[..len])
    ensures rest <= EPSILON || forall k :: 0 <= k < len0 ==> size[old(buffer[k])] == maxSize[old(buffer[k])]
  {
    hide Rounds, Sum, FloatEqual;
    rest, len := rest0, len0;
    ghost var all := Elements(buffer[..len0]);
    ghost var size0 := size[..];
    ExpandedAtStart(size0, maxSize, buffer[..len0]);
    while rest > EPSILON && len > 0
      invariant len <= len0 && Expanded(size0, size[..], maxSize, all, buffer[..len])
      invariant Sum(size[..]) + rest == Sum(size0) + rest0
      invariant 0.0 <= rest <= rest0
      decreases len, Rounds(rest, len)
    {
      RoundsLeft(rest, len);
      rest, len := ExpandRound(size, maxSize, buffer, len, rest, size0, all);
    }
    forall k | 0 <= k < len0 && len == 0 ensures size[old(buffer[k])] == maxSize[old(buffer[k])] {
      assert old(buffer[..len0])[k] in all;
    }
  }

  /** Before expanding, every child that does not grow is taken out of the buffer. */
  method KeepGrow(isGrow: seq<bool>, buffer: array<nat>, len0: nat) returns (len: nat)
    requires len0 <= buffer.Length && Distinct(buffer[..len0], |isGrow|)
    modifies buffer
    ensures len <= len0 && Distinct(buffer[..len], |isGrow|)
    ensures Elements(buffer[..len]) == set x | x in old(buffer[..len0]) && isGrow[x]
  {
    len := len0;
    ghost var b0 := buffer[..len0];
    var i := 0;
    while i < len
      invariant 0 <= i <= len <= len0 && Distinct(buffer[..len], |isGrow|)
      invariant Elements(buffer[..len]) <= Elements(b0)
      invariant forall k :: 0 <= k < i ==> isGrow[buffer[k]]
      invariant forall x :: x in b0 && isGrow[x] ==> x in buffer[..len]
      decreases len - i
    {
      ghost var b := buffer[..len];
      assert b[i] == buffer[i];
      if !isGrow[buffer[i]] {
        SwapbackKeeps(b, |isGrow|, i);
        var removed: nat;
        len, removed := RemoveSwapback(buffer, len, i);
        forall x | x in b0 && isGrow[x] ensures x in buffer[..len] {
          assert x in Elements(b) - {b[i]};
        }
        assert forall k :: 0 <= k < i ==> buffer[..len][k] == b[k];
      } else {
        i := i + 1;
      }
    }
    forall x | x in buffer[..len] ensures x in b0 && isGrow[x] {
      assert x in Elements(buffer[..len]);
    }
  }
}
