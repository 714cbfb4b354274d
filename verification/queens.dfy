/**
 Counting placements of n queens by exhaustive search (bench/langs/queens.py): one queen a row, the
 columns still unused tried in turn, each checked only against the diagonals of those placed.
 */
module Queens {
  import opened Collections

  // ---- what is counted ----------------------------------------------------------------------------

  /** Queens `d` rows apart share a diagonal. */
  predicate Attacks(p: int, q: int, d: int) {
    q == p + d || q == p - d
  }

  /** No two queens of a board share a diagonal. */
  ghost predicate NoAttack(r: seq<int>) {
    forall i, j :: 0 <= i < j < |r| ==> !Attacks(r[i], r[j], j - i)
  }

  /** A queen about to be placed, the most recent of `placed` first, is on no diagonal of theirs. */
  ghost predicate Clear(q: int, d: int, placed: seq<int>) {
    forall k :: 0 <= k < |placed| ==> !Attacks(placed[k], q, d + k)
  }

  /** Queens `r`, placed in order after `placed`, attack neither each other nor any placed before. */
  ghost predicate Peaceful(r: seq<int>, placed: seq<int>) {
    NoAttack(r) && forall i :: 0 <= i < |r| ==> Clear(r[i], i + 1, placed)
  }

  function Without(s: seq<int>, i: nat): (r: seq<int>)
    requires i < |s|
    ensures |r| == |s| - 1
  {
    s[..i] + s[i + 1..]
  }

  function Prefixed(q: int, rs: seq<seq<int>>): (r: seq<seq<int>>)
    ensures |r| == |rs| && forall k :: 0 <= k < |rs| ==> r[k] == [q] + rs[k]
  {
    seq(|rs|, k requires 0 <= k < |rs| => [q] + rs[k])
  }

  /** Every ordering of `un`, by which of it comes first. */
  function Orderings(un: seq<int>): seq<seq<int>>
    decreases |un|, |un| + 1
  {
    if un == [] then [[]] else OrderingsFrom(un, 0)
  }

  function OrderingsFrom(un: seq<int>, i: nat): seq<seq<int>>
    requires i <= |un|
    decreases |un|, |un| - i
  {
    if i == |un| then [] else Prefixed(un[i], Orderings(Without(un, i))) + OrderingsFrom(un, i + 1)
  }

  ghost function Count(rs: seq<seq<int>>, placed: seq<int>): nat {
    if rs == [] then 0 else Count(rs[1..], placed) + if Peaceful(rs[0], placed) then 1 else 0
  }

  lemma {:induction false} CountAppend(a: seq<seq<int>>, b: seq<seq<int>>, placed: seq<int>)
    ensures Count(a + b, placed) == Count(a, placed) + Count(b, placed)
  {
    if a == [] {
      assert a + b == b;
    } else {
      assert (a + b)[1..] == a[1..] + b;
      CountAppend(a[1..], b, placed);
    }
  }

  /** The first queen of an ordering answers for itself, the rest with it placed. */
  lemma PeacefulFirst(q: int, r: seq<int>, placed: seq<int>)
    ensures Peaceful([q] + r, placed) <==> Clear(q, 1, placed) && Peaceful(r, [q] + placed)
  {
    var s, pl := [q] + r, [q] + placed;
    if Peaceful(s, placed) {
      assert s[0] == q;
      forall i, j | 0 <= i < j < |r| ensures !Attacks(r[i], r[j], j - i) {
        assert s[i + 1] == r[i] && s[j + 1] == r[j];
      }
      forall i, k | 0 <= i < |r| && 0 <= k < |pl| ensures !Attacks(pl[k], r[i], i + 1 + k) {
        assert s[i + 1] == r[i];
        if k == 0 { assert !Attacks(s[0], s[i + 1], i + 1); } else { assert Clear(s[i + 1], i + 2, placed); }
      }
    }
    if Clear(q, 1, placed) && Peaceful(r, pl) {
      forall i, j | 0 <= i < j < |s| ensures !Attacks(s[i], s[j], j - i) {
        if i == 0 { assert Clear(r[j - 1], j, pl) && pl[0] == q; } else { assert s[i] == r[i - 1] && s[j] == r[j - 1]; }
      }
      forall i, k | 0 <= i < |s| && 0 <= k < |placed| ensures !Attacks(placed[k], s[i], i + 1 + k) {
        if i > 0 { assert Clear(r[i - 1], i, pl) && pl[k + 1] == placed[k]; }
      }
    }
  }

  lemma {:induction false} CountPrefixed(q: int, rs: seq<seq<int>>, placed: seq<int>)
    ensures Count(Prefixed(q, rs), placed) == if Clear(q, 1, placed) then Count(rs, [q] + placed) else 0
  {
    hide Peaceful, Clear;
    if rs != [] {
      var ps := Prefixed(q, rs);
      assert ps[1..] == Prefixed(q, rs[1..]) && ps[0] == [q] + rs[0];
      PeacefulFirst(q, rs[0], placed);
      CountPrefixed(q, rs[1..], placed);
    }
  }

  // ---- the search --------------------------------------------------------------------------------------

  class Counter {
    var n: nat

    constructor ()
      ensures n == 0
    {
      n := 0;
    }
  }

  method Safe(q: int, d0: int, placed: seq<int>) returns (ok: bool)
    ensures ok <==> Clear(q, d0, placed)
  {
    var d := d0;
    for i := 0 to |placed|
      invariant d == d0 + i && forall k :: 0 <= k < i ==> !Attacks(placed[k], q, d0 + k)
    {
      if q == placed[i] + d || q == placed[i] - d {
        assert Attacks(placed[i], q, d0 + i);
        return false;
      }
      d := d + 1;
    }
    return true;
  }

  /** The counter rises by exactly the number of orderings of `un` that can follow `placed`. */
  method Place(un: seq<int>, placed: seq<int>, out: Counter)
    modifies out
    ensures out.n == old(out.n) + Count(Orderings(un), placed)
    decreases |un|
  {
    hide Peaceful, Clear, Count, Prefixed;
    if un == [] {
      NothingLeft(placed);
      out.n := out.n + 1;
      return;
    }
    var i := 0;
    while i < |un|
      invariant 0 <= i <= |un|
      invariant out.n + Count(OrderingsFrom(un, i), placed) == old(out.n) + Count(Orderings(un), placed)
    {
      var ok := Safe(un[i], 1, placed);
      CountAppend(Prefixed(un[i], Orderings(Without(un, i))), OrderingsFrom(un, i + 1), placed);
      CountPrefixed(un[i], Orderings(Without(un, i)), placed);
      if ok {
        Place(un[..i] + un[i + 1..], [un[i]] + placed, out);
      }
      i := i + 1;
    }
    CountNone(placed);
  }

  lemma CountNone(placed: seq<int>)
    ensures Count([], placed) == 0
  {
  }

  lemma NothingLeft(placed: seq<int>)
    ensures Count(Orderings([]), placed) == 1
  {
    var none: seq<seq<int>> := [[]];
    assert Orderings([]) == none && none[1..] == [] && Peaceful(none[0], placed);
  }

  function Columns(n: int): (r: seq<int>)
    ensures |r| == (if n < 0 then 0 else n) && forall i :: 0 <= i < |r| ==> r[i] == i + 1
  {
    if n <= 0 then [] else seq(n, i => i + 1)
  }

  // ---- each ordering once, and every one --------------------------------------------------------------------

  lemma WithoutContents(un: seq<int>, i: nat)
    requires i < |un|
    ensures multiset(un) == multiset{un[i]} + multiset(Without(un, i))
  {
    assert un == un[..i] + ([un[i]] + un[i + 1..]);
  }

  /** The orderings are exactly the sequences with the same members. */
  lemma {:induction false} OrderingsExact(un: seq<int>, r: seq<int>)
    ensures r in Orderings(un) <==> multiset(r) == multiset(un)
    decreases |un|, |un| + 1
  {
    assert |multiset(r)| == |r| && |multiset(un)| == |un|;
    if un == [] {
    } else if r == [] {
      NonEmpty(un, 0);
    } else {
      OrderingsFromExact(un, 0, r);
      forall k | 0 <= k < |un| && un[k] == r[0]
        ensures multiset(r) == multiset(un) <==> StartsAt(un, k, r)
      {
        SameRest(un, k, r);
      }
      if multiset(r) == multiset(un) { HasFirst(un, r); }
    }
  }

  lemma HasFirst(un: seq<int>, r: seq<int>)
    requires r != [] && multiset(r) == multiset(un)
    ensures exists k :: 0 <= k < |un| && un[k] == r[0]
  {
    assert r[0] in multiset(r) && r[0] in multiset(un);
  }

  lemma SameRest(un: seq<int>, i: nat, r: seq<int>)
    requires i < |un| && r != [] && r[0] == un[i]
    ensures multiset(r) == multiset(un) <==> multiset(r[1..]) == multiset(Without(un, i))
  {
    WithoutContents(un, i);
    assert r == [r[0]] + r[1..];
    assert multiset(r) == multiset{r[0]} + multiset(r[1..]);
    var a, b, one := multiset(r[1..]), multiset(Without(un, i)), multiset{un[i]};
    assert (one + a) - one == a && (one + b) - one == b;
  }

  lemma {:induction false} NonEmpty(un: seq<int>, i: nat)
    requires i <= |un|
    ensures [] !in OrderingsFrom(un, i)
    decreases |un| - i
  {
    if i < |un| { NonEmpty(un, i + 1); }
  }

  /** `r` begins with member `k` of `un` and goes on with the others. */
  ghost predicate StartsAt(un: seq<int>, k: nat, r: seq<int>)
    requires k < |un| && r != []
  {
    un[k] == r[0] && multiset(r[1..]) == multiset(Without(un, k))
  }

  lemma StartsAtIs(un: seq<int>, k: nat, r: seq<int>)
    requires k < |un| && r != []
    ensures StartsAt(un, k, r) <==> un[k] == r[0] && multiset(r[1..]) == multiset(Without(un, k))
  {
  }

  lemma {:induction false} OrderingsFromExact(un: seq<int>, i: nat, r: seq<int>)
    requires i <= |un| && r != []
    ensures r in OrderingsFrom(un, i) <==> exists k :: i <= k < |un| && StartsAt(un, k, r)
    decreases |un|, |un| - i
  {
    hide Orderings, Prefixed, StartsAt;
    if i < |un| {
      OrderingsFromExact(un, i + 1, r);
      StartsAtIs(un, i, r);
      OrderingsExact(Without(un, i), r[1..]);
      PrefixedHas(un[i], Orderings(Without(un, i)), r);
    }
  }

  lemma PrefixedHas(q: int, rs: seq<seq<int>>, r: seq<int>)
    requires r != []
    ensures r in Prefixed(q, rs) <==> r[0] == q && r[1..] in rs
  {
    var ps := Prefixed(q, rs);
    assert r == [r[0]] + r[1..];
    if r in ps {
      var k :| 0 <= k < |ps| && ps[k] == r;
      assert ps[k] == [q] + rs[k] && ps[k][1..] == rs[k];
    }
    if r[0] == q && r[1..] in rs {
      var k :| 0 <= k < |rs| && rs[k] == r[1..];
      assert ps[k] == r;
    }
  }

  /** No ordering of distinct columns is listed twice. */
  lemma {:induction false} OrderingsOnce(un: seq<int>)
    requires AllDistinct(un)
    ensures AllDistinct(Orderings(un))
    decreases |un|, |un| + 1
  {
    if un != [] { OrderingsFromOnce(un, 0); }
  }

  lemma {:induction false} OrderingsFromOnce(un: seq<int>, i: nat)
    requires AllDistinct(un) && i <= |un|
    ensures AllDistinct(OrderingsFrom(un, i))
    decreases |un|, |un| - i
  {
    if i < |un| {
      OrderingsFromOnce(un, i + 1);
      WithoutDistinct(un, i);
      OrderingsOnce(Without(un, i));
      var here, later := Prefixed(un[i], Orderings(Without(un, i))), OrderingsFrom(un, i + 1);
      forall j, k | 0 <= j < k < |here| ensures here[j] != here[k] {
        assert here[j][1..] == Orderings(Without(un, i))[j] && here[k][1..] == Orderings(Without(un, i))[k];
      }
      forall j, k | 0 <= j < |here| && 0 <= k < |later| ensures here[j] != later[k] {
        NonEmpty(un, i + 1);
        assert later[k] in later;
        OrderingsFromExact(un, i + 1, later[k]);
      }
      DistinctJoin(here, later);
    }
  }

  lemma WithoutDistinct(un: seq<int>, i: nat)
    requires AllDistinct(un) && i < |un|
    ensures AllDistinct(Without(un, i))
  {
  }

  lemma DistinctJoin(a: seq<seq<int>>, b: seq<seq<int>>)
    requires AllDistinct(a) && AllDistinct(b) && forall j, k :: 0 <= j < |a| && 0 <= k < |b| ==> a[j] != b[k]
    ensures AllDistinct(a + b)
  {
    var s := a + b;
    forall i, j | 0 <= i < j < |s| ensures s[i] != s[j] {
      if j < |a| {
        assert s[i] == a[i] && s[j] == a[j];
      } else if i >= |a| {
        assert s[i] == b[i - |a|] && s[j] == b[j - |a|];
      } else {
        assert s[i] == a[i] && s[j] == b[j - |a|];
      }
    }
  }

  /** The boards of `n` queens: a permutation of the columns, no two on a diagonal. */
  ghost function Boards(n: int): set<seq<int>> {
    set r | r in Orderings(Columns(n)) && NoAttack(r)
  }

  lemma BoardsAre(n: int, r: seq<int>)
    ensures r in Boards(n) <==> multiset(r) == multiset(Columns(n)) && NoAttack(r)
  {
    OrderingsExact(Columns(n), r);
  }

  lemma {:induction false} CountDistinct(rs: seq<seq<int>>)
    requires AllDistinct(rs)
    ensures Count(rs, []) == |set r | r in rs && NoAttack(r)|
  {
    if rs != [] {
      var rest := rs[1..];
      CountDistinct(rest);
      var all, few := set r | r in rs && NoAttack(r), set r | r in rest && NoAttack(r);
      assert rs[0] !in rest;
      assert forall r :: r in rs <==> r == rs[0] || r in rest;
      assert Peaceful(rs[0], []) <==> NoAttack(rs[0]);
      if NoAttack(rs[0]) {
        assert all == few + {rs[0]};
      } else {
        assert all == few;
      }
    }
  }

  /** main: after any repetition, the number of boards of `n` queens, each counted once. */
  method Solve(n: int, reps: int) returns (c: nat)
    ensures c == if reps <= 0 then 0 else |Boards(n)|
  {
    c := 0;
    var i := 0;
    OrderingsOnce(Columns(n));
    CountDistinct(Orderings(Columns(n)));
    while i < reps
      invariant c == if i == 0 then 0 else |Boards(n)|
      invariant 0 <= i && (i <= reps || i == 0)
    {
      var out := new Counter();
      Place(Columns(n), [], out);
      c := out.n;
      i := i + 1;
    }
  }
}
