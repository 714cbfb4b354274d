/**
 Clay's text-measurement cache (modules/clay/clay.h, Clay__MeasureTextCached and
 Clay__AddMeasuredWord): items in hash chains, evicted when not seen for a few frames, and each
 item's measured words in a list threaded through one shared array, with a free list of item
 slots and a free list of word slots.

 Text is free of newlines here. `measure` and `hash` are any functions.
 */
module TextCache {
  import opened Collections
  import opened Wrappers

  /** One measured word: where it starts, how long it is with its space, how wide. */
  datatype Span = Span(start: nat, length: nat, width: real)

  datatype Word = Word(span: Span, next: int)
  datatype Item = Item(id: nat, generation: nat, start: int, next: nat)

  const NO_ITEM := Item(0, 0, -1, 0)

  // ---- what measuring a text should give --------------------------------------------------

  function NextSpace(text: string, from: nat): (e: nat)
    requires from <= |text|
    ensures from <= e <= |text| && (e < |text| ==> text[e] == ' ')
    ensures forall i :: from <= i < e ==> text[i] != ' '
    decreases |text| - from
  {
    if from == |text| || text[from] == ' ' then from else NextSpace(text, from + 1)
  }

  /** The words of a text from `from` on, each with the space that ends it. */
  function WordsOf(measure: string -> real, text: string, from: nat): seq<Span>
    requires from <= |text|
    decreases |text| - from
  {
    if from == |text| then []
    else
      var e := NextSpace(text, from);
      if e == |text| then [Span(from, e - from, measure(text[from..e]))]
      else [Span(from, e - from + 1, measure(text[from..e]) + measure(" "))] + WordsOf(measure, text, e + 1)
  }

  lemma FirstWord(measure: string -> real, text: string, start: nat, end: nat)
    requires start <= end <= |text| && (end == |text| ==> start < end)
    requires (forall i :: start <= i < end ==> text[i] != ' ') && (end < |text| ==> text[end] == ' ')
    ensures var next := if end < |text| then end + 1 else end;
            var width := measure(text[start..end]) + (if end < |text| then measure(" ") else 0.0);
            WordsOf(measure, text, start) == [Span(start, next - start, width)] + WordsOf(measure, text, next)
  {
    SpaceAt(text, start, end);
  }

  lemma Regroup(done: seq<Span>, span: Span, rest: seq<Span>)
    ensures done + ([span] + rest) == (done + [span]) + rest
  {
  }

  /** The spans of `s` lie end to end from `from` to `to`, none empty. */
  predicate Tiles(s: seq<Span>, from: nat, to: nat) {
    if s == [] then from == to else s[0].start == from && s[0].length > 0 && Tiles(s[1..], from + s[0].length, to)
  }

  /** Measured words tile the text exactly. */
  lemma {:induction false} WordsTile(measure: string -> real, text: string, from: nat)
    requires from <= |text|
    ensures Tiles(WordsOf(measure, text, from), from, |text|)
    decreases |text| - from
  {
    if from < |text| {
      var e := NextSpace(text, from);
      if e < |text| {
        WordsTile(measure, text, e + 1);
        assert WordsOf(measure, text, from)[1..] == WordsOf(measure, text, e + 1);
      }
    }
  }

  // ---- chains and lists threaded through arrays ------------------------------------------------

  /** From `head` the links lead through exactly the items of `chain`, and end. */
  ghost predicate Path(items: seq<Item>, head: nat, chain: seq<nat>)
    decreases |chain|
  {
    if chain == [] then head == 0
    else head == chain[0] && 0 < head < |items| && Path(items, items[head].next, chain[1..])
  }

  ghost predicate WordPath(words: seq<Word>, head: int, list: seq<nat>)
    decreases |list|
  {
    if list == [] then head == -1
    else head == list[0] && list[0] < |words| && WordPath(words, words[list[0]].next, list[1..])
  }

  /** The words a list spells. */
  ghost function Spelled(words: seq<Word>, list: seq<nat>): seq<Span>
    requires forall k :: 0 <= k < |list| ==> list[k] < |words|
  {
    seq(|list|, k requires 0 <= k < |list| => words[list[k]].span)
  }

  lemma {:induction false} PathFrame(a: seq<Item>, b: seq<Item>, head: nat, chain: seq<nat>)
    requires Path(a, head, chain) && |a| <= |b|
    requires forall k :: 0 <= k < |chain| && chain[k] < |a| ==> b[chain[k]].next == a[chain[k]].next
    ensures Path(b, head, chain)
    decreases |chain|
  {
    if chain != [] {
      assert chain[0] < |a|;
      forall k | 0 <= k < |chain[1..]| && chain[1..][k] < |a| ensures b[chain[1..][k]].next == a[chain[1..][k]].next {
        assert chain[1..][k] == chain[k + 1];
      }
      PathFrame(a, b, a[head].next, chain[1..]);
    }
  }

  lemma {:induction false} WordPathFrame(a: seq<Word>, b: seq<Word>, head: int, list: seq<nat>)
    requires WordPath(a, head, list) && |a| <= |b|
    requires forall k :: 0 <= k < |list| && list[k] < |a| ==> b[list[k]] == a[list[k]]
    ensures WordPath(b, head, list) && WordsIn(a, list) && WordsIn(b, list) && Spelled(b, list) == Spelled(a, list)
    decreases |list|
  {
    WordPathIn(a, head, list);
    if list != [] {
      forall k | 0 <= k < |list[1..]| && list[1..][k] < |a| ensures b[list[1..][k]] == a[list[1..][k]] {
        assert list[1..][k] == list[k + 1];
      }
      WordPathFrame(a, b, a[list[0]].next, list[1..]);
    }
  }

  ghost predicate WordsIn(words: seq<Word>, list: seq<nat>) {
    forall k :: 0 <= k < |list| ==> list[k] < |words|
  }

  lemma {:induction false} WordPathIn(words: seq<Word>, head: int, list: seq<nat>)
    requires WordPath(words, head, list)
    ensures WordsIn(words, list)
    decreases |list|
  {
    if list != [] {
      WordPathIn(words, words[list[0]].next, list[1..]);
      forall k | 0 <= k < |list| ensures list[k] < |words| {
        if k > 0 { assert list[k] == list[1..][k - 1]; }
      }
    }
  }

  /** Where the walk stands, between the items kept and those to come. */
  lemma {:induction false} PathAt(items: seq<Item>, head: nat, kept: seq<nat>, rest: seq<nat>)
    requires Path(items, head, kept + rest)
    ensures kept == [] ==> Path(items, head, rest)
    ensures kept != [] ==> var last := kept[|kept| - 1]; 0 < last < |items| && Path(items, items[last].next, rest)
    decreases |kept|
  {
    if kept == [] {
      assert kept + rest == rest;
    } else {
      assert (kept + rest)[0] == kept[0] && (kept + rest)[1..] == kept[1..] + rest;
      PathAt(items, items[head].next, kept[1..], rest);
    }
  }

  /** The chain relinked past everything between `kept` and `rest`. */
  lemma {:induction false} PathJoin(items: seq<Item>, head: nat, kept: seq<nat>, mid: seq<nat>, rest: seq<nat>,
                                    items': seq<Item>, head': nat, next: nat)
    requires Path(items, head, kept + mid) && Path(items', next, rest) && |items'| >= |items|
    requires kept == [] ==> head' == next
    requires kept != [] ==> head' == head && kept[|kept| - 1] < |items'| && items'[kept[|kept| - 1]].next == next
    requires forall k :: 0 <= k < |kept| - 1 && kept[k] < |items| ==> items'[kept[k]].next == items[kept[k]].next
    ensures Path(items', head', kept + rest)
    decreases |kept|
  {
    if kept == [] {
      assert kept + rest == rest;
    } else {
      assert (kept + mid)[0] == kept[0] && (kept + mid)[1..] == kept[1..] + mid;
      assert (kept + rest)[0] == kept[0] && (kept + rest)[1..] == kept[1..] + rest;
      if |kept| > 1 {
        forall k | 0 <= k < |kept[1..]| - 1 && kept[1..][k] < |items|
          ensures items'[kept[1..][k]].next == items[kept[1..][k]].next
        {
          assert kept[1..][k] == kept[k + 1];
        }
        PathJoin(items, items[head].next, kept[1..], mid, rest, items', items[head].next, next);
      } else {
        assert kept[1..] + rest == rest;
      }
    }
  }

  // ---- who owns which slot -------------------------------------------------------------------------

  /** All the members of some sequences, with multiplicity. */
  ghost function Flat(ss: seq<seq<nat>>): multiset<nat> {
    if ss == [] then multiset{} else Flat(ss[..|ss| - 1]) + multiset(ss[|ss| - 1])
  }

  lemma {:induction false} FlatUpdate(ss: seq<seq<nat>>, i: nat, s: seq<nat>)
    requires i < |ss|
    ensures Flat(ss[i := s]) + multiset(ss[i]) == Flat(ss) + multiset(s)
  {
    var n := |ss| - 1;
    if i == n {
      assert ss[i := s][..n] == ss[..n];
    } else {
      assert ss[i := s][..n] == ss[..n][i := s];
      FlatUpdate(ss[..n], i, s);
      var e0, e1, last := Flat(ss[..n]), Flat(ss[..n][i := s]), multiset(ss[n]);
      assert ss[..n][i] == ss[i];
      assert (e1 + last) + multiset(ss[i]) == (e1 + multiset(ss[i])) + last;
      assert (e0 + last) + multiset(s) == (e0 + multiset(s)) + last;
    }
  }

  lemma FlatAppend(ss: seq<seq<nat>>, s: seq<nat>)
    ensures Flat(ss + [s]) == Flat(ss) + multiset(s)
  {
    assert (ss + [s])[..|ss|] == ss;
  }

  lemma {:induction false} FlatHas(ss: seq<seq<nat>>, i: nat)
    requires i < |ss|
    ensures multiset(ss[i]) <= Flat(ss)
  {
    if i < |ss| - 1 {
      FlatHas(ss[..|ss| - 1], i);
    }
  }

  lemma {:induction false} FlatFinds(ss: seq<seq<nat>>, x: nat) returns (i: nat)
    requires x in Flat(ss)
    ensures i < |ss| && x in ss[i]
  {
    if x in multiset(ss[|ss| - 1]) {
      i := |ss| - 1;
    } else {
      i := FlatFinds(ss[..|ss| - 1], x);
    }
  }

  lemma {:induction false} FlatTwo(ss: seq<seq<nat>>, i: nat, j: nat, x: nat)
    requires i < j < |ss| && x in ss[i] && x in ss[j]
    ensures Flat(ss)[x] >= 2
  {
    var n := |ss| - 1;
    if j == n {
      FlatHas(ss[..n], i);
      assert multiset(ss[i])[x] > 0 && multiset(ss[j])[x] > 0;
    } else {
      FlatTwo(ss[..n], i, j, x);
    }
  }

  /** Every slot has at most one owner, and is one of the first `n`. */
  ghost predicate Single(owners: multiset<nat>, n: nat) {
    forall x :: owners[x] <= 1 && (x in owners ==> x < n)
  }

  lemma {:induction false} Twice(s: seq<nat>, i: nat, j: nat)
    requires i < j < |s| && s[i] == s[j]
    ensures multiset(s)[s[i]] >= 2
  {
    assert s == s[..j] + s[j..];
    assert s[..j][i] == s[i] && s[j..][0] == s[j];
    assert multiset(s) == multiset(s[..j]) + multiset(s[j..]);
    assert multiset(s[..j])[s[i]] > 0 && multiset(s[j..])[s[i]] > 0;
  }

  // ---- the cache as one value, with what is being made counted apart ----------------------------------

  /** `chains`, `lists` and `texts` are not stored: they say what the links should spell. */
  datatype Snap = Snap(buckets: seq<nat>, items: seq<Item>, itemsFree: seq<nat>, words: seq<Word>, wordsFree: seq<nat>,
                       chains: seq<seq<nat>>, lists: seq<seq<nat>>, texts: seq<string>)

  ghost function ItemOwners(s: Snap, item: multiset<nat>): multiset<nat> {
    Flat(s.chains) + multiset(s.itemsFree) + item
  }

  ghost function WordOwners(s: Snap, made: multiset<nat>): multiset<nat> {
    Flat(s.lists) + multiset(s.wordsFree) + made
  }

  /** Bucket `b` leads through its chain, and every item there hashes to it. */
  ghost predicate BucketRight(s: Snap, b: nat)
    requires b < |s.buckets| == |s.chains|
  {
    && Path(s.items, s.buckets[b], s.chains[b])
    && forall k :: 0 <= k < |s.chains[b]| && s.chains[b][k] < |s.items| ==>
      s.items[s.chains[b][k]].id % |s.buckets| == b
  }

  /** No item slot is chained twice, or chained and free, or free twice. */
  ghost predicate ItemsRight(s: Snap, item: multiset<nat>) {
    && 0 < |s.buckets| == |s.chains| && |s.items| > 0
    && Single(ItemOwners(s, item), |s.items|) && 0 !in ItemOwners(s, item)
    && forall b :: 0 <= b < |s.buckets| ==> BucketRight(s, b)
  }

  /** Item `x`'s list spells the words of its text. */
  ghost predicate ItemSpells(measure: string -> real, hash: string -> nat, s: Snap, x: nat)
    requires x < |s.items| == |s.lists| == |s.texts|
  {
    && WordPath(s.words, s.items[x].start, s.lists[x]) && WordsIn(s.words, s.lists[x])
    && Spelled(s.words, s.lists[x]) == WordsOf(measure, s.texts[x], 0)
    && s.items[x].id == hash(s.texts[x])
  }

  /** The word lists share no slot with each other, with the free list, or with one being made. */
  ghost predicate WordsRight(measure: string -> real, hash: string -> nat, s: Snap, made: multiset<nat>) {
    && |s.items| == |s.lists| == |s.texts|
    && Single(WordOwners(s, made), |s.words|)
    && (forall x: nat :: x in Flat(s.chains) && x < |s.items| ==> ItemSpells(measure, hash, s, x))
    && (forall x: nat :: x !in Flat(s.chains) && x < |s.items| ==> s.lists[x] == [])
  }

  ghost predicate Right(measure: string -> real, hash: string -> nat, s: Snap, item: multiset<nat>,
                        made: multiset<nat>) {
    ItemsRight(s, item) && WordsRight(measure, hash, s, made)
  }

  /** No slot is lost. */
  ghost predicate Tight(s: Snap, item: multiset<nat>, made: multiset<nat>) {
    && (forall x: nat :: 0 < x < |s.items| ==> x in ItemOwners(s, item))
    && (forall x: nat :: x < |s.words| ==> x in WordOwners(s, made))
  }

  const NONE: multiset<nat> := multiset{}

  /** No two chained items have one id. */
  ghost predicate Unique(s: Snap) {
    forall x: nat, y: nat ::
      (x in Flat(s.chains) && y in Flat(s.chains) && x < |s.items| && y < |s.items| && s.items[x].id == s.items[y].id)
      ==> x == y
  }

  /** Every item chained in `t` is chained in `s`, with the same id and of the same frame. */
  ghost predicate Fewer(s: Snap, t: Snap) {
    |t.items| == |s.items| && forall x: nat :: x in Flat(t.chains) && x < |t.items| ==>
      x in Flat(s.chains) && t.items[x].id == s.items[x].id && t.items[x].generation == s.items[x].generation
  }

  lemma FewerUnique(s: Snap, t: Snap)
    requires Unique(s) && Fewer(s, t)
    ensures Unique(t)
  {
  }

  lemma ChainsApart(s: Snap, item: multiset<nat>, b: nat, c: nat, x: nat)
    requires 0 < |s.buckets| == |s.chains| && Single(ItemOwners(s, item), |s.items|)
    requires b < |s.chains| && c < |s.chains| && x in s.chains[b] && x in s.chains[c]
    ensures b == c
  {
    assert ItemOwners(s, item)[x] <= 1;
    if b < c { FlatTwo(s.chains, b, c, x); }
    if c < b { FlatTwo(s.chains, c, b, x); }
  }

  lemma ChainDistinct(s: Snap, item: multiset<nat>, b: nat, i: nat, j: nat)
    requires b < |s.chains| && Single(ItemOwners(s, item), |s.items|) && i < j < |s.chains[b]|
    ensures s.chains[b][i] != s.chains[b][j]
  {
    FlatHas(s.chains, b);
    assert ItemOwners(s, item)[s.chains[b][i]] <= 1;
    if s.chains[b][i] == s.chains[b][j] {
      Twice(s.chains[b], i, j);
    }
  }

  // ---- eviction ---------------------------------------------------------------------------------------

  /** The item slot cleared and the link to it moved past it; its words and its slot go to the free lists. */
  function Relinked(items: seq<Item>, kept: seq<nat>, x: nat): seq<Item>
    requires x < |items|
  {
    var cleared := items[x := NO_ITEM];
    if kept == [] || kept[|kept| - 1] >= |items| then cleared
    else cleared[kept[|kept| - 1] := cleared[kept[|kept| - 1]].(next := items[x].next)]
  }

  ghost function Evicted(s: Snap, b: nat, kept: seq<nat>, x: nat, rest: seq<nat>): Snap
    requires x < |s.items| == |s.lists| && b < |s.buckets| == |s.chains|
  {
    Snap(if kept == [] then s.buckets[b := s.items[x].next] else s.buckets,
         Relinked(s.items, kept, x), s.itemsFree + [x], s.words, s.wordsFree + s.lists[x],
         s.chains[b := kept + rest], s.lists[x := []], s.texts)
  }

  lemma EvictedOwners(s: Snap, b: nat, kept: seq<nat>, x: nat, rest: seq<nat>, item: multiset<nat>, made: multiset<nat>)
    requires x < |s.items| == |s.lists| && b < |s.buckets| == |s.chains| && s.chains[b] == kept + ([x] + rest)
    ensures ItemOwners(Evicted(s, b, kept, x, rest), item) == ItemOwners(s, item)
    ensures WordOwners(Evicted(s, b, kept, x, rest), made) == WordOwners(s, made)
    ensures Flat(s.chains) == Flat(Evicted(s, b, kept, x, rest).chains) + multiset{x}
  {
    EvictedChains(s.chains, b, kept, x, rest);
    assert multiset(s.itemsFree + [x]) == multiset(s.itemsFree) + multiset{x};
    FlatUpdate(s.lists, x, []);
    assert Flat(s.lists[x := []]) + multiset(s.lists[x]) == Flat(s.lists);
    assert multiset(s.wordsFree + s.lists[x]) == multiset(s.wordsFree) + multiset(s.lists[x]);
  }

  lemma EvictedChains(chains: seq<seq<nat>>, b: nat, kept: seq<nat>, x: nat, rest: seq<nat>)
    requires b < |chains| && chains[b] == kept + ([x] + rest)
    ensures Flat(chains) == Flat(chains[b := kept + rest]) + multiset{x}
  {
    FlatUpdate(chains, b, kept + rest);
    var c0, c1, k := Flat(chains), Flat(chains[b := kept + rest]), multiset(kept + rest);
    assert multiset(chains[b]) == k + multiset{x};
    assert c1 + (k + multiset{x}) == c0 + k;
    assert c1 + multiset{x} == (c1 + (k + multiset{x})) - k;
    assert c0 == (c0 + k) - k;
  }

  /** Taking one item out of a distinct chain, on the links alone. */
  lemma RelinkedPath(items: seq<Item>, head: nat, kept: seq<nat>, x: nat, rest: seq<nat>)
    requires Path(items, head, kept + ([x] + rest)) && AllDistinct(kept + ([x] + rest)) && x < |items|
    ensures Path(Relinked(items, kept, x), if kept == [] then items[x].next else head, kept + rest)
  {
    var chain, n := kept + ([x] + rest), |kept|;
    var items' := Relinked(items, kept, x);
    PathAt(items, head, kept, [x] + rest);
    assert ([x] + rest)[1..] == rest && chain[n] == x;
    forall k | 0 <= k < |rest| && rest[k] < |items| ensures items'[rest[k]].next == items[rest[k]].next {
      assert rest[k] == chain[n + 1 + k] && (n > 0 ==> kept[n - 1] == chain[n - 1]);
    }
    PathFrame(items, items', items[x].next, rest);
    forall k | 0 <= k < n - 1 && kept[k] < |items| ensures items'[kept[k]].next == items[kept[k]].next {
      assert kept[k] == chain[k] && kept[n - 1] == chain[n - 1];
    }
    assert n > 0 ==> kept[n - 1] == chain[n - 1];
    PathJoin(items, head, kept, [x] + rest, rest, items', if kept == [] then items[x].next else head, items[x].next);
  }

  lemma EvictedBucket(s: Snap, b: nat, kept: seq<nat>, x: nat, rest: seq<nat>, item: multiset<nat>)
    requires ItemsRight(s, item) && b < |s.buckets| && s.chains[b] == kept + ([x] + rest)
    requires x < |s.items| == |s.lists|
    ensures BucketRight(Evicted(s, b, kept, x, rest), b)
  {
    var chain, n := s.chains[b], |kept|;
    assert BucketRight(s, b);
    forall i, j | 0 <= i < j < |chain| ensures chain[i] != chain[j] {
      ChainDistinct(s, item, b, i, j);
    }
    RelinkedPath(s.items, s.buckets[b], kept, x, rest);
    var items' := Relinked(s.items, kept, x);
    forall k | 0 <= k < |kept + rest| && (kept + rest)[k] < |items'|
      ensures items'[(kept + rest)[k]].id % |s.buckets| == b
    {
      var m := if k < n then k else k + 1;
      assert (kept + rest)[k] == chain[m] && chain[n] == x;
    }
  }

  lemma EvictedOther(s: Snap, b: nat, kept: seq<nat>, x: nat, rest: seq<nat>, item: multiset<nat>, c: nat)
    requires ItemsRight(s, item) && b < |s.buckets| && s.chains[b] == kept + ([x] + rest) && c < |s.buckets| && c != b
    requires x < |s.items| == |s.lists|
    ensures BucketRight(Evicted(s, b, kept, x, rest), c)
  {
    var s' := Evicted(s, b, kept, x, rest);
    assert BucketRight(s, c);
    assert s.chains[b][|kept|] == x;
    assert kept != [] ==> s.chains[b][|kept| - 1] == kept[|kept| - 1];
    forall k | 0 <= k < |s.chains[c]| && s.chains[c][k] < |s.items|
      ensures s'.items[s.chains[c][k]] == s.items[s.chains[c][k]]
    {
      if s.chains[c][k] in s.chains[b] { ChainsApart(s, item, b, c, s.chains[c][k]); }
    }
    PathFrame(s.items, s'.items, s.buckets[c], s.chains[c]);
  }

  /** Evicting an item keeps every chain, every other item's words, and loses no slot. */
  lemma EvictedRight(measure: string -> real, hash: string -> nat, s: Snap, b: nat, kept: seq<nat>, x: nat,
                     rest: seq<nat>)
    requires Right(measure, hash, s, NONE, NONE) && b < |s.buckets| && s.chains[b] == kept + ([x] + rest)
    ensures x < |s.items|
    ensures Right(measure, hash, Evicted(s, b, kept, x, rest), NONE, NONE)
    ensures Tight(s, NONE, NONE) ==> Tight(Evicted(s, b, kept, x, rest), NONE, NONE)
  {
    assert BucketRight(s, b);
    PathAt(s.items, s.buckets[b], kept, [x] + rest);
    var s' := Evicted(s, b, kept, x, rest);
    EvictedOwners(s, b, kept, x, rest, NONE, NONE);
    EvictedBucket(s, b, kept, x, rest, NONE);
    forall c | 0 <= c < |s.buckets| ensures BucketRight(s', c) {
      if c != b { EvictedOther(s, b, kept, x, rest, NONE, c); }
    }
    EvictedWords(measure, hash, s, b, kept, x, rest);
  }

  lemma EvictedWords(measure: string -> real, hash: string -> nat, s: Snap, b: nat, kept: seq<nat>, x: nat,
                     rest: seq<nat>)
    requires Right(measure, hash, s, NONE, NONE) && b < |s.buckets| && s.chains[b] == kept + ([x] + rest)
    requires x < |s.items|
    ensures WordsRight(measure, hash, Evicted(s, b, kept, x, rest), NONE)
  {
    hide Flat, Path, BucketRight, WordPath, WordsOf;
    var s' := Evicted(s, b, kept, x, rest);
    EvictedOwners(s, b, kept, x, rest, NONE, NONE);
    assert ItemOwners(s, NONE)[x] <= 1;
    assert x !in Flat(s'.chains);
    forall y: nat | y in Flat(s'.chains) && y < |s'.items| ensures ItemSpells(measure, hash, s', y) {
      assert y != x && y in Flat(s.chains);
      assert ItemSpells(measure, hash, s, y);
    }
  }

  /** Evicting an item leaves the others chained as they were. */
  lemma EvictedFewer(s: Snap, b: nat, kept: seq<nat>, x: nat, rest: seq<nat>)
    requires ItemsRight(s, NONE) && b < |s.buckets| && s.chains[b] == kept + ([x] + rest) && x < |s.items| == |s.lists|
    ensures var t := Evicted(s, b, kept, x, rest);
            Fewer(s, t) && forall y: nat :: y in Flat(s.chains) && y != x ==> y in Flat(t.chains)
  {
    hide Flat, BucketRight;
    EvictedOwners(s, b, kept, x, rest, NONE, NONE);
    assert ItemOwners(s, NONE)[x] <= 1;
  }

  /** An id whose bucket does not have it is nowhere. */
  lemma IdNowhere(measure: string -> real, hash: string -> nat, s: Snap, b: nat, id: nat, x: nat)
    requires Right(measure, hash, s, NONE, NONE) && b < |s.buckets| && id % |s.buckets| == b && x in Flat(s.chains)
    requires x < |s.items|
    requires forall k :: 0 <= k < |s.chains[b]| && s.chains[b][k] < |s.items| ==> s.items[s.chains[b][k]].id != id
    ensures s.items[x].id != id
  {
    var c := FlatFinds(s.chains, x);
    assert BucketRight(s, c);
    var k :| 0 <= k < |s.chains[c]| && s.chains[c][k] == x;
    assert s.items[x].id % |s.buckets| == c;
  }

  // ---- a slot for a new item ------------------------------------------------------------------------------

  function FreshItem(s: Snap): nat {
    if s.itemsFree != [] then s.itemsFree[|s.itemsFree| - 1] else |s.items|
  }

  ghost function Allocated(s: Snap, item: Item): Snap {
    if s.itemsFree != [] && FreshItem(s) < |s.items| then
      s.(itemsFree := s.itemsFree[..|s.itemsFree| - 1], items := s.items[FreshItem(s) := item])
    else
      s.(items := s.items + [item], lists := s.lists + [[]], texts := s.texts + [""])
  }

  lemma AllocatedOwners(s: Snap, item: Item)
    requires ItemsRight(s, NONE)
    ensures var x := FreshItem(s); var s' := Allocated(s, item);
            && ItemOwners(s', multiset{x}) ==
                 (if s.itemsFree != [] then ItemOwners(s, NONE) else ItemOwners(s, NONE) + multiset{x})
            && x !in Flat(s.chains) && 0 < x < |s'.items| && (s.itemsFree != [] ==> x < |s.items|)
  {
    hide Flat, BucketRight;
    var x := FreshItem(s);
    assert ItemOwners(s, NONE)[x] <= 1;
    if s.itemsFree != [] {
      var n := |s.itemsFree| - 1;
      assert s.itemsFree == s.itemsFree[..n] + [x];
      assert multiset(s.itemsFree) == multiset(s.itemsFree[..n]) + multiset{x};
      assert x in ItemOwners(s, NONE);
    }
  }

  /** An item whose own slots did not change still spells its text. */
  lemma ItemSpellsStill(measure: string -> real, hash: string -> nat, s: Snap, s': Snap, x: nat)
    requires x < |s.items| == |s.lists| == |s.texts| && x < |s'.items| == |s'.lists| == |s'.texts|
    requires ItemSpells(measure, hash, s, x) && |s.words| <= |s'.words|
    requires s'.items[x].start == s.items[x].start && s'.items[x].id == s.items[x].id
    requires s'.lists[x] == s.lists[x] && s'.texts[x] == s.texts[x]
    requires forall k :: 0 <= k < |s.lists[x]| && s.lists[x][k] < |s.words| ==>
      s'.words[s.lists[x][k]] == s.words[s.lists[x][k]]
    ensures ItemSpells(measure, hash, s', x)
  {
    WordPathFrame(s.words, s'.words, s.items[x].start, s.lists[x]);
  }

  lemma AllocatedItems(s: Snap, item: Item)
    requires ItemsRight(s, NONE)
    ensures ItemsRight(Allocated(s, item), multiset{FreshItem(s)})
  {
    var s' := Allocated(s, item);
    AllocatedOwners(s, item);
    assert ItemOwners(s, NONE)[FreshItem(s)] <= 1;
    forall b | 0 <= b < |s.buckets| ensures BucketRight(s', b) {
      AllocatedBucket(s, item, b);
    }
  }

  lemma AllocatedBucket(s: Snap, item: Item, b: nat)
    requires ItemsRight(s, NONE) && b < |s.buckets|
    ensures BucketRight(Allocated(s, item), b)
  {
    hide Flat, Path;
    var s', x := Allocated(s, item), FreshItem(s);
    AllocatedOwners(s, item);
    assert BucketRight(s, b);
    FlatHas(s.chains, b);
    forall k | 0 <= k < |s.chains[b]| ensures s.chains[b][k] != x && s.chains[b][k] < |s.items| {
      assert s.chains[b][k] in multiset(s.chains[b]);
      assert ItemOwners(s, NONE)[s.chains[b][k]] <= 1;
    }
    PathFrame(s.items, s'.items, s.buckets[b], s.chains[b]);
  }

  /** An item chained is not the slot taken, and spells its text still. */
  lemma AllocatedItem(measure: string -> real, hash: string -> nat, s: Snap, item: Item, y: nat)
    requires ItemsRight(s, NONE) && WordsRight(measure, hash, s, NONE) && y in Flat(s.chains)
    ensures var s' := Allocated(s, item);
            y < |s'.items| == |s'.lists| == |s'.texts| && ItemSpells(measure, hash, s', y)
  {
    hide Flat, BucketRight, WordPath, WordsOf, Spelled, WordOwners;
    AllocatedOwners(s, item);
    assert ItemOwners(s, NONE)[y] <= 1;
    assert y < |s.items| && y != FreshItem(s) && ItemSpells(measure, hash, s, y);
    ItemSpellsStill(measure, hash, s, Allocated(s, item), y);
  }

  lemma AllocatedWords(measure: string -> real, hash: string -> nat, s: Snap, item: Item)
    requires ItemsRight(s, NONE) && WordsRight(measure, hash, s, NONE)
    ensures WordsRight(measure, hash, Allocated(s, item), NONE)
    ensures WordOwners(Allocated(s, item), NONE) == WordOwners(s, NONE)
  {
    hide BucketRight, ItemSpells, Single, ItemOwners;
    var s' := Allocated(s, item);
    AllocatedOwners(s, item);
    FlatAppend(s.lists, []);
    assert Flat(s.lists + [[]]) == Flat(s.lists);
    forall y: nat | y in Flat(s'.chains) && y < |s'.items| ensures ItemSpells(measure, hash, s', y) {
      AllocatedItem(measure, hash, s, item, y);
    }
  }

  lemma AllocatedRight(measure: string -> real, hash: string -> nat, s: Snap, item: Item)
    requires Right(measure, hash, s, NONE, NONE)
    ensures var x := FreshItem(s); var s' := Allocated(s, item);
            Right(measure, hash, s', multiset{x},
                NONE) && x < |s'.items| && s'.items[x] == item && x !in Flat(s'.chains)
  {
    AllocatedOwners(s, item);
    AllocatedItems(s, item);
    AllocatedWords(measure, hash, s, item);
  }

  lemma AllocatedLists(measure: string -> real, hash: string -> nat, s: Snap, item: Item)
    requires Right(measure, hash, s, NONE, NONE)
    ensures var s' := Allocated(s, item); var x := FreshItem(s);
            && |s'.items| == |s'.lists| == |s'.texts| >= |s.texts| && x < |s'.lists| && s'.lists[x] == []
            && s'.buckets == s.buckets && s'.chains == s.chains && |s.items| <= |s'.items|
            && (forall y: nat :: y < |s.texts| ==> s'.texts[y] == s.texts[y])
  {
    hide Flat, BucketRight, ItemSpells, Single;
    AllocatedOwners(s, item);
  }

  lemma AllocatedTight(measure: string -> real, hash: string -> nat, s: Snap, item: Item)
    requires Right(measure, hash, s, NONE, NONE) && Tight(s, NONE, NONE)
    ensures Tight(Allocated(s, item), multiset{FreshItem(s)}, NONE)
  {
    hide Flat, Path, BucketRight, ItemSpells;
    AllocatedOwners(s, item);
    AllocatedWords(measure, hash, s, item);
  }

  // ---- a measured word added to the list being made ---------------------------------------------------------

  function FreshWord(s: Snap): nat {
    if s.wordsFree != [] then s.wordsFree[|s.wordsFree| - 1] else |s.words|
  }

  /** The array with `w` set and the previous word linked to it. */
  function Threaded(words: seq<Word>, made: seq<nat>, w: nat, span: Span): seq<Word>
    requires w <= |words|
  {
    var put := if w < |words| then words[w := Word(span, -1)] else words + [Word(span, -1)];
    if made == [] || made[|made| - 1] >= |put| then put
    else put[made[|made| - 1] := put[made[|made| - 1]].(next := w)]
  }

  ghost function WithWord(s: Snap, made: seq<nat>, span: Span): Snap
    requires FreshWord(s) <= |s.words|
  {
    s.(words := Threaded(s.words, made, FreshWord(s), span),
       wordsFree := if s.wordsFree != [] then s.wordsFree[..|s.wordsFree| - 1] else [])
  }

  lemma {:induction false} ThreadedPath(words: seq<Word>, head: int, made: seq<nat>, w: nat, words': seq<Word>)
    requires WordPath(words, head, made) && AllDistinct(made) && w !in made && w < |words'| && |words'| >= |words|
    requires words'[w].next == -1
    requires made != [] ==> made[|made| - 1] < |words'| && words'[made[|made| - 1]].next == w
    requires forall k :: 0 <= k < |made| - 1 && made[k] < |words| ==> words'[made[k]].next == words[made[k]].next
    ensures WordPath(words', if made == [] then w else head, made + [w])
    decreases |made|
  {
    if made == [] {
      assert (made + [w])[1..] == [];
    } else {
      assert (made + [w])[1..] == made[1..] + [w];
      if |made| > 1 {
        forall k | 0 <= k < |made[1..]| - 1 && made[1..][k] < |words|
          ensures words'[made[1..][k]].next == words[made[1..][k]].next
        {
          assert made[1..][k] == made[k + 1];
        }
        ThreadedPath(words, words[made[0]].next, made[1..], w, words');
      } else {
        assert made[1..] + [w] == [w];
        assert WordPath(words', w, [w]) by { assert [w][1..] == []; }
      }
    }
  }

  lemma WordOwnersGrow(s: Snap, made: seq<nat>, span: Span)
    requires Single(WordOwners(s, multiset(made)), |s.words|)
    ensures var w := FreshWord(s);
            && w <= |s.words| && (s.wordsFree != [] ==>
              w < |s.words|) && w !in made && w !in Flat(s.lists) && AllDistinct(made)
            && (forall k :: 0 <= k < |made| ==> made[k] < |s.words| && made[k] !in Flat(s.lists))
            && var s' := WithWord(s, made, span);
            WordOwners(s', multiset(made + [w])) ==
              if s.wordsFree != [] then WordOwners(s, multiset(made)) else WordOwners(s, multiset(made)) + multiset{w}
  {
    var w, owners := FreshWord(s), WordOwners(s, multiset(made));
    assert owners[w] <= 1;
    if s.wordsFree != [] {
      var n := |s.wordsFree| - 1;
      assert s.wordsFree == s.wordsFree[..n] + [w];
      assert multiset(s.wordsFree) == multiset(s.wordsFree[..n]) + multiset{w};
      assert w in owners;
    }
    assert w in made ==> multiset(made)[w] > 0;
    assert multiset(made + [w]) == multiset(made) + multiset{w};
    forall k | 0 <= k < |made| ensures made[k] < |s.words| && made[k] !in Flat(s.lists) {
      assert owners[made[k]] <= 1 && multiset(made)[made[k]] > 0;
    }
    forall i, j | 0 <= i < j < |made| ensures made[i] != made[j] {
      assert owners[made[i]] <= 1;
      if made[i] == made[j] { Twice(made, i, j); }
    }
  }

  lemma WithWordItem(measure: string -> real, hash: string -> nat, s: Snap, made: seq<nat>, span: Span, x: nat)
    requires WordsRight(measure, hash, s, multiset(made)) && FreshWord(s) <= |s.words| && x in Flat(s.chains)
    requires x < |s.items|
    requires FreshWord(s) !in Flat(s.lists) && forall k :: 0 <= k < |made| ==> made[k] !in Flat(s.lists)
    ensures ItemSpells(measure, hash, WithWord(s, made, span), x)
  {
    hide Flat, Single, WordPath, WordsOf, Spelled;
    var s' := WithWord(s, made, span);
    assert ItemSpells(measure, hash, s, x);
    FlatHas(s.lists, x);
    forall k | 0 <= k < |s.lists[x]| && s.lists[x][k] < |s.words|
      ensures s'.words[s.lists[x][k]] == s.words[s.lists[x][k]]
    {
      assert s.lists[x][k] in multiset(s.lists[x]) && s.lists[x][k] in Flat(s.lists);
    }
    ItemSpellsStill(measure, hash, s, s', x);
  }

  lemma WithWordItems(measure: string -> real, hash: string -> nat, s: Snap, made: seq<nat>, span: Span)
    requires WordsRight(measure, hash, s, multiset(made)) && FreshWord(s) <= |s.words|
    ensures WordsRight(measure, hash, WithWord(s, made, span), multiset(made + [FreshWord(s)]))
  {
    hide Flat, ItemSpells, Single, WordOwners, Threaded;
    var s' := WithWord(s, made, span);
    WordOwnersGrow(s, made, span);
    WithWordSingle(s, made, span);
    forall x: nat | x in Flat(s'.chains) && x < |s'.items| ensures ItemSpells(measure, hash, s', x) {
      WithWordItem(measure, hash, s, made, span, x);
    }
  }

  lemma WithWordSingle(s: Snap, made: seq<nat>, span: Span)
    requires Single(WordOwners(s, multiset(made)), |s.words|) && FreshWord(s) <= |s.words|
    ensures var s' := WithWord(s, made, span);
            Single(WordOwners(s', multiset(made + [FreshWord(s)])), |s'.words|)
  {
    hide Flat, WordOwners;
    WordOwnersGrow(s, made, span);
  }

  lemma ThreadedSpells(words: seq<Word>, made: seq<nat>, w: nat, span: Span)
    requires w <= |words| && WordsIn(words, made) && AllDistinct(made) && w !in made
    ensures var words' := Threaded(words, made, w, span);
            && |words'| >= |words| && WordsIn(words', made + [w])
            && (forall k :: 0 <= k < |made| - 1 ==> words'[made[k]] == words[made[k]])
            && words'[w].next == -1 && (made != [] ==> words'[made[|made| - 1]].next == w)
            && Spelled(words', made + [w]) == Spelled(words, made) + [span]
  {
    var words', n := Threaded(words, made, w, span), |made|;
    forall k | 0 <= k <= n
      ensures (made + [w])[k] < |words'|
      ensures words'[(made + [w])[k]].span == (if k < n then words[made[k]].span else span)
    {
    }
  }

  lemma WithWordPath(s: Snap, made: seq<nat>, head: int, span: Span)
    requires Single(WordOwners(s, multiset(made)), |s.words|) && WordPath(s.words, head, made)
    requires FreshWord(s) <= |s.words|
    ensures var w := FreshWord(s); var s' := WithWord(s, made, span);
            && WordPath(s'.words, if made == [] then w else head, made + [w])
            && WordsIn(s.words, made) && WordsIn(s'.words, made + [w])
            && Spelled(s'.words, made + [w]) == Spelled(s.words, made) + [span]
  {
    WordOwnersGrow(s, made, span);
    WordPathIn(s.words, head, made);
    ThreadedSpells(s.words, made, FreshWord(s), span);
    ThreadedPath(s.words, head, made, FreshWord(s), WithWord(s, made, span).words);
  }

  /** Adding a word disturbs no live item's words. */
  lemma WithWordRight(measure: string -> real, hash: string -> nat, s: Snap, item: multiset<nat>, made: seq<nat>,
                      span: Span)
    requires Right(measure, hash, s, item, multiset(made))
    ensures FreshWord(s) <= |s.words|
    ensures Right(measure, hash, WithWord(s, made, span), item, multiset(made + [FreshWord(s)]))
  {
    WordOwnersGrow(s, made, span);
    var s' := WithWord(s, made, span);
    WithWordItems(measure, hash, s, made, span);
    assert ItemOwners(s', item) == ItemOwners(s, item);
    forall b | 0 <= b < |s.buckets| ensures BucketRight(s', b) {
      assert BucketRight(s, b);
    }
  }

  lemma FreshWordBounds(s: Snap, made: seq<nat>)
    requires Single(WordOwners(s, multiset(made)), |s.words|)
    ensures s.wordsFree != [] ==> FreshWord(s) < |s.words|
  {
    if s.wordsFree != [] {
      assert FreshWord(s) in multiset(s.wordsFree) && FreshWord(s) in WordOwners(s, multiset(made));
    }
  }

  /** ... and loses no slot. */
  lemma WithWordTight(s: Snap, item: multiset<nat>, made: seq<nat>, span: Span)
    requires Single(WordOwners(s, multiset(made)), |s.words|) && Tight(s, item, multiset(made))
    requires FreshWord(s) <= |s.words|
    ensures Tight(WithWord(s, made, span), item, multiset(made + [FreshWord(s)]))
  {
    hide Flat;
    WordOwnersGrow(s, made, span);
    assert ItemOwners(WithWord(s, made, span), item) == ItemOwners(s, item);
  }

  // ---- the finished item linked at the end of its chain -----------------------------------------------------

  function Appended(items: seq<Item>, chain: seq<nat>, x: nat, start: int): seq<Item>
    requires x < |items|
  {
    var done := items[x := items[x].(start := start)];
    if chain == [] || chain[|chain| - 1] >= |items| then done
    else done[chain[|chain| - 1] := done[chain[|chain| - 1]].(next := x)]
  }

  ghost function Linked(s: Snap, b: nat, x: nat, text: string, start: int, made: seq<nat>): Snap
    requires x < |s.items| == |s.lists| == |s.texts| && b < |s.buckets| == |s.chains|
  {
    s.(buckets := if s.chains[b] == [] then s.buckets[b := x] else s.buckets,
       items := Appended(s.items, s.chains[b], x, start),
       chains := s.chains[b := s.chains[b] + [x]], lists := s.lists[x := made], texts := s.texts[x := text])
  }

  lemma LinkedOwners(s: Snap, b: nat, x: nat, text: string, start: int, made: seq<nat>)
    requires x < |s.items| == |s.lists| == |s.texts| && b < |s.buckets| == |s.chains| && s.lists[x] == []
    ensures ItemOwners(Linked(s, b, x, text, start, made), NONE) == ItemOwners(s, multiset{x})
    ensures WordOwners(Linked(s, b, x, text, start, made), NONE) == WordOwners(s, multiset(made))
    ensures Flat(Linked(s, b, x, text, start, made).chains) == Flat(s.chains) + multiset{x}
  {
    hide Flat;
    var chain := s.chains[b];
    assert chain + [x] == chain + ([x] + []) && chain + [] == chain;
    EvictedChains(s.chains[b := chain + [x]], b, chain, x, []);
    assert s.chains[b := chain + [x]][b := chain + []] == s.chains;
    FlatUpdate(s.lists, x, made);
    assert Flat(s.lists[x := made]) + multiset(s.lists[x]) == Flat(s.lists[x := made]);
  }

  lemma AppendedPath(items: seq<Item>, head: nat, chain: seq<nat>, x: nat, start: int)
    requires Path(items, head, chain) && AllDistinct(chain) && x !in chain && 0 < x < |items| && items[x].next == 0
    ensures Path(Appended(items, chain, x, start), if chain == [] then x else head, chain + [x])
  {
    var items' := Appended(items, chain, x, start);
    assert chain + [] == chain;
    PathAt(items, head, chain, []);
    assert Path(items', x, [x]) by { assert [x][1..] == []; }
    PathJoin(items, head, chain, [], [x], items', if chain == [] then x else head, x);
  }

  lemma LinkedBuckets(s: Snap, b: nat, x: nat, text: string, start: int, made: seq<nat>, c: nat)
    requires ItemsRight(s, multiset{x}) && x < |s.items| == |s.lists| == |s.texts| && b < |s.buckets| && c < |s.buckets|
    requires s.items[x].next == 0 && s.items[x].id % |s.buckets| == b && 0 < x && x !in Flat(s.chains)
    ensures BucketRight(Linked(s, b, x, text, start, made), c)
  {
    hide Flat;
    var s' := Linked(s, b, x, text, start, made);
    var chain := s.chains[c];
    assert BucketRight(s, c);
    FlatHas(s.chains, c);
    FlatHas(s.chains, b);
    assert x in chain <==> x in multiset(chain);
    forall i, j | 0 <= i < j < |chain| ensures chain[i] != chain[j] {
      ChainDistinct(s, multiset{x}, c, i, j);
    }
    if c == b {
      AppendedPath(s.items, s.buckets[b], chain, x, start);
    } else {
      forall k | 0 <= k < |chain| && chain[k] < |s.items| ensures s'.items[chain[k]].next == s.items[chain[k]].next {
        if chain[k] in s.chains[b] { ChainsApart(s, multiset{x}, b, c, chain[k]); }
      }
      PathFrame(s.items, s'.items, s.buckets[c], chain);
    }
  }

  /** Linking the new item in: it is chained once, its words are its text's, nothing else moved. */
  lemma LinkedRight(measure: string -> real, hash: string -> nat, s: Snap, b: nat, x: nat, text: string, start: int,
                    made: seq<nat>)
    requires Right(measure, hash, s, multiset{x}, multiset(made)) && x < |s.items| && b < |s.buckets|
    requires s.items[x].next == 0 && s.items[x].id == hash(text) && s.items[x].id % |s.buckets| == b
    requires WordPath(s.words, start, made) && WordsIn(s.words, made)
    requires Spelled(s.words, made) == WordsOf(measure, text, 0)
    ensures Right(measure, hash, Linked(s, b, x, text, start, made), NONE, NONE)
  {
    hide Flat, Path, WordPath;
    var s' := Linked(s, b, x, text, start, made);
    assert ItemOwners(s, multiset{x})[x] <= 1 && x in ItemOwners(s, multiset{x});
    assert x !in Flat(s.chains) && 0 < x;
    LinkedOwners(s, b, x, text, start, made);
    forall c | 0 <= c < |s.buckets| ensures BucketRight(s', c) {
      LinkedBuckets(s, b, x, text, start, made, c);
    }
    forall y: nat | y in Flat(s'.chains) && y < |s'.items| ensures ItemSpells(measure, hash, s', y) {
      if y != x {
        assert ItemSpells(measure, hash, s, y);
        ItemSpellsStill(measure, hash, s, s', y);
      }
    }
  }

  lemma LinkedTight(s: Snap, b: nat, x: nat, text: string, start: int, made: seq<nat>)
    requires x < |s.items| == |s.lists| == |s.texts| && b < |s.buckets| == |s.chains| && s.lists[x] == []
    requires Tight(s, multiset{x}, multiset(made))
    ensures Tight(Linked(s, b, x, text, start, made), NONE, NONE)
  {
    LinkedOwners(s, b, x, text, start, made);
  }

  lemma LinkedFacts(measure: string -> real, hash: string -> nat, s: Snap, b: nat, x: nat, text: string, start: int,
                    made: seq<nat>)
    requires Right(measure, hash, s, multiset{x}, multiset(made)) && x < |s.items| == |s.lists| && b < |s.buckets|
    requires s.lists[x] == []
    requires s.items[x].next == 0 && s.items[x].id == hash(text) && s.items[x].id % |s.buckets| == b
    requires WordPath(s.words, start, made) && WordsIn(s.words, made)
    requires Spelled(s.words, made) == WordsOf(measure, text, 0)
    ensures Right(measure, hash, Linked(s, b, x, text, start, made), NONE, NONE)
    ensures Flat(Linked(s, b, x, text, start, made).chains) == Flat(s.chains) + multiset{x}
    ensures Tight(s, multiset{x}, multiset(made)) ==> Tight(Linked(s, b, x, text, start, made), NONE, NONE)
  {
    LinkedRight(measure, hash, s, b, x, text, start, made);
    LinkedOwners(s, b, x, text, start, made);
    if Tight(s, multiset{x}, multiset(made)) {
      LinkedTight(s, b, x, text, start, made);
    }
  }

  /** Slots that are being made may be given up: what is left is still right. */
  lemma Abandoned(measure: string -> real, hash: string -> nat, s: Snap, item: multiset<nat>, made: multiset<nat>)
    requires Right(measure, hash, s, item, made)
    ensures Right(measure, hash, s, NONE, NONE)
  {
    forall x: nat ensures ItemOwners(s, NONE)[x] <= 1 && (x in ItemOwners(s, NONE) ==> x < |s.items|) {
      assert ItemOwners(s, item)[x] <= 1;
    }
    forall x: nat ensures WordOwners(s, NONE)[x] <= 1 && (x in WordOwners(s, NONE) ==> x < |s.words|) {
      assert WordOwners(s, made)[x] <= 1;
    }
  }

  // ---- room -------------------------------------------------------------------------------------------------

  /** How many words of a text have ended before place `end`. */
  function Ended(text: string, end: nat): nat
    requires end <= |text|
  {
    if end == 0 then 0 else Ended(text, end - 1) + if text[end - 1] == ' ' then 1 else 0
  }

  lemma EndedNext(text: string, end: nat)
    requires end < |text|
    ensures Ended(text, 0) == 0 && Ended(text, end + 1) == Ended(text, end) + if text[end] == ' ' then 1 else 0
  {
  }

  lemma NothingMade(measure: string -> real, text: string, words: seq<Word>)
    ensures WordPath(words, -1, []) && Spelled(words, []) == [] && Ended(text, 0) == 0
    ensures [] + WordsOf(measure, text, 0) == WordsOf(measure, text, 0)
  {
  }

  lemma NothingLeft(measure: string -> real, text: string, made: seq<Span>)
    ensures made + WordsOf(measure, text, |text|) == made
  {
  }

  lemma {:induction false} EndedGrows(text: string, a: nat, b: nat)
    requires a <= b <= |text|
    ensures Ended(text, a) <= Ended(text, b)
  {
    if a < b { EndedGrows(text, a, b - 1); }
  }

  function Beyond(n: nat, free: nat): nat {
    if n > free then n - free else 0
  }

  /**
   The word array, of `len` words with `free` more to be had from the free list, is not full when
   the last character of the text is looked at.
   */
  predicate WordsFit(len: nat, free: nat, text: string, cap: nat) {
    text == "" || len + Beyond(Ended(text, |text| - 1), free) < cap - 1
  }

  /** Slots on a free list are distinct and inside the array, so the list has room for them all. */
  lemma FreeListsFit(measure: string -> real, hash: string -> nat, s: Snap)
    requires Right(measure, hash, s, NONE, NONE)
    ensures |s.itemsFree| < |s.items| && |s.wordsFree| <= |s.words|
  {
    hide Flat, BucketRight, ItemSpells, Single;
    ListFits(ItemOwners(s, NONE), s.itemsFree, |s.items|);
    ListFits(WordOwners(s, NONE), s.wordsFree, |s.words|);
  }

  lemma ListFits(owners: multiset<nat>, list: seq<nat>, n: nat)
    requires Single(owners, n) && multiset(list) <= owners
    ensures |list| <= n && (0 !in owners && n > 0 ==> |list| < n)
  {
    OnceEach(owners, list, n);
    forall x | x in list ensures x in owners && x < n { assert x in multiset(list) && owners[x] <= 1; }
    if n == 0 {
      assert Elements(list) == {};
    } else {
      assert Elements(list) <= Places(n) + {0};
      SubsetCount(Elements(list), Places(n) + {0});
      if 0 !in owners { SubsetCount(Elements(list), Places(n)); }
    }
  }

  lemma OnceEach(owners: multiset<nat>, list: seq<nat>, n: nat)
    requires Single(owners, n) && multiset(list) <= owners
    ensures AllDistinct(list) && |Elements(list)| == |list|
  {
    forall i, j | 0 <= i < j < |list| ensures list[i] != list[j] {
      assert owners[list[i]] <= 1;
      if list[i] == list[j] { Twice(list, i, j); }
    }
    DistinctCount(list);
  }

  // ---- the cache as it runs ---------------------------------------------------------------------------------

  class Cache {
    const measure: string -> real
    const hash: string -> nat
    const itemCap: nat
    const wordCap: nat
    var buckets: seq<nat>
    var items: seq<Item>
    var itemsFree: seq<nat>
    var words: seq<Word>
    var wordsFree: seq<nat>
    var generation: nat
    ghost var chains: seq<seq<nat>>
    ghost var lists: seq<seq<nat>>
    ghost var texts: seq<string>
    ghost var leaked: bool

    ghost function View(): Snap
      reads this
    {
      Snap(buckets, items, itemsFree, words, wordsFree, chains, lists, texts)
    }

    /** Chains, lists and free lists are right, and no slot is lost unless a capacity was met. */
    ghost predicate Valid()
      reads this
    {
      && |buckets| == |chains| && |items| == |lists| == |texts|
      && Right(measure, hash, View(), NONE, NONE) && (!leaked ==> Tight(View(), NONE, NONE))
      && Unique(View()) && |items| < itemCap && |words| < wordCap
    }

    ghost predicate Chained(x: nat)
      reads this
    {
      x in Flat(chains) && x < |items| && x < |texts|
    }

    constructor (measure: string -> real, hash: string -> nat, nbuckets: nat, itemCap: nat, wordCap: nat)
      requires nbuckets > 0 && itemCap > 1 && wordCap > 0
      ensures Valid() && !leaked && this.measure == measure && this.hash == hash
      ensures this.itemCap == itemCap && this.wordCap == wordCap
      ensures forall x: nat :: !Chained(x)
    {
      this.measure, this.hash, this.itemCap, this.wordCap := measure, hash, itemCap, wordCap;
      buckets, items, itemsFree, words, wordsFree, generation := seq(nbuckets, _ => 0), [NO_ITEM], [], [], [], 0;
      chains, lists, texts, leaked := Empties(nbuckets), [[]], [""], false;
      new;
      NoneChained(nbuckets);
      assert Flat(lists) == NONE by { assert lists[..0] == []; }
      forall b | 0 <= b < |buckets| ensures BucketRight(View(), b) {}
    }

    /** A frame goes by. */
    method NextFrame()
      requires Valid()
      modifies this`generation
      ensures Valid() && generation == old(generation) + 1
    {
      generation := generation + 1;
    }

    /** The words of an evicted item, put on the free list one by one. */
    method FreeWords(start: int, ghost list: seq<nat>) returns (free: seq<nat>)
      requires WordPath(words, start, list)
      ensures free == wordsFree + list
    {
      free := wordsFree;
      var next := start;
      ghost var k := 0;
      assert list[..0] == [] && list[0..] == list;
      while next != -1
        invariant k <= |list| && WordPath(words, next, list[k..]) && free == wordsFree + list[..k]
        decreases |list| - k
      {
        assert list[k..][0] == list[k] && list[k..][1..] == list[k + 1..];
        assert list[..k + 1] == list[..k] + [list[k]];
        free := free + [next];
        next := words[next].next;
        k := k + 1;
      }
      assert list[k..] == [] ==> list[..k] == list;
    }

    /** One item taken out of bucket `b`: its words freed, its slot freed, its neighbours joined. */
    method Evict(b: nat, previous: nat, x: nat, ghost kept: seq<nat>, ghost rest: seq<nat>)
      requires |items| == |lists| && x < |items| && b < |buckets| == |chains|
      requires WordPath(words, items[x].start, lists[x])
      requires if kept == [] then previous == 0 else previous == kept[|kept| - 1] && 0 < previous < |items|
      modifies this
      ensures View() == Evicted(old(View()), b, kept, x, rest) && leaked == old(leaked) && generation == old(generation)
    {
      wordsFree := FreeWords(items[x].start, lists[x]);
      var next := items[x].next;
      items := items[x := NO_ITEM];
      itemsFree := itemsFree + [x];
      if previous == 0 {
        buckets := buckets[b := next];
      } else {
        items := items[previous := items[previous].(next := next)];
      }
      chains, lists := chains[b := kept + rest], lists[x := []];
    }

    /** The walk stands in bucket `b` between the items kept and those to come. */
    ghost predicate Between(b: nat, previous: nat, x: nat, kept: seq<nat>, rest: seq<nat>)
      reads this
    {
      && b < |chains| && chains[b] == kept + rest
      && previous == (if kept == [] then 0 else kept[|kept| - 1])
      && x == (if rest == [] then 0 else rest[0])
    }

    /** One step of the walk past an item of another id: evicted if stale, kept if not. */
    method Pass(b: nat, previous: nat, x: nat, ghost kept: seq<nat>, ghost rest: seq<nat>)
      returns (previous': nat, x': nat, ghost kept': seq<nat>)
      requires Valid() && Between(b, previous, x, kept, rest) && rest != []
      modifies this
      ensures Valid() && leaked == old(leaked) && generation == old(generation) && |buckets| == old(|buckets|)
      ensures texts == old(texts) && Flat(chains) <= old(Flat(chains)) && Between(b, previous', x', kept', rest[1..])
      ensures words == old(words) && Fewer(old(View()), View()) && (kept' == kept || kept' == kept + [x])
      ensures forall y: nat :: y in old(Flat(chains)) && y < |items| && y !in Flat(chains) ==>
        y == x && generation - old(items[x].generation) > 2
    {
      hide Right, Tight, Flat;
      ghost var s := View();
      ChainFacts(measure, hash, s, b, kept, rest);
      x' := items[x].next;
      if generation - items[x].generation > 2 {
        assert rest == [x] + rest[1..];
        EvictedFacts(measure, hash, s, b, kept, x, rest[1..]);
        RightItems(measure, hash, s);
        EvictedFewer(s, b, kept, x, rest[1..]);
        FewerUnique(s, Evicted(s, b, kept, x, rest[1..]));
        Evict(b, previous, x, kept, rest[1..]);
        previous', kept' := previous, kept;
      } else {
        previous', kept' := x, kept + [x];
        assert kept + rest == kept' + rest[1..];
      }
    }

    /** The walk along a chain to the item of this id, or to its end; stale items met on the way are evicted. */
    method Walk(b: nat, id: nat) returns (found: nat, previous: nat)
      requires Valid() && b < |buckets| && id % |buckets| == b
      modifies this
      ensures Valid() && leaked == old(leaked) && generation == old(generation) && |buckets| == old(|buckets|)
      ensures texts == old(texts) && words == old(words) && |items| == old(|items|) && b < |chains|
      ensures OnlyStaleGone(old(View()), View(), id, generation)
      ensures found != 0 ==> Chained(found) && items[found].id == id
      ensures found == 0 ==> previous == if chains[b] == [] then 0 else chains[b][|chains[b]| - 1]
      ensures found == 0 ==> forall y: nat :: Chained(y) ==> items[y].id != id
    {
      hide Right, Tight, Unique, OnlyStaleGone, Fewer, Flat;
      OnlyStaleStart(View(), id, generation);
      previous := 0;
      var x := buckets[b];
      ghost var kept: seq<nat>, rest := [], chains[b];
      assert chains[b] == kept + rest;
      ChainFacts(measure, hash, View(), b, kept, rest);
      while x != 0
        invariant Valid() && b < |chains| && OnlyStaleGone(old(View()), View(), id, generation)
        invariant words == old(words) && texts == old(texts) && |buckets| == old(|buckets|) && |items| == old(|items|)
        invariant leaked == old(leaked) && generation == old(generation)
        invariant Between(b, previous, x, kept, rest)
        invariant forall k :: 0 <= k < |kept| && kept[k] < |items| ==> items[kept[k]].id != id
        decreases |rest|
      {
        ChainFacts(measure, hash, View(), b, kept, rest);
        if items[x].id == id { return x, previous; }
        ghost var before, gone := View(), x;
        previous, x, kept := Pass(b, previous, x, kept, rest);
        KeptIds(before, View(), b, kept, rest[1..], id);
        OnlyStaleStep(old(View()), before, View(), id, generation, gone);
        rest := rest[1..];
      }
      found := 0;
      ChainFacts(measure, hash, View(), b, kept, rest);
      assert kept + rest == kept;
      forall y: nat | Chained(y) ensures items[y].id != id {
        IdNowhere(measure, hash, View(), b, id, y);
      }
    }

    /** The item of this id if there is one, marked as seen in this frame. */
    method Find(b: nat, id: nat) returns (found: nat, previous: nat)
      requires Valid() && b < |buckets| && id % |buckets| == b
      modifies this
      ensures Valid() && leaked == old(leaked) && generation == old(generation) && |buckets| == old(|buckets|)
      ensures texts == old(texts) && words == old(words) && |items| == old(|items|) && b < |chains|
      ensures forall y: nat :: Chained(y) ==> old(Chained(y)) && items[y].id == old(items[y].id)
      ensures forall y: nat :: old(Chained(y)) && !Chained(y) ==> generation - old(items[y].generation) > 2
      ensures forall y: nat :: old(Chained(y)) && old(items[y].id) == id ==> found == y
      ensures found != 0 ==> Chained(found) && items[found].id == id && items[found].generation == generation
      ensures found == 0 ==> previous == if chains[b] == [] then 0 else chains[b][|chains[b]| - 1]
      ensures found == 0 ==> forall y: nat :: Chained(y) ==> items[y].id != id
      ensures found == 0 ==> forall y: nat :: old(Chained(y)) ==> old(items[y].id) != id
    {
      hide Right, Tight, Unique, OnlyStaleGone, Flat;
      found, previous := Walk(b, id);
      if found != 0 {
        FoundIt(old(View()), View(), id, generation, found);
        Touch(found);
      } else {
        MissedIt(old(View()), View(), id, generation);
      }
    }

    /** An item seen again is of this frame. */
    method Touch(x: nat)
      requires Valid() && x < |items|
      modifies this`items
      ensures Valid() && items == old(items)[x := old(items[x]).(generation := generation)]
    {
      ghost var s := View();
      items := items[x := items[x].(generation := generation)];
      Touched(measure, hash, s, View(), x);
    }

    /** Clay__AddMeasuredWord: a slot from the free list if there is one, threaded after the last. */
    method AddWord(span: Span, head: int, previous: int, ghost made: seq<nat>, ghost item: multiset<nat>)
      returns (head': int, w: nat)
      requires Right(measure, hash, View(), item, multiset(made)) && WordPath(words, head, made) && WordsIn(words, made)
      requires previous == if made == [] then -1 else made[|made| - 1]
      requires !leaked ==> Tight(View(), item, multiset(made))
      modifies this`words, this`wordsFree
      ensures Right(measure, hash, View(), item, multiset(made + [w]))
      ensures !leaked ==> Tight(View(), item, multiset(made + [w]))
      ensures WordPath(words, head', made + [w]) && WordsIn(words, made + [w])
      ensures Spelled(words, made + [w]) == Spelled(old(words), made) + [span]
      ensures |words| == (if old(|wordsFree|) > 0 then old(|words|) else old(|words|) + 1)
      ensures |wordsFree| == if old(|wordsFree|) > 0 then old(|wordsFree|) - 1 else 0
    {
      hide Right, Tight, WordPath, Spelled, Single, Flat;
      ghost var s := View();
      RightSingle(measure, hash, s, item, multiset(made));
      WithWordRight(measure, hash, s, item, made, span);
      WithWordPath(s, made, head, span);
      if !leaked { WithWordTight(s, item, made, span); }
      FreshWordBounds(s, made);
      w := if |wordsFree| > 0 then wordsFree[|wordsFree| - 1] else |words|;
      if |wordsFree| > 0 {
        wordsFree := wordsFree[..|wordsFree| - 1];
        words := words[w := Word(span, -1)];
      } else {
        words := words + [Word(span, -1)];
      }
      if previous == -1 {
        head' := w;
      } else {
        head' := head;
        words := words[previous := words[previous].(next := w)];
      }
      assert View() == WithWord(s, made, span);
    }

    /** The list being made: every item right beside it, and with the words still to come, the text's. */
    ghost predicate Making(text: string, start: nat, head: int, previous: int, made: seq<nat>, item: multiset<nat>)
      reads this
    {
      && start <= |text| && WordPath(words, head, made) && WordsIn(words, made)
      && previous == (if made == [] then -1 else made[|made| - 1])
      && Right(measure, hash, View(), item, multiset(made)) && (!leaked ==> Tight(View(), item, multiset(made)))
      && Spelled(words, made) + WordsOf(measure, text, start) == WordsOf(measure, text, 0)
    }

    /** The word from `start` to `end`, with the space that ends it if there is one. */
    method TakeWord(text: string, start: nat, end: nat, head: int, previous: int, ghost made: seq<nat>,
                    ghost item: multiset<nat>)
      returns (head': int, w: nat)
      requires Making(text, start, head, previous, made, item) && start <= end <= |text|
      requires (end == |text| ==> start < end)
      requires (forall i :: start <= i < end ==> text[i] != ' ') && (end < |text| ==> text[end] == ' ')
      modifies this`words, this`wordsFree
      ensures Making(text, if end < |text| then end + 1 else end, head', w, made + [w], item)
      ensures |words| == (if old(|wordsFree|) > 0 then old(|words|) else old(|words|) + 1)
      ensures |wordsFree| == if old(|wordsFree|) > 0 then old(|wordsFree|) - 1 else 0
    {
      hide Right, Tight, Spelled, WordPath, WordsOf;
      var next := if end < |text| then end + 1 else end;
      var span := Span(start, next - start, measure(text[start..end]) + (if end < |text| then measure(" ") else 0.0));
      FirstWord(measure, text, start, end);
      ghost var spelled := Spelled(words, made);
      head', w := AddWord(span, head, previous, made, item);
      Regroup(spelled, span, WordsOf(measure, text, next));
    }

    /** The words of a text, measured and threaded; it stops short exactly when the word array is full too soon. */
    method MeasureWords(text: string, ghost item: multiset<nat>) returns (ok: bool, head: int, ghost made: seq<nat>)
      requires Right(measure, hash, View(), item, NONE) && (!leaked ==> Tight(View(), item, NONE)) && |words| < wordCap
      modifies this`words, this`wordsFree
      ensures Right(measure, hash, View(), item, multiset(made)) && |words| < wordCap
      ensures ok ==>
        WordPath(words, head, made) && WordsIn(words, made) && Spelled(words, made) == WordsOf(measure, text, 0)
      ensures ok ==> (!leaked ==> Tight(View(), item, multiset(made)))
      ensures ok <==> WordsFit(old(|words|), old(|wordsFree|), text, wordCap)
      ensures !ok ==> |words| == wordCap - 1
    {
      hide Right, Tight, WordPath, WordsOf, Spelled, Ended;
      ok, head, made := false, -1, [];
      var previous: int, start, end := -1, 0, 0;
      NothingMade(measure, text, words);
      assert multiset(made) == NONE;
      while end < |text|
        invariant 0 <= start <= end <= |text| && (forall i :: start <= i < end ==> text[i] != ' ')
        invariant Making(text, start, head, previous, made, item)
        invariant |words| == old(|words|) + Beyond(Ended(text, end), old(|wordsFree|))
        invariant |wordsFree| == Beyond(old(|wordsFree|), Ended(text, end))
        invariant |words| < wordCap && (start < end ==> |words| < wordCap - 1)
        invariant end > 0 ==> old(|words|) + Beyond(Ended(text, end - 1), old(|wordsFree|)) < wordCap - 1
      {
        EndedNext(text, end);
        if |words| == wordCap - 1 {
          EndedGrows(text, end, |text| - 1);
          return;
        }
        if text[end] == ' ' {
          var w;
          head, w := TakeWord(text, start, end, head, previous, made, item);
          made, previous, start := made + [w], w, end + 1;
        }
        end := end + 1;
      }
      if end - start > 0 {
        var w;
        head, w := TakeWord(text, start, end, head, previous, made, item);
        made := made + [w];
      }
      NothingLeft(measure, text, Spelled(words, made));
      ok := true;
    }

    /** A slot for the new item, from the free list if there is one; none when the items are full. */
    method AllocateItem(item: Item) returns (x: Option<nat>)
      requires Valid()
      modifies this`items, this`itemsFree, this`lists, this`texts
      ensures x.None? <==> old(itemsFree) == [] && old(|items|) == itemCap - 1
      ensures x.None? ==> View() == old(View())
      ensures |items| < itemCap
      ensures x.Some? ==> x.value == FreshItem(old(View())) && View() == Allocated(old(View()), item)
    {
      hide Flat, BucketRight, ItemSpells, Single, ItemOwners, WordOwners;
      ghost var s := View();
      AllocatedOwners(s, item);
      if |itemsFree| > 0 {
        var i := itemsFree[|itemsFree| - 1];
        itemsFree := itemsFree[..|itemsFree| - 1];
        items := items[i := item];
        return Some(i);
      }
      if |items| == itemCap - 1 { return None; }
      items, lists, texts := items + [item], lists + [[]], texts + [""];
      return Some(|items| - 1);
    }

    /** The finished item goes to the end of its chain. */
    method Link(b: nat, previous: nat, x: nat, start: int, text: string, ghost made: seq<nat>)
      requires x < |items| == |lists| == |texts| && b < |buckets| == |chains|
      requires if chains[b] == [] then previous == 0
               else previous == chains[b][|chains[b]| - 1] && 0 < previous < |items|
      modifies this
      ensures View() == Linked(old(View()), b, x, text, start, made) && leaked == old(leaked)
      ensures generation == old(generation)
    {
      items := items[x := items[x].(start := start)];
      if previous != 0 {
        items := items[previous := items[previous].(next := x)];
      } else {
        buckets := buckets[b := x];
      }
      chains, lists, texts := chains[b := chains[b] + [x]], lists[x := made], texts[x := text];
    }

    /** The words of the new item `x` measured, and the item linked at the end of its chain. */
    method Complete(b: nat, previous: nat, x: nat, text: string) returns (ok: bool)
      requires |buckets| == |chains| && |items| == |lists| == |texts| && |items| < itemCap && |words| < wordCap
      requires Unique(View())
      requires Right(measure, hash, View(), multiset{x}, NONE) && (!leaked ==> Tight(View(), multiset{x}, NONE))
      requires x < |items| && lists[x] == [] && items[x].next == 0 && items[x].id == hash(text) && b < |buckets|
      requires hash(text) % |buckets| == b
      requires if chains[b] == [] then previous == 0
               else previous == chains[b][|chains[b]| - 1] && 0 < previous < |items|
      requires forall y: nat :: Chained(y) ==> items[y].id != hash(text)
      modifies this
      ensures Valid() && |texts| == old(|texts|) && (ok ==> leaked == old(leaked)) && generation == old(generation)
      ensures ok <==> WordsFit(old(|words|), old(|wordsFree|), text, wordCap)
      ensures !ok ==> chains == old(chains) && texts == old(texts) && items == old(items) && |words| == wordCap - 1
      ensures ok ==> Flat(chains) == old(Flat(chains)) + multiset{x} && texts == old(texts)[x := text]
      ensures ok ==> |items| == old(|items|) && forall y: nat :: y < |items| ==> items[y].id == old(items[y].id)
      ensures ok ==> forall y: nat :: y < |items| ==> items[y].generation == old(items[y].generation)
    {
      hide Right, Tight, Unique, Flat, WordPath, WordsOf, Spelled, WordsFit;
      var head;
      ghost var made;
      ok, head, made := MeasureWords(text, multiset{x});
      ghost var s := View();
      UniqueStill(old(View()), s);
      if !ok {
        Abandoned(measure, hash, s, multiset{x}, multiset(made));
        leaked := true;
        return;
      }
      LinkedFacts(measure, hash, s, b, x, text, head, made);
      LinkedUnique(s, b, x, text, head, made);
      Link(b, previous, x, head, text, made);
    }

    /** A text not in the cache: a slot is found for it, and it is measured. */
    method Measure(b: nat, previous: nat, text: string) returns (r: Option<nat>)
      requires Valid() && b < |buckets| && hash(text) % |buckets| == b
      requires previous == if chains[b] == [] then 0 else chains[b][|chains[b]| - 1]
      requires forall y: nat :: Chained(y) ==> items[y].id != hash(text)
      modifies this
      ensures Valid() && (r.Some? ==> leaked == old(leaked)) && generation == old(generation)
      ensures leaked && !old(leaked) ==> |words| == wordCap - 1
      ensures r.Some? <==>
        (old(itemsFree) != [] || old(|items|) < itemCap - 1) && WordsFit(old(|words|), old(|wordsFree|), text, wordCap)
      ensures r.None? ==> (itemsFree == [] && |items| == itemCap - 1) || |words| == wordCap - 1
      ensures r.Some? ==>
        r.value < |texts| && texts[r.value] == text && Flat(chains) == old(Flat(chains)) + multiset{r.value}
      ensures r.Some? ==>
        r.value < |items| && items[r.value].id == hash(text) && items[r.value].generation == generation
      ensures r.None? ==> chains == old(chains)
      ensures |texts| >= old(|texts|) && forall y: nat :: y < old(|texts|) && r != Some(y) ==> texts[y] == old(texts[y])
      ensures |items| >= old(|items|) && forall y: nat :: old(Chained(y)) ==>
        items[y].id == old(items[y].id) && items[y].generation == old(items[y].generation)
    {
      hide Right, Tight, Unique, Flat, WordsFit;
      ghost var s0 := View();
      var item := Item(hash(text), generation, -1, 0);
      assert chains[b] + [] == chains[b];
      ChainFacts(measure, hash, s0, b, chains[b], []);
      AllocatedRight(measure, hash, s0, item);
      AllocatedLists(measure, hash, s0, item);
      AllocatedIds(measure, hash, s0, item);
      if !leaked { AllocatedTight(measure, hash, s0, item); }
      r := AllocateItem(item);
      if r.None? { return; }
      var ok := Complete(b, previous, r.value, text);
      if !ok { return None; }
    }

    /**
     Clay__MeasureTextCached: the item cached for this hash if there is one, and otherwise a new one
     whose list spells the text's words. It fails only for want of room, and loses slots only then.
     An item of the last two frames is never evicted, and no other item changes its text.
     */
    method MeasureTextCached(text: string) returns (r: Option<nat>)
      requires Valid()
      modifies this
      ensures Valid() && generation == old(generation)
      ensures r.Some? ==>
        Chained(r.value) && ItemSpells(measure, hash, View(), r.value) && hash(texts[r.value]) == hash(text)
      ensures r.Some? ==> items[r.value].generation == generation && leaked == old(leaked)
      ensures r.None? ==> (itemsFree == [] && |items| == itemCap - 1) || |words| == wordCap - 1
      ensures old(|items|) < itemCap - 1 && WordsFit(old(|words|), 0, text, wordCap) ==> r.Some?
      ensures leaked && !old(leaked) ==> |words| == wordCap - 1
      ensures forall y: nat :: old(Chained(y)) && old(items[y].id) == hash(text) ==> r == Some(y)
      ensures r.Some? ==>
        (texts[r.value] == text
         || (old(Chained(r.value)) && old(items[r.value].id) == hash(text) && texts[r.value] == old(texts[r.value])))
      ensures forall y: nat :: Chained(y) && r != Some(y) ==> old(Chained(y)) && texts[y] == old(texts[y])
      ensures forall y: nat :: old(Chained(y)) && !Chained(y) ==> generation - old(items[y].generation) > 2
    {
      hide Right, Tight, Unique, WordsFit;
      var id := hash(text);
      RightBuckets(measure, hash, View());
      var b := id % |buckets|;
      var found, previous := Find(b, id);
      if found != 0 {
        ChainedSpells(measure, hash, View(), found);
        return Some(found);
      }
      ghost var mid := View();
      RightBuckets(measure, hash, mid);
      FreeHelps(old(|words|), |wordsFree|, text, wordCap);
      r := Measure(b, previous, text);
      if r.Some? {
        ChainedSpells(measure, hash, View(), r.value);
      }
    }
  }

  /** Words on the free list only help. */
  lemma FreeHelps(len: nat, free: nat, text: string, cap: nat)
    ensures WordsFit(len, 0, text, cap) ==> WordsFit(len, free, text, cap)
  {
  }

  lemma UniqueStill(s: Snap, t: Snap)
    requires Unique(s) && t.chains == s.chains && t.items == s.items
    ensures Unique(t)
  {
  }

  lemma AllocatedIds(measure: string -> real, hash: string -> nat, s: Snap, item: Item)
    requires Right(measure, hash, s, NONE, NONE) && Unique(s)
    ensures Unique(Allocated(s, item))
    ensures forall y: nat :: y in Flat(s.chains) && y < |s.items| ==> Allocated(s, item).items[y] == s.items[y]
  {
    hide Flat, Right, ItemsRight, ItemOwners;
    RightItems(measure, hash, s);
    RightBuckets(measure, hash, s);
    AllocatedOwners(s, item);
  }

  lemma LinkedUnique(s: Snap, b: nat, x: nat, text: string, start: int, made: seq<nat>)
    requires x < |s.items| == |s.lists| == |s.texts| && b < |s.buckets| == |s.chains| && s.lists[x] == [] && Unique(s)
    requires forall y: nat :: y in Flat(s.chains) && y < |s.items| ==> s.items[y].id != s.items[x].id
    ensures Unique(Linked(s, b, x, text, start, made))
  {
    hide Flat;
    LinkedOwners(s, b, x, text, start, made);
    var t := Linked(s, b, x, text, start, made);
    forall y: nat | y < |s.items| ensures t.items[y].id == s.items[y].id {}
  }

  ghost function Empties(n: nat): seq<seq<nat>> {
    seq(n, _ => [])
  }

  /** The next space from `start` is at `end`, or there is none before the end of the text. */
  lemma {:induction false} SpaceAt(text: string, start: nat, end: nat)
    requires start <= end <= |text| && (forall i :: start <= i < end ==> text[i] != ' ')
    requires end == |text| || text[end] == ' '
    ensures NextSpace(text, start) == end
    decreases end - start
  {
    if start < end {
      SpaceAt(text, start + 1, end);
    }
  }

  lemma FewerTrans(s: Snap, t: Snap, u: Snap)
    requires Fewer(s, t) && Fewer(t, u)
    ensures Fewer(s, u)
  {
  }

  /** Items kept of other ids are of other ids still. */
  lemma KeptIds(s: Snap, t: Snap, b: nat, kept: seq<nat>, rest: seq<nat>, id: nat)
    requires Fewer(s, t) && b < |t.chains| && t.chains[b] == kept + rest
    requires forall k :: 0 <= k < |kept| && kept[k] < |s.items| ==> s.items[kept[k]].id != id
    ensures forall k :: 0 <= k < |kept| && kept[k] < |t.items| ==> t.items[kept[k]].id != id
  {
    hide Flat;
    FlatHas(t.chains, b);
    forall k | 0 <= k < |kept| && kept[k] < |t.items| ensures t.items[kept[k]].id != id {
      assert t.chains[b][k] == kept[k] && kept[k] in multiset(t.chains[b]);
    }
  }

  /** Since the walk began: some items evicted, all stale and none of this id, and nothing else. */
  ghost predicate OnlyStaleGone(s: Snap, t: Snap, id: nat, generation: int) {
    && Fewer(s, t)
    && forall y: nat :: y in Flat(s.chains) && y < |s.items| && y !in Flat(t.chains) ==>
         s.items[y].id != id && generation - s.items[y].generation > 2
  }

  lemma OnlyStaleStart(s: Snap, id: nat, generation: int)
    ensures OnlyStaleGone(s, s, id, generation)
  {
  }

  lemma OnlyStaleStep(s: Snap, t: Snap, u: Snap, id: nat, generation: int, x: nat)
    requires OnlyStaleGone(s, t, id, generation) && Fewer(t, u) && x < |t.items| && t.items[x].id != id
    requires forall y: nat :: y in Flat(t.chains) && y < |t.items| && y !in Flat(u.chains) ==>
               y == x && generation - t.items[x].generation > 2
    ensures OnlyStaleGone(s, u, id, generation)
  {
    FewerTrans(s, t, u);
  }

  /** Where the walk stops at an item of the id: it is the only one there was. */
  lemma FoundIt(s: Snap, t: Snap, id: nat, generation: int, x: nat)
    requires OnlyStaleGone(s, t, id, generation) && Unique(t) && x in Flat(t.chains) && x < |t.items|
    requires t.items[x].id == id
    ensures forall y: nat :: y in Flat(s.chains) && y < |s.items| && s.items[y].id == id ==> y == x
    ensures Survivors(s, t, generation)
  {
  }

  /** Where it comes to the end: there was none. */
  lemma MissedIt(s: Snap, t: Snap, id: nat, generation: int)
    requires OnlyStaleGone(s, t, id, generation)
    requires forall y: nat :: y in Flat(t.chains) && y < |t.items| ==> t.items[y].id != id
    ensures forall y: nat :: y in Flat(s.chains) && y < |s.items| ==> s.items[y].id != id
    ensures Survivors(s, t, generation)
  {
  }

  ghost predicate Survivors(s: Snap, t: Snap, generation: int) {
    && |t.items| == |s.items|
    && (forall y: nat :: y in Flat(t.chains) && y < |t.items| ==> y in Flat(s.chains) && t.items[y].id == s.items[y].id)
    && (forall y: nat :: y in Flat(s.chains) && y < |s.items| && y !in Flat(t.chains) ==>
      generation - s.items[y].generation > 2)
  }

  lemma RightSingle(measure: string -> real, hash: string -> nat, s: Snap, item: multiset<nat>, made: multiset<nat>)
    requires Right(measure, hash, s, item, made)
    ensures Single(WordOwners(s, made), |s.words|)
  {
  }

  lemma RightItems(measure: string -> real, hash: string -> nat, s: Snap)
    requires Right(measure, hash, s, NONE, NONE)
    ensures ItemsRight(s, NONE)
  {
  }

  lemma RightBuckets(measure: string -> real, hash: string -> nat, s: Snap)
    requires Right(measure, hash, s, NONE, NONE)
    ensures |s.buckets| > 0 && forall x: nat :: x in Flat(s.chains) ==> x < |s.items|
  {
    forall x: nat | x in Flat(s.chains) ensures x < |s.items| {
      assert ItemOwners(s, NONE)[x] <= 1;
    }
  }

  lemma ChainedSpells(measure: string -> real, hash: string -> nat, s: Snap, x: nat)
    requires Right(measure, hash, s, NONE, NONE) && x in Flat(s.chains)
    ensures x < |s.items| == |s.lists| == |s.texts| && ItemSpells(measure, hash, s, x)
  {
    assert ItemOwners(s, NONE)[x] <= 1;
  }

  /** What the walk knows where it stands. */
  lemma ChainFacts(measure: string -> real, hash: string -> nat, s: Snap, b: nat, kept: seq<nat>, rest: seq<nat>)
    requires Right(measure, hash, s, NONE, NONE) && b < |s.buckets| && s.chains[b] == kept + rest
    ensures kept == [] ==> s.buckets[b] == (if rest == [] then 0 else rest[0])
    ensures kept != [] ==> 0 < kept[|kept| - 1] < |s.items|
    ensures rest != [] ==>
      var x := rest[0];
      && 0 < x < |s.items| && x in Flat(s.chains) && s.items[x].next == (if |rest| == 1 then 0 else rest[1])
      && x < |s.lists| && WordPath(s.words, s.items[x].start, s.lists[x])
    ensures |s.items| == |s.lists| == |s.texts| && |s.buckets| == |s.chains|
  {
    assert BucketRight(s, b);
    PathAt(s.items, s.buckets[b], kept, rest);
    if rest != [] {
      FlatHas(s.chains, b);
      assert s.chains[b][|kept|] == rest[0] && rest[0] in multiset(s.chains[b]);
      assert ItemSpells(measure, hash, s, rest[0]);
    }
  }

  lemma EvictedFacts(measure: string -> real, hash: string -> nat, s: Snap, b: nat, kept: seq<nat>, x: nat,
                     rest: seq<nat>)
    requires Right(measure, hash, s, NONE, NONE) && b < |s.buckets| && s.chains[b] == kept + ([x] + rest)
    requires x < |s.items|
    ensures Right(measure, hash, Evicted(s, b, kept, x, rest), NONE, NONE)
    ensures Tight(s, NONE, NONE) ==> Tight(Evicted(s, b, kept, x, rest), NONE, NONE)
    ensures Flat(s.chains) == Flat(Evicted(s, b, kept, x, rest).chains) + multiset{x}
  {
    EvictedRight(measure, hash, s, b, kept, x, rest);
    EvictedOwners(s, b, kept, x, rest, NONE, NONE);
  }

  /** Renewing an item's generation changes nothing else. */
  lemma Touched(measure: string -> real, hash: string -> nat, s: Snap, s': Snap, x: nat)
    requires Right(measure, hash, s, NONE, NONE) && x < |s.items| && |s'.items| == |s.items|
    requires s' == s.(items := s'.items) && s'.items == s.items[x := s.items[x].(generation := s'.items[x].generation)]
    ensures Right(measure, hash, s', NONE, NONE) && (Tight(s, NONE, NONE) ==> Tight(s', NONE, NONE))
    ensures Unique(s) ==> Unique(s')
  {
    assert ItemOwners(s', NONE) == ItemOwners(s, NONE) && WordOwners(s', NONE) == WordOwners(s, NONE);
    forall b | 0 <= b < |s.buckets| ensures BucketRight(s', b) {
      assert BucketRight(s, b);
      PathFrame(s.items, s'.items, s.buckets[b], s.chains[b]);
    }
    forall y: nat | y in Flat(s'.chains) && y < |s'.items| ensures ItemSpells(measure, hash, s', y) {
      assert ItemSpells(measure, hash, s, y);
      ItemSpellsStill(measure, hash, s, s', y);
    }
  }

  lemma {:induction false} NoneChained(n: nat)
    ensures Flat(Empties(n)) == NONE
  {
    if n > 0 {
      NoneChained(n - 1);
      assert Empties(n)[..n - 1] == Empties(n - 1);
    }
  }
}
