/**
 Fields, results, replies and verbs over a connection (client/zigurat.c). Reading is stated on the
 bytes unread, writing on the bytes written: how the socket cuts them up makes no difference.
 */
module Wire {
  import opened Wrappers
  import opened Connections
  import opened Fields
  import Turns

  // ---- numbers ----------------------------------------------------------------------------------------

  function Backwards(s: Bytes): (r: Bytes)
    ensures |r| == |s| && forall i :: 0 <= i < |s| ==> r[i] == s[|s| - 1 - i]
  {
    seq(|s|, i requires 0 <= i < |s| => s[|s| - 1 - i])
  }

  function FromLittle(s: Bytes): nat {
    if s == [] then 0 else s[0] as int + 256 * FromLittle(s[1..])
  }

  /** Backwards for `i` bytes at either end. */
  ghost function Swapped(s: Bytes, i: nat): (r: Bytes)
    ensures |r| == |s|
  {
    seq(|s|, k requires 0 <= k < |s| => if k < i || k >= |s| - i then s[|s| - 1 - k] else s[k])
  }

  lemma SwapOne(s: Bytes, i: nat)
    requires 2 * i + 1 < |s|
    ensures var n, r := |s|, Swapped(s, i);
            r[i] == s[i] && r[n - 1 - i] == s[n - 1 - i] && Swapped(s, i + 1) == r[i := s[n - 1 - i]][n - 1 - i := s[i]]
  {
  }

  lemma AllSwapped(s: Bytes)
    ensures Swapped(s, 0) == s && Swapped(s, |s| / 2) == Backwards(s)
  {
  }

  /** reorder, on a host that keeps the least significant byte first. */
  method Reorder(b: array<Octet>)
    modifies b
    ensures b[..] == Backwards(old(b[..]))
  {
    hide Swapped, Backwards;
    var n := b.Length;
    ghost var before := b[..];
    AllSwapped(before);
    for i := 0 to n / 2
      invariant b[..] == Swapped(before, i)
    {
      SwapOne(before, i);
      ghost var now := b[..];
      var t := b[i];
      b[i] := b[n - 1 - i];
      b[n - 1 - i] := t;
      assert b[..] == now[i := now[n - 1 - i]][n - 1 - i := now[i]];
    }
  }

  lemma {:induction false} BackwardsLittle(v: nat, n: nat)
    ensures Backwards(Little(v, n)) == Big(v, n)
  {
    if n > 0 {
      BackwardsLittle(v / 256, n - 1);
      var s := Little(v, n);
      forall i | 0 <= i < n ensures Backwards(s)[i] == Big(v, n)[i] {
        if i < n - 1 { assert Backwards(s)[i] == s[n - 1 - i] == Little(v / 256, n - 1)[n - 2 - i]; }
      }
    }
  }

  lemma {:induction false} LittleBackwards(s: Bytes)
    ensures FromLittle(Backwards(s)) == FromBig(s)
  {
    if s != [] {
      var n := |s| - 1;
      LittleBackwards(s[..n]);
      assert Backwards(s)[1..] == Backwards(s[..n]);
    }
  }

  /** wr_be: `n` bytes of a number, the way round the wire wants them. */
  method WriteBig(c: Conn, v: nat, n: nat) returns (ok: bool)
    requires c.Valid() && n <= 16
    modifies c, c.out
    ensures c.OnlyWrites(ok) && (ok ==> c.written == old(c.written) + Big(v, n))
  {
    var tmp := new Octet[n](i requires 0 <= i < n => Little(v, n)[i]);
    assert tmp[..] == Little(v, n);
    Reorder(tmp);
    BackwardsLittle(v, n);
    ok := c.Write(tmp[..]);
  }

  /** rd_be */
  method ReadBig(c: Conn, n: nat) returns (ok: bool, v: nat)
    requires c.Valid()
    modifies c, c.input
    ensures c.OnlyReads(ok)
    ensures ok ==> n <= old(|c.Unread()|) && v == FromBig(old(c.Unread())[..n]) && c.Unread() == old(c.Unread())[n..]
    ensures old(c.open && Calm(c.script)) && n <= old(|c.Unread()|) ==> ok
  {
    var got;
    ok, got := c.Read(n);
    if !ok { return false, 0; }
    var tmp := new Octet[n](i requires 0 <= i < n => got[i]);
    assert tmp[..] == got;
    Reorder(tmp);
    LittleBackwards(got);
    v := FromLittle(tmp[..]);
    assert (got + c.Unread())[..n] == got && (got + c.Unread())[n..] == c.Unread();
  }

  // ---- writing values --------------------------------------------------------------------------------------

  /** wr_field */
  method WriteScalar(c: Conn, d: Octet, v: nat, n: nat) returns (ok: bool)
    requires c.Valid() && n <= 16
    modifies c, c.out
    ensures c.OnlyWrites(ok) && (ok ==> c.written == old(c.written) + ([d] + Big(v, n)))
  {
    ok := c.Write([d]);
    if !ok { return; }
    ok := WriteBig(c, v, n);
    assert (old(c.written) + [d]) + Big(v, n) == old(c.written) + ([d] + Big(v, n));
  }

  /** wr_std_string and wr_std_text: a length of `w` bytes, then the bytes. */
  method WriteCounted(c: Conn, s: Bytes, w: nat) returns (ok: bool)
    requires c.Valid() && w <= 16
    modifies c, c.out
    ensures c.OnlyWrites(ok) && (ok ==> c.written == old(c.written) + (Big(|s|, w) + s))
  {
    ok := WriteBig(c, |s|, w);
    if !ok { return; }
    if |s| > 0 { ok := c.Write(s); }
    assert (old(c.written) + Big(|s|, w)) + s == old(c.written) + (Big(|s|, w) + s);
  }

  /** zg_write_dvector: the count, then each double as a field of its own. */
  method WriteDoubles(c: Conn, xs: seq<nat>) returns (ok: bool)
    requires c.Valid() && |xs| < Pow256(4)
    modifies c, c.out
    ensures c.OnlyWrites(ok) && (ok ==> c.written == old(c.written) + Encoded(Many(DOUBLES, DoubleFields(xs))))
  {
    hide Pow256, Big, DoubleFields, Encoded, EncodedAll;
    ok := WriteScalar(c, DOUBLES, |xs|, 4);
    if !ok { return; }
    ghost var head := c.written;
    var i := 0;
    DoublesSoFar(xs);
    while i < |xs|
      invariant 0 <= i <= |xs| && c.OnlyWrites(true) && c.written == head + EncodedAll(DoubleFields(xs[..i]))
    {
      ok := WriteScalar(c, DOUBLE, xs[i], 8);
      if !ok { return; }
      OneMore(xs, i);
      Associate(head, EncodedAll(DoubleFields(xs[..i])), [DOUBLE] + Big(xs[i], 8));
      i := i + 1;
    }
    assert xs[..i] == xs;
    Associate(old(c.written), [DOUBLES] + Big(|xs|, 4), EncodedAll(DoubleFields(xs)));
  }

  lemma Associate(a: Bytes, b: Bytes, c: Bytes)
    ensures (a + b) + c == a + (b + c)
  {
  }

  lemma DoublesSoFar(xs: seq<nat>)
    ensures EncodedAll(DoubleFields(xs[..0])) == []
    ensures Encoded(Many(DOUBLES, DoubleFields(xs))) == ([DOUBLES] + Big(|xs|, 4)) + EncodedAll(DoubleFields(xs))
  {
    hide Big;
  }

  lemma OneMore(xs: seq<nat>, i: nat)
    requires i < |xs|
    ensures EncodedAll(DoubleFields(xs[..i + 1])) == EncodedAll(DoubleFields(xs[..i])) + ([DOUBLE] + Big(xs[i], 8))
  {
    hide Big;
    var fs := DoubleFields(xs[..i + 1]);
    assert fs == DoubleFields(xs[..i]) + [DoubleField(xs[i])];
    AllAppend(DoubleFields(xs[..i]), DoubleField(xs[i]));
    assert Big(1, 0) + Big(xs[i], 8) == Big(xs[i], 8) by { NoBytes(1); }
  }

  lemma NoBytes(v: nat)
    ensures Big(v, 0) == []
  {
  }

  lemma {:induction false} AllAppend(fs: seq<Field>, f: Field)
    ensures EncodedAll(fs + [f]) == EncodedAll(fs) + Encoded(f)
  {
    hide Encoded;
    if fs == [] {
      assert (fs + [f])[1..] == [];
      assert Encoded(f) + EncodedAll([]) == Encoded(f);
    } else {
      assert (fs + [f])[1..] == fs[1..] + [f];
      AllAppend(fs[1..], f);
      assert Encoded(fs[0]) + (EncodedAll(fs[1..]) + Encoded(f)) == (Encoded(fs[0]) + EncodedAll(fs[1..])) + Encoded(f);
    }
  }

  /** Too long a string or text is refused before anything goes out. */
  predicate TooLong(v: Value) {
    (v.StringV? && |v.s| > 255) || (v.TextV? && |v.t| > 65535)
  }

  predicate IsScalar(v: Value) {
    v.BoolV? || v.IntV? || v.LongV? || v.DoubleV?
  }

  /** The descriptor, the number and the width that a scalar goes out with. */
  function ScalarOf(v: Value): (Octet, nat, nat)
    requires IsScalar(v) && Writable(v)
  {
    match v
    case BoolV(b) => (BOOL, if b then 1 else 0, 1)
    case IntV(i) => PatternReadsBack(i, 4); (INT, Pattern(i, 4), 4)
    case LongV(l) => PatternReadsBack(l, 8); (LONG, Pattern(l, 8), 8)
    case DoubleV(bits) => (DOUBLE, bits, 8)
  }

  lemma ScalarBytes(v: Value)
    requires IsScalar(v) && Writable(v)
    ensures var (d, x, n) := ScalarOf(v); n <= 16 && Encoded(FieldOf(v)) == [d] + Big(x, n)
  {
    hide Pow256, Big, Pattern;
    NoBytes(1);
    if v.BoolV? { OneByte(if v.b then 1 else 0); }
  }

  lemma CharsBytes(v: Value)
    requires Writable(v)
    ensures v.StringV? ==> Encoded(FieldOf(v)) == [STRING] + (Big(|v.s|, 1) + v.s)
    ensures v.TextV? ==> Encoded(FieldOf(v)) == [TEXT] + (Big(|v.t|, 2) + v.t)
    ensures v.DoublesV? ==> FieldOf(v) == Many(DOUBLES, DoubleFields(v.v)) && |v.v| < Pow256(4)
  {
    hide Pow256, Big;
  }

  /** The zg_write_* calls: exactly the field is written; a refused value leaves the connection as it was. */
  method WriteValue(c: Conn, v: Value) returns (ok: bool)
    requires c.Valid() && (TooLong(v) || Writable(v))
    modifies c, c.out
    ensures TooLong(v) ==> !ok && c.Valid() && c.written == old(c.written) && c.sent == old(c.sent)
    ensures TooLong(v) ==> c.open == old(c.open) && c.held == old(c.held)
    ensures !TooLong(v) ==> c.OnlyWrites(ok) && (ok ==> c.written == old(c.written) + Encoded(FieldOf(v)))
  {
    hide Pow256, Big, Encoded, FieldOf, Writable, ScalarOf, DoubleFields;
    if TooLong(v) { return false; }
    CharsBytes(v);
    if IsScalar(v) {
      ScalarBytes(v);
      var (d, x, n) := ScalarOf(v);
      ok := WriteScalar(c, d, x, n);
    } else if v.StringV? {
      ok := WriteChars(c, STRING, v.s, 1);
    } else if v.TextV? {
      ok := WriteChars(c, TEXT, v.t, 2);
    } else {
      ok := WriteDoubles(c, v.v);
    }
  }

  lemma OneByte(v: Octet)
    ensures Big(v, 1) == [v]
  {
    assert Big(v / 256, 0) == [];
  }

  method WriteChars(c: Conn, d: Octet, s: Bytes, w: nat) returns (ok: bool)
    requires c.Valid() && w <= 16
    modifies c, c.out
    ensures c.OnlyWrites(ok) && (ok ==> c.written == old(c.written) + ([d] + (Big(|s|, w) + s)))
  {
    ok := c.Write([d]);
    if !ok { return; }
    ok := WriteCounted(c, s, w);
    assert (old(c.written) + [d]) + (Big(|s|, w) + s) == old(c.written) + ([d] + (Big(|s|, w) + s));
  }

  // ---- reading values ------------------------------------------------------------------------------------

  /** field_head */
  method ReadHead(c: Conn) returns (ok: bool, d: Octet, isNull: bool)
    requires c.Valid()
    modifies c, c.input
    ensures c.OnlyReads(ok)
    ensures ok ==>
      old(c.Unread()) != [] && d == old(c.Unread())[0] && isNull == IsNull(d) && c.Unread() == old(c.Unread())[1..]
    ensures old(c.open && Calm(c.script) && c.Unread() != []) ==> ok
  {
    var got;
    ok, got := c.Read(1);
    if !ok { return false, 0, false; }
    assert (got + c.Unread())[1..] == c.Unread();
    d := got[0];
    isNull := IsNull(d);
  }

  /** rd_scalar, and with it zg_read_bool, zg_read_int, zg_read_long and zg_read_double. */
  method ReadScalar(c: Conn, n: nat) returns (ok: bool, isNull: bool, v: nat)
    requires c.Valid()
    modifies c, c.input
    ensures c.OnlyReads(ok)
    ensures ok ==> Scalar(old(c.Unread()), n) == Some(Got(isNull, v, c.Unread()))
    ensures old(c.open && Calm(c.script)) && Scalar(old(c.Unread()), n).Some? ==> ok
  {
    hide FromBig;
    ghost var s := c.Unread();
    var d;
    ok, d, isNull := ReadHead(c);
    v := 0;
    if !ok || isNull { return; }
    ok, v := ReadBig(c, n);
    if ok { assert s[1..][..n] == s[1..1 + n] && s[1..][n..] == s[1 + n..]; }
  }

  /** rd_std_string: a value too long for the caller's buffer is still taken off the wire. */
  method ReadCounted(c: Conn, w: nat, cap: nat) returns (ok: bool, v: Bytes)
    requires c.Valid() && c.open
    modifies c, c.input
    ensures c.OnlyReads(ok || c.open)
    ensures ok ==> c.open && Counted(old(c.Unread()), w) == Some((v, c.Unread())) && |v| < cap
    ensures !ok && c.open ==> var r := Counted(old(c.Unread()), w);
            r.Some? && r.value.1 == c.Unread() && |r.value.0| >= cap
    ensures old(Calm(c.script)) && Counted(old(c.Unread()), w).Some? ==> c.open
  {
    hide FromBig, Counted;
    ghost var s := c.Unread();
    CountedAt(s, w);
    var n;
    v := [];
    ok, n := ReadBig(c, w);
    if !ok { return; }
    if n + 1 > cap {
      ok := c.Skip(n);
      return false, [];
    }
    ok, v := c.Read(n);
    if ok {
      assert (v + c.Unread())[..n] == v && (v + c.Unread())[n..] == c.Unread();
    }
  }

  lemma CountedAt(s: Bytes, w: nat)
    ensures |s| < w ==> Counted(s, w) == None
    ensures |s| >= w ==>
      var n, body := FromBig(s[..w]), s[w..];
      Counted(s, w) == if |body| < n then None else Some((body[..n], body[n..]))
  {
    hide FromBig;
    if |s| >= w {
      var n := FromBig(s[..w]);
      if |s| >= w + n { assert s[w..][..n] == s[w..w + n] && s[w..][n..] == s[w + n..]; }
    }
  }

  /** zg_read_string and zg_read_text. */
  method ReadChars(c: Conn, w: nat, cap: nat) returns (ok: bool, isNull: bool, v: Bytes)
    requires c.Valid()
    modifies c, c.input
    ensures c.OnlyReads(ok || c.open)
    ensures ok ==> Chars(old(c.Unread()), w) == Some(Got(isNull, v, c.Unread())) && (isNull || |v| < cap)
    ensures !ok && c.open ==> var r := Chars(old(c.Unread()), w);
            r.Some? && !r.value.isNull && r.value.rest == c.Unread() && |r.value.value| >= cap
    ensures old(c.open && Calm(c.script)) && Chars(old(c.Unread()), w).Some? ==> c.open
  {
    hide Counted;
    var d;
    v := [];
    ok, d, isNull := ReadHead(c);
    if !ok || isNull { return; }
    ok, v := ReadCounted(c, w, cap);
  }

  /** zg_read_dvector: what it makes of the stream, and where it leaves it, in each outcome. */
  method ReadDoubles(c: Conn, cap: nat) returns (ok: bool, r: VectorRead)
    requires c.Valid()
    modifies c, c.input
    ensures c.OnlyReads(ok)
    ensures ok ==> VectorOf(old(c.Unread()), cap) == Some((r, c.Unread()))
    ensures old(c.open && Calm(c.script)) && VectorOf(old(c.Unread()), cap).Some? ==> ok
  {
    hide FromBig, Doubles;
    ghost var s := c.Unread();
    var d, isNull;
    r := NullVector;
    ok, d, isNull := ReadHead(c);
    if !ok || isNull { return; }
    if ScaleOf(d) != Vector32 { return true, NotVector; }
    var n;
    ok, n := ReadBig(c, 4);
    if !ok { return; }
    assert s[1..][..4] == s[1..5] && s[1..][4..] == s[5..];
    if n > cap { return true, TooWide; }
    var values;
    ok, values := ReadElements(c, n);
    r := Doubled(values);
  }

  /** Reading a field as a vector leaves what follows it at the front exactly when it is taken whole. */
  method ReadVector(c: Conn, cap: nat, ghost f: Field, ghost next: Bytes) returns (ok: bool, r: VectorRead)
    requires c.Valid() && c.Unread() == Encoded(f) + next && Formed(f)
    modifies c, c.input
    ensures c.OnlyReads(ok) && (ok ==> VectorOf(Encoded(f) + next, cap) == Some((r, c.Unread())))
    ensures ok ==> (c.Unread() == next <==> TakenWhole(f, cap))
    ensures old(c.open && Calm(c.script)) && TakenWhole(f, cap) ==> ok
  {
    hide Formed, Encoded, VectorOf, TakenWhole;
    VectorInStep(f, cap, next);
    ok, r := ReadDoubles(c, cap);
  }

  method ReadElements(c: Conn, n: nat) returns (ok: bool, values: seq<nat>)
    requires c.Valid() && c.open
    modifies c, c.input
    ensures c.OnlyReads(ok)
    ensures ok ==> Doubles(old(c.Unread()), n) == Some((values, c.Unread()))
    ensures old(Calm(c.script)) && Doubles(old(c.Unread()), n).Some? ==> ok
  {
    hide FromBig;
    ghost var s := c.Unread();
    values, ok := [], true;
    var i := 0;
    assert Doubles(s, n).Some? ==> [] + Doubles(s, n).value.0 == Doubles(s, n).value.0;
    while i < n
      invariant 0 <= i <= n && c.OnlyReads(true)
      invariant Doubles(s, n) == Then(values, Doubles(c.Unread(), n - i))
    {
      ghost var here := c.Unread();
      var d, isNull, v;
      ok, d, isNull := ReadHead(c);
      if !ok { return; }
      ok, v := ReadBig(c, 8);
      if !ok { return; }
      assert here[1..][..8] == here[1..9] && here[1..][8..] == here[9..];
      DoublesStep(values, v, here, n - i);
      values := values + [v];
      i := i + 1;
    }
    assert values + [] == values;
  }

  /** Values already read, before those still to come. */
  ghost function Then(xs: seq<nat>, r: Option<(seq<nat>, Bytes)>): Option<(seq<nat>, Bytes)> {
    match r
    case None => None
    case Some((ys, rest)) => Some((xs + ys, rest))
  }

  lemma DoublesStep(xs: seq<nat>, v: nat, s: Bytes, n: nat)
    requires n > 0 && |s| >= 9 && v == FromBig(s[1..9])
    ensures Then(xs, Doubles(s, n)) == Then(xs + [v], Doubles(s[9..], n - 1))
  {
    hide FromBig;
    match Doubles(s[9..], n - 1)
    case None =>
    case Some((ys, rest)) =>
      assert xs + ([v] + ys) == (xs + [v]) + ys;
  }

  // ---- skipping and draining --------------------------------------------------------------------------------

  /** zg_skip_field: one field of any type, and exactly that. */
  method SkipField(c: Conn) returns (ok: bool)
    requires c.Valid()
    modifies c, c.input
    ensures c.OnlyReads(ok)
    ensures ok ==>
      FieldLength(old(c.Unread())).Some? && c.Unread() == old(c.Unread())[FieldLength(old(c.Unread())).value..]
    ensures old(c.open && Calm(c.script)) && FieldLength(old(c.Unread())).Some? ==> ok
    decreases |c.Unread()|, 0
  {
    hide FromBig, FieldLength, BodyLength, CountWidth, ScaleOf, IsNull;
    ghost var s := c.Unread();
    HeadLength(s);
    var d, isNull;
    ok, d, isNull := ReadHead(c);
    if !ok || isNull { return; }
    var w, count := CountWidth(ScaleOf(d)), 1;
    ok, count := ReadCount(c, w);
    if !ok { return; }
    assert s[1..][..w] == s[1..1 + w] && s[1..][w..] == s[1 + w..];
    ok := SkipBody(c, d, count);
    if ok { assert s[1 + w..][BodyLength(d, count, s[1 + w..]).value..] == s[FieldLength(s).value..]; }
  }

  /** The count of a field's elements: one when it is not written. */
  method ReadCount(c: Conn, w: nat) returns (ok: bool, count: nat)
    requires c.Valid() && c.open
    modifies c, c.input
    ensures c.OnlyReads(ok)
    ensures ok ==> w <= old(|c.Unread()|) && count == (if w == 0 then 1 else FromBig(old(c.Unread())[..w]))
    ensures ok ==> c.Unread() == old(c.Unread())[w..]
    ensures old(Calm(c.script)) && w <= old(|c.Unread()|) ==> ok
  {
    hide FromBig;
    if w == 0 { return true, 1; }
    ok, count := ReadBig(c, w);
  }

  /** What follows the descriptor and the count. */
  ghost function BodyLength(d: Octet, count: nat, body: Bytes): (r: Option<nat>)
    ensures r.Some? ==> r.value <= |body|
  {
    if ScaleOf(d) == Vector32 then FieldsLength(body, count)
    else if |body| < count * ElementSize(d) then None else Some(count * ElementSize(d))
  }

  lemma HeadLength(s: Bytes)
    ensures s == [] ==> FieldLength(s) == None
    ensures s != [] && IsNull(s[0]) ==> FieldLength(s) == Some(1)
    ensures s != [] && !IsNull(s[0]) ==>
      var w := CountWidth(ScaleOf(s[0]));
      if |s| < 1 + w then FieldLength(s) == None
      else FieldLength(s) == After(1 + w, BodyLength(s[0], if w == 0 then 1 else FromBig(s[1..1 + w]), s[1 + w..]))
  {
    hide FromBig, FieldsLength, ElementSize;
  }

  method SkipBody(c: Conn, d: Octet, count: nat) returns (ok: bool)
    requires c.Valid() && c.open
    modifies c, c.input
    ensures c.OnlyReads(ok)
    ensures ok ==> BodyLength(d, count, old(c.Unread())).Some?
    ensures ok ==> c.Unread() == old(c.Unread())[BodyLength(d, count, old(c.Unread())).value..]
    ensures old(Calm(c.script)) && BodyLength(d, count, old(c.Unread())).Some? ==> ok
    decreases |c.Unread()|, 2
  {
    hide FieldsLength, ElementSize;
    if ScaleOf(d) == Vector32 {
      ok := SkipFields(c, count);
    } else {
      ok := c.Skip(count * ElementSize(d));
    }
  }

  method SkipFields(c: Conn, n: nat) returns (ok: bool)
    requires c.Valid() && c.open
    modifies c, c.input
    ensures c.OnlyReads(ok)
    ensures ok ==>
      FieldsLength(old(c.Unread()), n).Some? && c.Unread() == old(c.Unread())[FieldsLength(old(c.Unread()), n).value..]
    ensures old(Calm(c.script)) && FieldsLength(old(c.Unread()), n).Some? ==> ok
    decreases |c.Unread()|, 1
  {
    hide FieldLength, FieldsLength;
    ghost var s, k := c.Unread(), 0;
    var i := 0;
    ok := true;
    assert s[0..] == s;
    while i < n
      invariant 0 <= i <= n && c.OnlyReads(true) && 0 <= k <= |s| && c.Unread() == s[k..]
      invariant FieldsLength(s, n) == After(k, FieldsLength(s[k..], n - i))
    {
      FieldsShort(s[k..], n - i);
      ok := SkipField(c);
      if !ok { return; }
      ghost var m := FieldLength(s[k..]).value;
      assert s[k..][m..] == s[k + m..];
      FieldsStep(k, s[k..], n - i);
      k := k + m;
      i := i + 1;
    }
    FieldsNone(s[k..]);
  }

  lemma FieldsNone(s: Bytes)
    ensures FieldsLength(s, 0) == Some(0)
  {
  }

  ghost function After(k: nat, r: Option<nat>): Option<nat> {
    match r case None => None case Some(m) => Some(k + m)
  }

  lemma FieldsShort(s: Bytes, n: nat)
    requires n > 0
    ensures FieldLength(s).None? ==> FieldsLength(s, n).None?
  {
    hide FieldLength;
  }

  lemma FieldsStep(k: nat, s: Bytes, n: nat)
    requires n > 0 && FieldLength(s).Some?
    ensures After(k, FieldsLength(s, n)) ==
            After(k + FieldLength(s).value, FieldsLength(s[FieldLength(s).value..], n - 1))
  {
    hide FieldLength;
  }

  /** zg_result: the next result code; an exception ends the connection. */
  method ReadResult(c: Conn) returns (ok: bool, r: Octet)
    requires c.Valid()
    modifies c, c.input
    ensures c.OnlyReads(ok)
    ensures ok ==>
      old(c.Unread()) != [] && r == old(c.Unread())[0] && r != EXCEPTION && c.Unread() == old(c.Unread())[1..]
    ensures old(c.open && Calm(c.script)) && old(c.Unread()) != [] && old(c.Unread())[0] != EXCEPTION ==> ok
  {
    var got;
    ok, got := c.Read(1);
    if !ok { return false, 0; }
    assert (got + c.Unread())[1..] == c.Unread();
    r := got[0];
    if r == EXCEPTION {
      var n, said;
      ok, n := ReadBig(c, 1);
      if !ok { return; }
      ok, said := c.Read(n);
      if !ok { return; }
      c.Lost();
      ok := false;
    }
  }

  /** zg_columns: one byte of length, then the names; they always fit the caller's 256 bytes. */
  method ReadColumns(c: Conn) returns (ok: bool)
    requires c.Valid()
    modifies c, c.input
    ensures c.OnlyReads(ok)
    ensures ok ==> var s := old(c.Unread()); s != [] && 1 + s[0] as int <= |s| && c.Unread() == s[1 + s[0] as int..]
    ensures old(c.open && Calm(c.script)) ==> var s := old(c.Unread()); (s != [] && 1 + s[0] as int <= |s| ==> ok)
  {
    ghost var s := c.Unread();
    var got, names;
    ok, got := c.Read(1);
    if !ok { return; }
    assert (got + c.Unread())[1..] == c.Unread();
    var n: int := got[0];
    ok, names := c.Read(n);
    if ok { assert s[1..] == names + c.Unread() && s[1..][n..] == s[1 + n..]; }
  }

  lemma PartIs(s: Bytes, columns: nat)
    requires s != []
    ensures var rest, n := s[1..], PartLength(s, columns);
            && (s[0] == CURSOR_OPEN ==>
              n == if rest == [] || |rest| < 1 + rest[0] as int then None else Some(1 + rest[0] as int))
            && (s[0] == CURSOR_FETCH ==> n == FieldsLength(rest, columns)) && (s[0] == RETURN_VALUE ==>
              n == FieldLength(rest))
            && (s[0] !in {CURSOR_OPEN, CURSOR_FETCH, RETURN_VALUE, EXCEPTION} ==> n == Some(0))
  {
    hide FieldLength, FieldsLength;
  }

  /** One turn of zg_drain's loop, after a result code that is not the last. */
  method DrainPart(c: Conn, r: Octet, columns: nat, ghost s: Bytes) returns (ok: bool)
    requires c.Valid() && c.open && s == [r] + c.Unread() && r != EXCEPTION
    modifies c, c.input
    ensures c.OnlyReads(ok)
    ensures ok ==> PartLength(s, columns).Some? && c.Unread() == s[1 + PartLength(s, columns).value..]
    ensures old(Calm(c.script)) && PartLength(s, columns).Some? ==> ok
  {
    hide FieldLength, FieldsLength, PartLength;
    ghost var rest := c.Unread();
    assert s[1..] == rest && s[0] == r;
    PartIs(s, columns);
    if r == CURSOR_OPEN {
      ok := ReadColumns(c);
      if ok { assert rest[1 + rest[0] as int..] == s[1 + (1 + rest[0] as int)..]; }
    } else if r == CURSOR_FETCH {
      ok := SkipFields(c, columns);
      if ok { assert rest[FieldsLength(rest, columns).value..] == s[1 + FieldsLength(rest, columns).value..]; }
    } else if r == RETURN_VALUE {
      ok := SkipField(c);
      if ok { assert rest[FieldLength(rest).value..] == s[1 + FieldLength(rest).value..]; }
    } else {
      ok := true;
    }
  }

  lemma ReplyAt(s: Bytes, columns: nat)
    ensures s == [] || s[0] == EXCEPTION ==> ReplyLength(s, columns) == None
    ensures s != [] && s[0] == DONE ==> ReplyLength(s, columns) == Some(1)
    ensures s != [] && s[0] != DONE ==>
      ReplyLength(s, columns) ==
        match PartLength(s, columns) case None => None case Some(k) => After(1 + k, ReplyLength(s[1 + k..], columns))
  {
    hide FieldLength, FieldsLength;
  }

  /** One result of a reply and what it carries. */
  method DrainOne(c: Conn, columns: nat) returns (ok: bool, done: bool)
    requires c.Valid()
    modifies c, c.input
    ensures c.OnlyReads(ok)
    ensures ok ==> old(c.Unread()) != [] && (done <==> old(c.Unread())[0] == DONE)
    ensures ok && done ==> c.Unread() == old(c.Unread())[1..]
    ensures ok && !done ==> var r := PartLength(old(c.Unread()), columns);
            r.Some? && c.Unread() == old(c.Unread())[1 + r.value..]
    ensures old(c.open && Calm(c.script) && c.Unread() != []) ==>
      var s := old(c.Unread()); (s[0] == DONE || (s[0] != EXCEPTION && PartLength(s, columns).Some?) ==> ok)
  {
    hide PartLength;
    ghost var s := c.Unread();
    var r;
    ok, r := ReadResult(c);
    if !ok { return false, false; }
    done := r == DONE;
    if !done {
      assert s == [r] + c.Unread();
      ok := DrainPart(c, r, columns, s);
    }
  }

  /** zg_drain: one whole reply, and exactly that. */
  method Drain(c: Conn, columns: nat) returns (ok: bool)
    requires c.Valid()
    modifies c, c.input
    ensures c.OnlyReads(ok)
    ensures ok ==> ReplyLength(old(c.Unread()), columns).Some?
    ensures ok ==> c.Unread() == old(c.Unread())[ReplyLength(old(c.Unread()), columns).value..]
    ensures old(c.open && Calm(c.script)) && ReplyLength(old(c.Unread()), columns).Some? ==> ok
  {
    hide PartLength, ReplyLength;
    ghost var s, k := c.Unread(), 0;
    var done := false;
    ok := true;
    while !done
      invariant c.Valid() && 0 <= k && Drained(s, columns, k, done, c.Unread())
      invariant c.written == old(c.written) && c.serialised == old(c.serialised) && c.held == old(c.held)
      invariant c.open == old(c.open)
      invariant ok && (k > 0 ==> c.open) && (done ==> k > 0) && (old(Calm(c.script)) ==> Calm(c.script))
      decreases |s| - k, !done
    {
      ghost var here := c.Unread();
      ReplyAt(here, columns);
      ok, done := DrainOne(c, columns);
      if !ok { return; }
      ghost var m := if done then 1 else 1 + PartLength(here, columns).value;
      assert here[m..] == s[k + m..];
      k := k + m;
    }
  }

  /** `k` bytes into a reply: at its end, or with the rest of it ahead. */
  ghost predicate Drained(s: Bytes, columns: nat, k: nat, done: bool, ahead: Bytes) {
    && k <= |s| && ahead == s[k..]
    && ReplyLength(s, columns) == if done then Some(k) else After(k, ReplyLength(ahead, columns))
  }

  /** With the right column count, draining leaves the next reply at the front of the stream. */
  method DrainReply(c: Conn, columns: nat, ghost parts: seq<Part>, ghost next: Bytes) returns (ok: bool)
    requires c.Valid() && c.Unread() == ReplyBytes(parts) + next
    requires forall i :: 0 <= i < |parts| ==> PartFormed(parts[i], columns)
    modifies c, c.input
    ensures c.OnlyReads(ok) && (ok ==> c.Unread() == next)
    ensures old(c.open && Calm(c.script)) ==> ok
  {
    hide PartFormed, ReplyBytes, ReplyLength;
    DrainsOneReply(parts, columns, next);
    ok := Drain(c, columns);
  }

  /** Skipping a field leaves what follows it at the front of the stream. */
  method SkipOver(c: Conn, ghost f: Field, ghost next: Bytes) returns (ok: bool)
    requires c.Valid() && c.Unread() == Encoded(f) + next && Formed(f)
    modifies c, c.input
    ensures c.OnlyReads(ok) && (ok ==> c.Unread() == next)
    ensures old(c.open && Calm(c.script)) ==> ok
  {
    hide Formed, Encoded, FieldLength;
    SkipsOneField(f, next);
    ok := SkipField(c);
  }

  // ---- verbs ------------------------------------------------------------------------------------------------

  datatype Answer = NoTurn | Broken | Refused | Taken

  function NameBytes(name: Bytes): Bytes {
    Big(|name|, 1) + name
  }

  /** A connection as the turn protocol sees it. */
  ghost function Seen(c: Conn, phase: Turns.Phase): Turns.Process
    reads c
  {
    Turns.Process(c.open, c.serialised, c.held, phase)
  }

  /** On a calm socket a verb that has its turn breaks only if the server stops or throws. */
  ghost predicate BrokenByServer(a: Answer, s: Bytes) {
    a.Broken? ==> s == [] || s[0] == EXCEPTION
  }

  /** The steps a verb takes in the turn protocol; `queued` when its bytes were. */
  function VerbActs(p: Turns.Process, ends: bool, granted: bool, a: Answer, queued: bool): seq<Turns.Act> {
    [Turns.Begin(Turns.Verb(ends, true)), Turns.Take(granted)] +
    match a
    case NoTurn => []
    case Broken => if queued then [Turns.Send, Turns.Fail] else [if p.open then Turns.Fail else Turns.Send]
    case _ => [Turns.Send, Turns.Result(a.Taken?)]
  }

  /** Where they leave the connection. */
  function VerbLeaves(p: Turns.Process, ends: bool, a: Answer): Turns.Process {
    match a
    case NoTurn => p
    case Broken => Turns.Process(false, p.serialised, !p.open && p.serialised, Turns.Idle)
    case _ => Turns.Process(true, p.serialised, p.serialised, if a.Taken? && ends then Turns.Ending else Turns.Idle)
  }

  lemma VerbSteps(p: Turns.Process, ends: bool, granted: bool, a: Answer, queued: bool)
    requires p.phase.Idle? && (p.held ==> p.serialised) && (a.NoTurn? <==> p.serialised && !p.held && !granted)
    requires a.Refused? || a.Taken? || queued ==> p.open
    ensures var acts := VerbActs(p, ends, granted, a, queued);
            Turns.LocalRun(p, acts) == VerbLeaves(p, ends, a) && Turns.Possible(p, acts)
  {
    hide Turns.LocalRun, Turns.Possible;
    var two := [Turns.Begin(Turns.Verb(ends, true)), Turns.Take(granted)];
    StepsOf(p, Turns.Verb(ends, true), granted);
    match a
    case NoTurn => assert two + [] == two;
    case Broken =>
      if queued { MoreSteps(p, two, Turns.Send, Turns.Fail); }
      else { Turns.LocalMore(p, two, if p.open then Turns.Fail else Turns.Send); }
    case _ => MoreSteps(p, two, Turns.Send, Turns.Result(a.Taken?));
  }

  lemma MoreSteps(p: Turns.Process, acts: seq<Turns.Act>, a: Turns.Act, b: Turns.Act)
    ensures Turns.LocalRun(p, acts + [a, b]) == Turns.Local(Turns.Local(Turns.LocalRun(p, acts), a), b)
    ensures Turns.Possible(p, acts + [a, b]) <==>
      && Turns.Possible(p, acts) && Turns.Enabled(Turns.LocalRun(p, acts), a)
      && Turns.Enabled(Turns.Local(Turns.LocalRun(p, acts), a), b)
  {
    Turns.LocalMore(p, acts, a);
    Turns.LocalMore(p, acts + [a], b);
    assert acts + [a] + [b] == acts + [a, b];
  }

  lemma StepsOf(p: Turns.Process, verb: Turns.Verb, granted: bool)
    requires p.phase.Idle?
    ensures Turns.LocalRun(p, [Turns.Begin(verb), Turns.Take(granted)]) ==
            Turns.Local(Turns.Local(p, Turns.Begin(verb)), Turns.Take(granted))
    ensures Turns.Possible(p, [Turns.Begin(verb), Turns.Take(granted)])
  {
    MoreSteps(p, [], Turns.Begin(verb), Turns.Take(granted));
    assert [] + [Turns.Begin(verb), Turns.Take(granted)] == [Turns.Begin(verb), Turns.Take(granted)];
  }

  /** What a verb does to the connection. */
  method Ask(c: Conn, name: Bytes, granted: bool) returns (a: Answer, ghost queued: bool)
    requires c.Valid() && |name| <= 255
    modifies c, c.input, c.out
    ensures c.Valid() && c.serialised == old(c.serialised)
    ensures a.NoTurn? <==> c.serialised && !old(c.held) && !granted
    ensures a.NoTurn? ==> !c.held && c.written == old(c.written) && c.sent == old(c.sent) && c.open == old(c.open)
    ensures a.Refused? || a.Taken? ==>
      c.open && old(c.open) && c.held == c.serialised && c.written == old(c.written) + NameBytes(name)
    ensures a.Broken? ==>
      !c.open && (old(c.open) ==> !c.held) && (!old(c.open) ==> c.held == c.serialised && c.written == old(c.written))
    ensures queued ==> old(c.open)
    ensures old(c.open && Calm(c.script)) ==> Calm(c.script) && BrokenByServer(a, old(c.Unread()))
    ensures a.Refused? || a.Taken? ==>
      old(c.Unread()) != [] && (a.Taken? <==> old(c.Unread())[0] == DONE) && c.Unread() == old(c.Unread())[1..]
  {
    hide Big;
    var ok := c.TakeTurn(granted);
    if !ok { return NoTurn, false; }
    ok := WriteCounted(c, name, 1);
    if !ok { return Broken, false; }
    var r;
    ok, r := ReadResult(c);
    if !ok { return Broken, true; }
    a := if r == DONE then Taken else Refused;
    queued := true;
  }

  /**
   verb: nothing is written without the turn. A refused verb keeps it, and so does one tried on a
   connection that was already closed. `acts` are the steps this takes in the turn protocol.
   */
  method Verb(c: Conn, name: Bytes, ghost ends: bool, granted: bool) returns (a: Answer, ghost acts: seq<Turns.Act>)
    requires c.Valid() && |name| <= 255
    modifies c, c.input, c.out
    ensures c.Valid() && c.serialised == old(c.serialised)
    ensures a.NoTurn? <==> c.serialised && !old(c.held) && !granted
    ensures a.NoTurn? ==> !c.held && c.written == old(c.written) && c.sent == old(c.sent) && c.open == old(c.open)
    ensures a.Refused? || a.Taken? ==>
      c.open && old(c.open) && c.held == c.serialised && c.written == old(c.written) + NameBytes(name)
    ensures a.Broken? ==>
      !c.open && (old(c.open) ==> !c.held) && (!old(c.open) ==> c.held == c.serialised && c.written == old(c.written))
    ensures Seen(c, if a.Taken? && ends then Turns.Ending else Turns.Idle) ==
            Turns.LocalRun(old(Seen(c, Turns.Idle)), acts)
    ensures Turns.Possible(old(Seen(c, Turns.Idle)), acts)
    ensures old(c.open && Calm(c.script)) ==> Calm(c.script) && BrokenByServer(a, old(c.Unread()))
    ensures a.Refused? || a.Taken? ==>
      old(c.Unread()) != [] && (a.Taken? <==> old(c.Unread())[0] == DONE) && c.Unread() == old(c.Unread())[1..]
  {
    hide Turns.LocalRun, Turns.Possible, VerbActs;
    ghost var p := Seen(c, Turns.Idle);
    ghost var queued;
    a, queued := Ask(c, name, granted);
    acts := VerbActs(p, ends, granted, a, queued);
    VerbSteps(p, ends, granted, a, queued);
  }

  /**
   simple_verb, for commit and rollback: once the server took the verb the turn goes back, whatever it
   then answers.
   */
  method SimpleVerb(c: Conn, name: Bytes, granted: bool) returns (a: Answer, ghost acts: seq<Turns.Act>)
    requires c.Valid() && |name| <= 255
    modifies c, c.input, c.out
    ensures c.Valid() && c.serialised == old(c.serialised)
    ensures a.NoTurn? <==> c.serialised && !old(c.held) && !granted
    ensures c.held ==> a.Refused? || (a.Broken? && !old(c.open))
    ensures a.Refused? && c.held ==> c.open && c.written == old(c.written) + NameBytes(name)
    ensures a.Taken? ==> c.open && c.written == old(c.written) + NameBytes(name)
    ensures Seen(c, Turns.Idle) == Turns.LocalRun(old(Seen(c, Turns.Idle)), acts)
    ensures Turns.Possible(old(Seen(c, Turns.Idle)), acts)
    ensures old(c.open && Calm(c.script)) && a.Broken? ==>
      var s := old(c.Unread()); |s| < 2 || s[0] == EXCEPTION || (s[0] == DONE && s[1] == EXCEPTION)
    ensures a.Taken? ==>
      |old(c.Unread())| >= 2 && old(c.Unread())[..2] == [DONE, DONE] && c.Unread() == old(c.Unread())[2..]
  {
    hide Turns.LocalRun, Turns.Possible;
    a, acts := Verb(c, name, true, granted);
    if !a.Taken? { return; }
    var ok, r := ReadResult(c);
    c.GiveTurn();
    ghost var act := if ok then Turns.Finish else Turns.Fail;
    Turns.LocalMore(old(Seen(c, Turns.Idle)), acts, act);
    acts := acts + [act];
    if !ok { return Broken, acts; }
    a := if r == DONE then Taken else Refused;
  }
}
