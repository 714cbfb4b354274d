/**
 Fields on the Zigurat wire (client/zigurat.c): a type-descriptor byte that says whether the value
 is null, how it is counted and how wide its elements are, then the value, most significant byte
 first. What a field is, what skipping one takes off a stream, and what reading one gives.
 */
module Fields {
  import opened Wrappers
  import opened Connections

  type Bytes = seq<Octet>

  // ---- numbers, most significant byte first -----------------------------------------------------------

  function Pow256(n: nat): nat {
    if n == 0 then 1 else Pow256(n - 1) * 256
  }

  function Big(v: nat, n: nat): (s: Bytes)
    ensures |s| == n
  {
    if n == 0 then [] else Big(v / 256, n - 1) + [v % 256]
  }

  function FromBig(s: Bytes): nat {
    if s == [] then 0 else FromBig(s[..|s| - 1]) * 256 + s[|s| - 1] as int
  }

  lemma {:induction false} BigReadsBack(v: nat, n: nat)
    requires v < Pow256(n)
    ensures FromBig(Big(v, n)) == v
  {
    if n > 0 {
      BigReadsBack(v / 256, n - 1);
      assert Big(v, n)[..n - 1] == Big(v / 256, n - 1);
    }
  }

  /** Two's complement in `n` bytes, and back. */
  function Pattern(v: int, n: nat): int {
    if v < 0 then v + Pow256(n) else v
  }

  function Signed(u: nat, n: nat): int {
    if 2 * u < Pow256(n) then u else u - Pow256(n)
  }

  predicate FitsIn(v: int, n: nat) {
    -(Pow256(n) as int) <= 2 * v < Pow256(n)
  }

  /** The bytes as the host keeps them, least significant first. */
  function Little(v: nat, n: nat): (s: Bytes)
    ensures |s| == n
  {
    if n == 0 then [] else [v % 256] + Little(v / 256, n - 1)
  }

  // ---- descriptors --------------------------------------------------------------------------------------

  datatype Scale = Atom | Counted8 | Counted16 | Vector32

  predicate IsNull(d: Octet) {
    d >= 0x80
  }

  /** Bits 0x60. */
  function ScaleOf(d: Octet): Scale {
    match d / 0x20 % 4
    case 0 => Atom
    case 1 => Counted8
    case 2 => Counted16
    case _ => Vector32
  }

  /** Bits 0x07: elements of no bytes, or of 1, 2, 4, ... 64. */
  function ElementSize(d: Octet): nat {
    match d % 8
    case 0 => 0
    case 1 => 1
    case 2 => 2
    case 3 => 4
    case 4 => 8
    case 5 => 16
    case 6 => 32
    case _ => 64
  }

  function CountWidth(s: Scale): nat {
    match s
    case Atom => 0
    case Counted8 => 1
    case Counted16 => 2
    case Vector32 => 4
  }

  const BOOL: Octet := 0x09
  const INT: Octet := 0x0B
  const LONG: Octet := 0x0C
  const DOUBLE: Octet := 0x1C
  const STRING: Octet := 0x29
  const TEXT: Octet := 0x49
  const DOUBLES: Octet := 0x7C

  // ---- fields ---------------------------------------------------------------------------------------------

  datatype Field =
    | Null(d: Octet)
    | Plain(d: Octet, count: nat, bytes: Bytes)
    | Many(d: Octet, elements: seq<Field>)

  predicate Formed(f: Field) {
    match f
    case Null(d) => IsNull(d)
    case Plain(d, count, bytes) =>
      && !IsNull(d) && ScaleOf(d) != Vector32 && |bytes| == count * ElementSize(d)
      && (if ScaleOf(d) == Atom then count == 1 else count < Pow256(CountWidth(ScaleOf(d))))
    case Many(d, elements) =>
      && !IsNull(d) && ScaleOf(d) == Vector32 && |elements| < Pow256(4)
      && forall i :: 0 <= i < |elements| ==> Formed(elements[i])
  }

  function Encoded(f: Field): (s: Bytes)
    ensures |s| > 0
  {
    match f
    case Null(d) => [d]
    case Plain(d, count, bytes) => [d] + (Big(count, CountWidth(ScaleOf(d))) + bytes)
    case Many(d, elements) => [d] + (Big(|elements|, 4) + EncodedAll(elements))
  }

  function EncodedAll(fs: seq<Field>): Bytes {
    if fs == [] then [] else Encoded(fs[0]) + EncodedAll(fs[1..])
  }

  // ---- skipping ---------------------------------------------------------------------------------------------

  /** How many bytes zg_skip_field takes off the front of `s`; none if `s` ends first. */
  function FieldLength(s: Bytes): (r: Option<nat>)
    ensures r.Some? ==> 0 < r.value <= |s|
    decreases |s|, 0
  {
    if s == [] then None
    else if IsNull(s[0]) then Some(1)
    else
      var w := CountWidth(ScaleOf(s[0]));
      if |s| < 1 + w then None
      else
        var count := if w == 0 then 1 else FromBig(s[1..1 + w]);
        if ScaleOf(s[0]) == Vector32 then
          match FieldsLength(s[1 + w..], count)
          case None => None
          case Some(k) => Some(1 + w + k)
        else
          var n := 1 + w + count * ElementSize(s[0]);
          if |s| < n then None else Some(n)
  }

  function FieldsLength(s: Bytes, n: nat): (r: Option<nat>)
    ensures r.Some? ==> r.value <= |s|
    decreases |s|, n + 1
  {
    if n == 0 then Some(0)
    else
      match FieldLength(s)
      case None => None
      case Some(k) =>
        match FieldsLength(s[k..], n - 1)
        case None => None
        case Some(m) => Some(k + m)
  }

  /** Skipping consumes exactly the bytes of the field at the front, nested vectors and all. */
  lemma {:induction false} SkipsOneField(f: Field, rest: Bytes)
    requires Formed(f)
    ensures FieldLength(Encoded(f) + rest) == Some(|Encoded(f)|)
    decreases f, 0
  {
    match f
    case Null(d) =>
    case Plain(d, count, bytes) =>
      PlainAt(d, count, bytes, rest);
    case Many(d, elements) =>
      ManyAt(d, elements, rest);
      SkipsFields(f, elements, rest);
  }

  lemma {:induction false} SkipsFields(parent: Field, fs: seq<Field>, rest: Bytes)
    requires forall i :: 0 <= i < |fs| ==> fs[i] < parent && Formed(fs[i])
    ensures FieldsLength(EncodedAll(fs) + rest, |fs|) == Some(|EncodedAll(fs)|)
    decreases parent, 0, |fs|
  {
    hide FieldLength, Encoded, Formed;
    if fs != [] {
      var s, tail := EncodedAll(fs) + rest, EncodedAll(fs[1..]) + rest;
      assert s == Encoded(fs[0]) + tail;
      SkipsOneField(fs[0], tail);
      assert s[|Encoded(fs[0])|..] == tail;
      SkipsFields(parent, fs[1..], rest);
    }
  }

  /** The head of a counted field, taken apart. */
  lemma HeadAt(d: Octet, v: nat, w: nat, rest: Bytes)
    requires v < Pow256(w)
    ensures var s := [d] + (Big(v, w) + rest); s[0] == d && FromBig(s[1..1 + w]) == v && s[1 + w..] == rest
  {
    var s := [d] + (Big(v, w) + rest);
    assert s[1..1 + w] == Big(v, w);
    BigReadsBack(v, w);
  }

  lemma PlainAt(d: Octet, count: nat, bytes: Bytes, rest: Bytes)
    requires Formed(Plain(d, count, bytes))
    ensures FieldLength(Encoded(Plain(d, count, bytes)) + rest) == Some(|Encoded(Plain(d, count, bytes))|)
  {
    var w := CountWidth(ScaleOf(d));
    var s := Encoded(Plain(d, count, bytes)) + rest;
    assert s == [d] + (Big(count, w) + (bytes + rest));
    if w > 0 { HeadAt(d, count, w, bytes + rest); }
  }

  lemma ManyAt(d: Octet, elements: seq<Field>, rest: Bytes)
    requires Formed(Many(d, elements))
    ensures var s := Encoded(Many(d, elements)) + rest;
            FieldLength(s) == match FieldsLength(EncodedAll(elements) + rest,
                |elements|) case None => None case Some(k) => Some(5 + k)
  {
    hide Big, FromBig, Pow256, FieldsLength, EncodedAll;
    var s := Encoded(Many(d, elements)) + rest;
    assert s == [d] + (Big(|elements|, 4) + (EncodedAll(elements) + rest));
    HeadAt(d, |elements|, 4, EncodedAll(elements) + rest);
  }

  // ---- values written and read by type ----------------------------------------------------------------------

  /** A double is its 64-bit pattern. */
  datatype Value =
    | BoolV(b: bool)
    | IntV(i: int)
    | LongV(l: int)
    | DoubleV(bits: nat)
    | StringV(s: Bytes)
    | TextV(t: Bytes)
    | DoublesV(v: seq<nat>)

  predicate Writable(v: Value) {
    match v
    case BoolV(_) => true
    case IntV(i) => FitsIn(i, 4)
    case LongV(l) => FitsIn(l, 8)
    case DoubleV(bits) => bits < Pow256(8)
    case StringV(s) => |s| <= 255
    case TextV(t) => |t| <= 65535
    case DoublesV(xs) => |xs| < Pow256(4) && forall i :: 0 <= i < |xs| ==> xs[i] < Pow256(8)
  }

  function DoubleField(bits: nat): Field {
    Plain(DOUBLE, 1, Big(bits, 8))
  }

  /** The field each zg_write_* puts on the wire. */
  function FieldOf(v: Value): Field
    requires Writable(v)
  {
    match v
    case BoolV(b) => Plain(BOOL, 1, [if b then 1 else 0])
    case IntV(i) => Plain(INT, 1, Big(Pattern(i, 4), 4))
    case LongV(l) => Plain(LONG, 1, Big(Pattern(l, 8), 8))
    case DoubleV(bits) => DoubleField(bits)
    case StringV(s) => Plain(STRING, |s|, s)
    case TextV(t) => Plain(TEXT, |t|, t)
    case DoublesV(xs) => Many(DOUBLES, DoubleFields(xs))
  }

  function DoubleFields(xs: seq<nat>): (fs: seq<Field>)
    ensures |fs| == |xs| && forall k :: 0 <= k < |xs| ==> fs[k] == DoubleField(xs[k])
  {
    seq(|xs|, k requires 0 <= k < |xs| => DoubleField(xs[k]))
  }

  lemma Powers()
    ensures Pow256(1) == 0x100 && Pow256(2) == 0x1_0000 && Pow256(4) == 0x1_0000_0000
    ensures Pow256(8) == 0x1_0000_0000_0000_0000
  {
    assert Pow256(2) == Pow256(1) * 256 && Pow256(3) == Pow256(2) * 256 && Pow256(4) == Pow256(3) * 256;
    assert Pow256(5) == Pow256(4) * 256 && Pow256(6) == Pow256(5) * 256 && Pow256(7) == Pow256(6) * 256;
  }

  /** Whatever is written by type can be skipped without knowing the type. */
  lemma WrittenIsFormed(v: Value)
    requires Writable(v)
    ensures Formed(FieldOf(v))
  {
    Powers();
    if v.DoublesV? {
      forall k | 0 <= k < |v.v| ensures Formed(FieldOf(v).elements[k]) {
        assert FieldOf(v).elements[k] == DoubleField(v.v[k]);
      }
    }
  }

  /** What a reader gets: whether the field was null, the value, and the stream after it. */
  datatype Got<T> = Got(isNull: bool, value: T, rest: Bytes)

  /** rd_scalar: the descriptor says only whether the field is null; the caller says how wide it is. */
  function Scalar(s: Bytes, n: nat): Option<Got<nat>> {
    if s == [] then None
    else if IsNull(s[0]) then Some(Got(true, 0, s[1..]))
    else if |s| < 1 + n then None
    else Some(Got(false, FromBig(s[1..1 + n]), s[1 + n..]))
  }

  /** rd_std_string: a length of `w` bytes, then as many bytes. */
  function Counted(s: Bytes, w: nat): Option<(Bytes, Bytes)> {
    if |s| < w then None
    else
      var n := FromBig(s[..w]);
      if |s| < w + n then None else Some((s[w..w + n], s[w + n..]))
  }

  /** zg_read_string (one byte of length) and zg_read_text (two). */
  function Chars(s: Bytes, w: nat): Option<Got<Bytes>> {
    if s == [] then None
    else if IsNull(s[0]) then Some(Got(true, [], s[1..]))
    else
      match Counted(s[1..], w)
      case None => None
      case Some((v, rest)) => Some(Got(false, v, rest))
  }

  /** `n` doubles, each a field whose descriptor is not looked at. */
  function Doubles(s: Bytes, n: nat): Option<(seq<nat>, Bytes)>
    decreases n
  {
    if n == 0 then Some(([], s))
    else if |s| < 9 then None
    else
      match Doubles(s[9..], n - 1)
      case None => None
      case Some((xs, rest)) => Some(([FromBig(s[1..9])] + xs, rest))
  }

  lemma ScalarReadsBack(d: Octet, u: nat, n: nat, rest: Bytes)
    requires !IsNull(d) && ScaleOf(d) == Atom && u < Pow256(n)
    ensures Scalar(Encoded(Plain(d, 1, Big(u, n))) + rest, n) == Some(Got(false, u, rest))
  {
    var s := Encoded(Plain(d, 1, Big(u, n))) + rest;
    assert Big(1, 0) + Big(u, n) == Big(u, n);
    assert s == [d] + (Big(u, n) + rest);
    HeadAt(d, u, n, rest);
  }

  lemma PatternReadsBack(v: int, n: nat)
    requires FitsIn(v, n)
    ensures 0 <= Pattern(v, n) < Pow256(n) && Signed(Pattern(v, n), n) == v
  {
  }

  /** Every number written is read back as itself, and the reader stands after it. */
  lemma NumberReadsBack(v: Value, rest: Bytes)
    requires Writable(v)
    ensures var s := Encoded(FieldOf(v)) + rest;
            match v
            case BoolV(b) => Scalar(s, 1) == Some(Got(false, if b then 1 else 0, rest))
            case IntV(i) => exists u: nat :: Scalar(s, 4) == Some(Got(false, u, rest)) && Signed(u, 4) == i
            case LongV(l) => exists u: nat :: Scalar(s, 8) == Some(Got(false, u, rest)) && Signed(u, 8) == l
            case DoubleV(bits) => Scalar(s, 8) == Some(Got(false, bits, rest))
            case _ => true
  {
    Powers();
    match v
    case BoolV(b) =>
      var u := if b then 1 else 0;
      assert Big(u, 1) == [u];
      ScalarReadsBack(BOOL, u, 1, rest);
    case IntV(i) =>
      PatternReadsBack(i, 4);
      ScalarReadsBack(INT, Pattern(i, 4), 4, rest);
    case LongV(l) =>
      PatternReadsBack(l, 8);
      ScalarReadsBack(LONG, Pattern(l, 8), 8, rest);
    case DoubleV(bits) =>
      ScalarReadsBack(DOUBLE, bits, 8, rest);
    case _ =>
  }

  lemma CountedReadsBack(cs: Bytes, w: nat, rest: Bytes)
    requires |cs| < Pow256(w)
    ensures Counted(Big(|cs|, w) + (cs + rest), w) == Some((cs, rest))
  {
    hide Big, FromBig, Pow256;
    var s := Big(|cs|, w) + (cs + rest);
    BigReadsBack(|cs|, w);
    assert s[..w] == Big(|cs|, w);
    assert s[w..w + |cs|] == cs && s[w + |cs|..] == rest;
  }

  /** So is every string and every text. */
  lemma CharsReadBack(v: Value, rest: Bytes)
    requires Writable(v) && (v.StringV? || v.TextV?)
    ensures var s := Encoded(FieldOf(v)) + rest;
            if v.StringV? then Chars(s, 1) == Some(Got(false, v.s, rest))
            else Chars(s, 2) == Some(Got(false, v.t, rest))
  {
    Powers();
    var w, cs, d := if v.StringV? then 1 else 2, if v.StringV? then v.s else v.t, FieldOf(v).d;
    var s := Encoded(FieldOf(v)) + rest;
    assert s == [d] + (Big(|cs|, w) + (cs + rest));
    CountedReadsBack(cs, w, rest);
    assert s[1..] == Big(|cs|, w) + (cs + rest);
  }

  lemma DoubleAt(bits: nat, rest: Bytes)
    requires bits < Pow256(8)
    ensures var s := Encoded(DoubleField(bits)) + rest; |s| >= 9 && FromBig(s[1..9]) == bits && s[9..] == rest
  {
    hide Pow256;
    assert ScaleOf(DOUBLE) == Atom;
    ScalarReadsBack(DOUBLE, bits, 8, rest);
  }

  /** ... and every vector of doubles. */
  lemma {:induction false} DoublesReadBack(xs: seq<nat>, rest: Bytes)
    requires forall i :: 0 <= i < |xs| ==> xs[i] < Pow256(8)
    ensures Doubles(EncodedAll(DoubleFields(xs)) + rest, |xs|) == Some((xs, rest))
  {
    hide Pow256, Encoded, FromBig;
    var fs := DoubleFields(xs);
    if xs != [] {
      DoublesReadBack(xs[1..], rest);
      assert fs[1..] == DoubleFields(xs[1..]);
      var s, tail := EncodedAll(fs) + rest, EncodedAll(fs[1..]) + rest;
      assert s == Encoded(DoubleField(xs[0])) + tail;
      DoubleAt(xs[0], tail);
      assert [xs[0]] + xs[1..] == xs;
    } else {
      assert EncodedAll(fs) + rest == rest;
    }
  }

  // ---- reading a vector of doubles ------------------------------------------------------------------------

  datatype VectorRead = Doubled(values: seq<nat>) | NullVector | NotVector | TooWide

  /** What zg_read_dvector makes of a stream, and where it leaves it; none if the stream ends first. */
  function VectorOf(s: Bytes, cap: nat): Option<(VectorRead, Bytes)> {
    if s == [] then None
    else if IsNull(s[0]) then Some((NullVector, s[1..]))
    else if ScaleOf(s[0]) != Vector32 then Some((NotVector, s[1..]))
    else if |s| < 5 then None
    else if FromBig(s[1..5]) > cap then Some((TooWide, s[5..]))
    else
      match Doubles(s[5..], FromBig(s[1..5]))
      case None => None
      case Some((xs, rest)) => Some((Doubled(xs), rest))
  }

  /** Elements are taken nine bytes at a time, whatever their descriptors say. */
  lemma {:induction false} DoublesTake(s: Bytes, n: nat)
    ensures Doubles(s, n).Some? <==> 9 * n <= |s|
    ensures 9 * n <= |s| ==> Doubles(s, n).value.1 == s[9 * n..]
    decreases n
  {
    hide FromBig;
    if n > 0 && |s| >= 9 {
      DoublesTake(s[9..], n - 1);
      if 9 * n <= |s| { assert s[9..][9 * (n - 1)..] == s[9 * n..]; }
    }
  }

  lemma {:induction false} EncodedAllLength(fs: seq<Field>)
    ensures |EncodedAll(fs)| >= |fs|
  {
    hide Encoded;
    if fs != [] { EncodedAllLength(fs[1..]); }
  }

  /** A vector at the front of a stream. */
  lemma VectorAt(d: Octet, elements: seq<Field>, cap: nat, rest: Bytes)
    requires Formed(Many(d, elements))
    ensures var body := EncodedAll(elements) + rest;
            VectorOf(Encoded(Many(d, elements)) + rest, cap) ==
              if |elements| > cap then Some((TooWide, body))
              else match Doubles(body, |elements|) case None => None case Some((xs, tail)) => Some((Doubled(xs), tail))
  {
    hide Big, FromBig, Pow256, EncodedAll, Doubles, Encoded, Formed, ScaleOf;
    var s := Encoded(Many(d, elements)) + rest;
    ManyBytes(d, elements, rest);
    HeadAt(d, |elements|, 4, EncodedAll(elements) + rest);
  }

  lemma ManyBytes(d: Octet, elements: seq<Field>, rest: Bytes)
    requires Formed(Many(d, elements))
    ensures Encoded(Many(d, elements)) + rest == [d] + (Big(|elements|, 4) + (EncodedAll(elements) + rest))
    ensures !IsNull(d) && ScaleOf(d) == Vector32 && |elements| < Pow256(4)
  {
    hide Big, Pow256, EncodedAll;
  }

  /** The condition under which reading a field as a vector of doubles leaves the stream after it. */
  ghost predicate TakenWhole(f: Field, cap: nat) {
    || |Encoded(f)| == 1
    || (f.Many? && |f.elements| <= cap && |EncodedAll(f.elements)| == 9 * |f.elements|)
  }

  /**
   A finding. zg_read_dvector stands after the field it was given if and only if the field is one
   byte long, as every null is, or is a vector the caller has room for whose elements come to nine
   bytes each. In every other case what is read next is not the next field.
   */
  lemma VectorInStep(f: Field, cap: nat, rest: Bytes)
    requires Formed(f)
    ensures var v := VectorOf(Encoded(f) + rest, cap);
            (v.Some? && v.value.1 == rest) <==> TakenWhole(f, cap)
  {
    hide Big, FromBig, Pow256, Doubles;
    var s := Encoded(f) + rest;
    match f
    case Null(d) => assert s[1..] == rest;
    case Plain(d, count, bytes) =>
      assert s[0] == d;
      if |Encoded(f)| == 1 { assert s[1..] == rest; } else { assert |s[1..]| != |rest|; }
    case Many(d, elements) =>
      VectorAt(d, elements, cap, rest);
      var body, n := EncodedAll(elements) + rest, |elements|;
      EncodedAllLength(elements);
      DoublesTake(body, n);
      if n <= cap && 9 * n <= |body| {
        if |EncodedAll(elements)| == 9 * n { assert body[9 * n..] == rest; } else { assert |body[9 * n..]| != |rest|; }
      }
  }

  lemma {:induction false} DoublesAreNine(xs: seq<nat>)
    ensures |EncodedAll(DoubleFields(xs))| == 9 * |xs|
  {
    if xs != [] {
      DoublesAreNine(xs[1..]);
      assert DoubleFields(xs)[1..] == DoubleFields(xs[1..]);
      assert ScaleOf(DOUBLE) == Atom;
    }
  }

  /** A vector the client wrote is read back whole exactly when the reader has room for it. */
  lemma WrittenVectorReadsBack(xs: seq<nat>, cap: nat, rest: Bytes)
    requires Writable(DoublesV(xs))
    ensures var v := VectorOf(Encoded(FieldOf(DoublesV(xs))) + rest, cap);
            && (|xs| <= cap ==> v == Some((Doubled(xs), rest)))
            && (|xs| > cap ==> v == Some((TooWide, EncodedAll(DoubleFields(xs)) + rest)) && v.value.1 != rest)
  {
    hide Pow256, Doubles, Encoded;
    WrittenIsFormed(DoublesV(xs));
    VectorAt(DOUBLES, DoubleFields(xs), cap, rest);
    DoublesReadBack(xs, rest);
    DoublesAreNine(xs);
    assert |xs| > cap ==> |EncodedAll(DoubleFields(xs)) + rest| > |rest|;
  }

  /** One double written, a reader with no room: its nine bytes are left for whoever reads next. */
  lemma OneDoubleLeftBehind(x: nat, rest: Bytes)
    requires x < Pow256(8)
    ensures VectorOf(Encoded(FieldOf(DoublesV([x]))) + rest, 0) == Some((TooWide, Encoded(DoubleField(x)) + rest))
  {
    hide Pow256, Encoded;
    assert DoubleFields([x]) == [DoubleField(x)] && DoubleFields([x])[1..] == [];
    assert EncodedAll([DoubleField(x)]) == Encoded(DoubleField(x)) + EncodedAll([]) == Encoded(DoubleField(x));
    assert 1 < Pow256(4) by { Powers(); }
    WrittenVectorReadsBack([x], 0, rest);
  }

  // ---- replies ----------------------------------------------------------------------------------------------

  const DONE: Octet := 0
  const CURSOR_OPEN: Octet := 1
  const CURSOR_FETCH: Octet := 2
  const RETURN_VALUE: Octet := 4
  const EXCEPTION: Octet := 5

  /** One part of a server's reply before the byte that ends it. `Mark` is a result that carries nothing. */
  datatype Part = Opened(columns: Bytes) | Row(fields: seq<Field>) | Returned(field: Field) | Mark(code: Octet)

  predicate PartFormed(p: Part, columns: nat) {
    match p
    case Opened(names) => |names| <= 255
    case Row(fields) => |fields| == columns && forall i :: 0 <= i < |fields| ==> Formed(fields[i])
    case Returned(f) => Formed(f)
    case Mark(code) => code == 3 || code > EXCEPTION
  }

  function PartBytes(p: Part): Bytes {
    match p
    case Opened(names) => [CURSOR_OPEN] + (Big(|names|, 1) + names)
    case Row(fields) => [CURSOR_FETCH] + EncodedAll(fields)
    case Returned(f) => [RETURN_VALUE] + Encoded(f)
    case Mark(code) => [code]
  }

  function ReplyBytes(ps: seq<Part>): Bytes {
    if ps == [] then [DONE] else PartBytes(ps[0]) + ReplyBytes(ps[1..])
  }

  /** What one turn of zg_drain's loop takes after a result code; none for an exception or a short stream. */
  function PartLength(s: Bytes, columns: nat): (r: Option<nat>)
    requires s != []
    ensures r.Some? ==> r.value < |s|
  {
    var rest := s[1..];
    if s[0] == CURSOR_OPEN then
      if rest == [] || |rest| < 1 + rest[0] as int then None else Some(1 + rest[0] as int)
    else if s[0] == CURSOR_FETCH then FieldsLength(rest, columns)
    else if s[0] == RETURN_VALUE then FieldLength(rest)
    else if s[0] == EXCEPTION then None
    else Some(0)
  }

  /** How many bytes zg_drain takes off the front. */
  function ReplyLength(s: Bytes, columns: nat): (r: Option<nat>)
    ensures r.Some? ==> 0 < r.value <= |s|
    decreases |s|
  {
    if s == [] then None
    else if s[0] == DONE then Some(1)
    else
      match PartLength(s, columns)
      case None => None
      case Some(k) =>
        match ReplyLength(s[1 + k..], columns)
        case None => None
        case Some(m) => Some(1 + k + m)
  }

  lemma OpenedSkipped(names: Bytes, columns: nat, rest: Bytes)
    requires |names| <= 255
    ensures PartLength(PartBytes(Opened(names)) + rest, columns) == Some(|names| + 1)
  {
    hide FieldLength, FieldsLength;
    var s := PartBytes(Opened(names)) + rest;
    assert Big(|names|, 1) == [|names|] by { assert Big(|names| / 256, 0) == []; }
    assert s[1..] == [|names|] + (names + rest);
  }

  lemma PartSkipped(p: Part, columns: nat, rest: Bytes)
    requires PartFormed(p, columns)
    ensures |PartBytes(p)| > 0 && PartBytes(p)[0] != DONE
    ensures PartLength(PartBytes(p) + rest, columns) == Some(|PartBytes(p)| - 1)
  {
    hide FieldLength, FieldsLength, Encoded, EncodedAll, Formed, Big;
    var s := PartBytes(p) + rest;
    match p
    case Opened(names) =>
      OpenedSkipped(names, columns, rest);
    case Row(fields) =>
      assert s[1..] == EncodedAll(fields) + rest;
      SkipsFields(Many(0, fields), fields, rest);
    case Returned(f) =>
      assert s[1..] == Encoded(f) + rest;
      SkipsOneField(f, rest);
    case Mark(code) =>
  }

  /** Draining with the right column count takes exactly one reply, whatever it holds. */
  lemma {:induction false} DrainsOneReply(ps: seq<Part>, columns: nat, rest: Bytes)
    requires forall i :: 0 <= i < |ps| ==> PartFormed(ps[i], columns)
    ensures ReplyLength(ReplyBytes(ps) + rest, columns) == Some(|ReplyBytes(ps)|)
  {
    hide PartLength, PartBytes, PartFormed;
    var s := ReplyBytes(ps) + rest;
    if ps != [] {
      var tail := ReplyBytes(ps[1..]) + rest;
      assert s == PartBytes(ps[0]) + tail;
      PartSkipped(ps[0], columns, tail);
      assert s[|PartBytes(ps[0])|..] == tail;
      DrainsOneReply(ps[1..], columns, rest);
    }
  }
}
