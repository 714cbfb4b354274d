/**
 The recursive-descent evaluator of bench/tokens/tasks/calc/ref.py, against the precedence
 grammar of its task: + and - over * and / over unary minus, left association, division
 truncating toward zero. `None` is the exception Bad.
 */
module Calc {
  import opened Wrappers
  import opened Decimals

  datatype Tok = Num(n: nat) | Plus | Minus | Times | Over | LPar | RPar

  // ---- the grammar: derivation trees, what they spell, what they are worth --------------

  datatype E = OfT(t: T) | Sum(e: E, plus: bool, t: T)
  datatype T = OfU(u: U) | Product(t: T, times: bool, u: U)
  datatype U = Neg(u: U) | Par(e: E) | Lit(n: nat)

  function YieldE(e: E): (s: seq<Tok>)
    ensures s != []
  {
    match e
    case OfT(t) => YieldT(t)
    case Sum(l, plus, t) => YieldE(l) + ([if plus then Plus else Minus] + YieldT(t))
  }

  function YieldT(t: T): (s: seq<Tok>)
    ensures s != []
  {
    match t
    case OfU(u) => YieldU(u)
    case Product(l, times, u) => YieldT(l) + ([if times then Times else Over] + YieldU(u))
  }

  function YieldU(u: U): (s: seq<Tok>)
    ensures s != []
  {
    match u
    case Neg(v) => [Minus] + YieldU(v)
    case Par(e) => [LPar] + (YieldE(e) + [RPar])
    case Lit(n) => [Num(n)]
  }

  function Abs(x: int): nat {
    if x < 0 then -x else x
  }

  function TruncDiv(v: int, r: int): int
    requires r != 0
  {
    var q := Abs(v) / Abs(r);
    if (v < 0) == (r < 0) then q else -q
  }

  function Combine(op: Tok, a: int, b: int): Option<int> {
    match op
    case Plus => Some(a + b)
    case Minus => Some(a - b)
    case Times => Some(a * b)
    case Over => if b == 0 then None else Some(TruncDiv(a, b))
    case _ => None
  }

  /** The value of a derivation; none if it divides by zero anywhere. */
  function ValueE(e: E): Option<int> {
    match e
    case OfT(t) => ValueT(t)
    case Sum(l, plus, t) => Both(ValueE(l), if plus then Plus else Minus, ValueT(t))
  }

  function ValueT(t: T): Option<int> {
    match t
    case OfU(u) => ValueU(u)
    case Product(l, times, u) => Both(ValueT(l), if times then Times else Over, ValueU(u))
  }

  function ValueU(u: U): Option<int> {
    match u
    case Neg(v) => (match ValueU(v) case Some(x) => Some(-x) case None => None)
    case Par(e) => ValueE(e)
    case Lit(n) => Some(n)
  }

  function Both(a: Option<int>, op: Tok, b: Option<int>): Option<int> {
    if a.Some? && b.Some? then Combine(op, a.value, b.value) else None
  }

  lemma MulSigns(x: int, y: int)
    ensures x * (-y) == -(x * y) && (-x) * y == -(x * y) && x * y == y * x
  {
  }

  lemma SignedRest(a: int, b: int, q: int, r: int)
    requires b != 0 && Abs(a) == q * Abs(b) + r && (a == 0 ==> q == 0)
    ensures a - (if (a < 0) == (b < 0) then q else -q) * b == if a < 0 then -r else r
  {
    MulSigns(q, b);
    MulSigns(q, -b);
  }

  lemma TruncDivRest(a: int, b: int)
    requires b != 0
    ensures a - TruncDiv(a, b) * b == if a < 0 then -(Abs(a) % Abs(b)) else Abs(a) % Abs(b)
  {
    var m, d := Abs(a), Abs(b);
    assert m == (m / d) * d + m % d;
    SignedRest(a, b, m / d, m % d);
  }

  lemma {:induction false} MulAtLeast(k: nat, d: nat)
    requires k >= 1
    ensures k * d >= d
  {
    if k > 1 {
      MulAtLeast(k - 1, d);
      assert k * d == (k - 1) * d + d;
    }
  }

  /** A multiple of `b` smaller than `b` is zero. */
  lemma SmallMultiple(k: int, b: int)
    requires b != 0 && Abs(k * b) < Abs(b)
    ensures k == 0
  {
    if k != 0 {
      MulAtLeast(Abs(k), Abs(b));
      MulSigns(k, b);
      MulSigns(Abs(k), Abs(b));
      MulSigns(-k, b);
    }
  }

  /** The quotient the code computes is the one that truncates toward zero, and no other. */
  lemma TruncDivTruncates(a: int, b: int, q: int)
    requires b != 0
    ensures q == TruncDiv(a, b) <==> Abs(a - q * b) < Abs(b) && (a >= 0 ==> a - q * b >= 0) && (a <= 0 ==>
      a - q * b <= 0)
  {
    hide TruncDiv;
    var t := TruncDiv(a, b);
    TruncDivRest(a, b);
    if Abs(a - q * b) < Abs(b) && (a >= 0 ==> a - q * b >= 0) && (a <= 0 ==> a - q * b <= 0) {
      assert (q - t) * b == (a - t * b) - (a - q * b);
      SmallMultiple(q - t, b);
    }
  }

  // ---- the evaluator, as functions of the position -------------------------------------------

  type Parsed = Option<(int, nat)>

  predicate At(ts: seq<Tok>, p: nat, a: Tok, b: Tok) {
    p < |ts| && (ts[p] == a || ts[p] == b)
  }

  function Expr(ts: seq<Tok>, p: nat): (r: Parsed)
    requires p <= |ts|
    ensures r.Some? ==> p < r.value.1 <= |ts|
    decreases |ts| - p, 5
  {
    match Term(ts, p) case None => None case Some((v, q)) => ExprLoop(ts, q, v)
  }

  function ExprLoop(ts: seq<Tok>, p: nat, v: int): (r: Parsed)
    requires p <= |ts|
    ensures r.Some? ==> p <= r.value.1 <= |ts|
    decreases |ts| - p, 4
  {
    if At(ts, p, Plus, Minus) then
      match Term(ts, p + 1)
      case None => None
      case Some((r, q)) => ExprLoop(ts, q, if ts[p] == Plus then v + r else v - r)
    else Some((v, p))
  }

  function Term(ts: seq<Tok>, p: nat): (r: Parsed)
    requires p <= |ts|
    ensures r.Some? ==> p < r.value.1 <= |ts|
    decreases |ts| - p, 3
  {
    match Unary(ts, p) case None => None case Some((v, q)) => TermLoop(ts, q, v)
  }

  function TermLoop(ts: seq<Tok>, p: nat, v: int): (r: Parsed)
    requires p <= |ts|
    ensures r.Some? ==> p <= r.value.1 <= |ts|
    decreases |ts| - p, 2
  {
    if At(ts, p, Times, Over) then
      match Unary(ts, p + 1)
      case None => None
      case Some((r, q)) =>
        if ts[p] == Times then TermLoop(ts, q, v * r)
        else if r == 0 then None
        else TermLoop(ts, q, TruncDiv(v, r))
    else Some((v, p))
  }

  function Unary(ts: seq<Tok>, p: nat): (r: Parsed)
    requires p <= |ts|
    ensures r.Some? ==> p < r.value.1 <= |ts|
    decreases |ts| - p, 1
  {
    if p == |ts| then None
    else match ts[p]
      case Minus => (match Unary(ts, p + 1) case None => None case Some((v, q)) => Some((-v, q)))
      case LPar =>
        (match Expr(ts, p + 1)
         case None => None
         case Some((v, q)) => if q < |ts| && ts[q] == RPar then Some((v, q + 1)) else None)
      case Num(n) => Some((n, p + 1))
      case _ => None
  }

  function Evaluate(ts: seq<Tok>): Option<int> {
    match Expr(ts, 0)
    case Some((v, q)) => if q == |ts| then Some(v) else None
    case None => None
  }

  // ---- complete: every derivation is found, with its value -------------------------------------

  /** `ts` spells `s` at `p`. */
  predicate Spells(ts: seq<Tok>, p: nat, s: seq<Tok>) {
    p + |s| <= |ts| && ts[p..p + |s|] == s
  }

  lemma SpellsParts(ts: seq<Tok>, p: nat, a: seq<Tok>, b: seq<Tok>)
    requires Spells(ts, p, a + b)
    ensures Spells(ts, p, a) && Spells(ts, p + |a|, b)
  {
    var m := ts[p..p + |a + b|];
    assert ts[p..p + |a|] == m[..|a|] && ts[p + |a|..p + |a| + |b|] == m[|a|..];
    assert m[..|a|] == a && m[|a|..] == b;
  }

  /** Reading where `e` is spelled reads all of `e`, then goes on as the loop would. */
  lemma {:induction false} ExprReads(ts: seq<Tok>, p: nat, e: E)
    requires Spells(ts, p, YieldE(e)) && !At(ts, p + |YieldE(e)|, Times, Over)
    ensures Expr(ts, p) == match ValueE(e) case Some(v) => ExprLoop(ts, p + |YieldE(e)|, v) case None => None
    decreases e, 3
  {
    hide Unary, ValueU, YieldU, TermLoop, ExprLoop, Term, YieldT, ValueT;
    match e
    case OfT(t) =>
      TermReads(ts, p, t);
      if ValueT(t).Some? { TermLoopStops(ts, p + |YieldT(t)|, ValueT(t).value); }
    case Sum(l, plus, t) =>
      var op := if plus then Plus else Minus;
      var q := p + |YieldE(l)|;
      SpellsParts(ts, p, YieldE(l), [op] + YieldT(t));
      SpellsParts(ts, q, [op], YieldT(t));
      assert ts[q] == ts[q..q + 1][0] == op;
      ExprReads(ts, p, l);
      TermReads(ts, q + 1, t);
      SumReads(ts, p, l, plus, t);
  }

  /** One more operand of a sum, its two sides already read. */
  lemma SumReads(ts: seq<Tok>, p: nat, l: E, plus: bool, t: T)
    requires var q := p + |YieldE(l)|;
             && q < |ts| && ts[q] == (if plus then Plus else Minus)
             && q + 1 + |YieldT(t)| <= |ts| && !At(ts, q + 1 + |YieldT(t)|, Times, Over)
             && Expr(ts, p) == (match ValueE(l) case Some(v) => ExprLoop(ts, q, v) case None => None)
             && Term(ts, q + 1) ==
               match ValueT(t) case Some(v) => TermLoop(ts, q + 1 + |YieldT(t)|, v) case None => None
    ensures Expr(ts, p) == match ValueE(Sum(l, plus, t))
                           case Some(v) => ExprLoop(ts, p + |YieldE(Sum(l, plus, t))|, v)
                           case None => None
  {
    hide Expr, Unary, YieldT, ValueT, ValueU;
  }

  lemma TermLoopStops(ts: seq<Tok>, p: nat, v: int)
    requires p <= |ts| && !At(ts, p, Times, Over)
    ensures TermLoop(ts, p, v) == Some((v, p))
  {
  }

  lemma {:induction false} TermReads(ts: seq<Tok>, p: nat, t: T)
    requires Spells(ts, p, YieldT(t))
    ensures Term(ts, p) == match ValueT(t) case Some(v) => TermLoop(ts, p + |YieldT(t)|, v) case None => None
    decreases t, 2
  {
    hide Expr, ExprLoop, ValueE, YieldE, ValueU, YieldU, Unary, ValueT, YieldT, Term, TermLoop, Spells;
    match t
    case OfU(u) =>
      OperandParts(ts, p, u);
      UnaryReads(ts, p, u);
      OperandReads(ts, p, u);
    case Product(l, times, u) =>
      ProductParts(ts, p, l, times, u);
      TermReads(ts, p, l);
      UnaryReads(ts, p + |YieldT(l)| + 1, u);
      ProductReads(ts, p, l, times, u);
  }

  lemma OperandParts(ts: seq<Tok>, p: nat, u: U)
    requires Spells(ts, p, YieldT(OfU(u)))
    ensures Spells(ts, p, YieldU(u))
  {
  }

  lemma OperandReads(ts: seq<Tok>, p: nat, u: U)
    requires Spells(ts, p, YieldT(OfU(u)))
    requires Unary(ts, p) == match ValueU(u) case Some(v) => Some((v, p + |YieldU(u)|)) case None => None
    ensures Term(ts, p) ==
            match ValueT(OfU(u)) case Some(v) => TermLoop(ts, p + |YieldT(OfU(u))|, v) case None => None
  {
    hide Unary, ValueU, YieldU, TermLoop;
  }

  /** A spelled product is its left side spelled, the sign, and its right side. */
  lemma ProductParts(ts: seq<Tok>, p: nat, l: T, times: bool, u: U)
    requires Spells(ts, p, YieldT(Product(l, times, u)))
    ensures var q := p + |YieldT(l)|;
            && Spells(ts, p, YieldT(l)) && q < |ts| && ts[q] == (if times then Times else Over)
            && Spells(ts, q + 1, YieldU(u)) && q + 1 + |YieldU(u)| <= |ts|
  {
    hide YieldU;
    var op, q := if times then Times else Over, p + |YieldT(l)|;
    SpellsParts(ts, p, YieldT(l), [op] + YieldU(u));
    SpellsParts(ts, q, [op], YieldU(u));
    assert ts[q] == ts[q..q + 1][0] == op;
  }

  /** One more operand of a product, its two sides already read. */
  lemma ProductReads(ts: seq<Tok>, p: nat, l: T, times: bool, u: U)
    requires var q := p + |YieldT(l)|;
             && q < |ts| && ts[q] == (if times then Times else Over) && q + 1 + |YieldU(u)| <= |ts|
             && Term(ts, p) == (match ValueT(l) case Some(v) => TermLoop(ts, q, v) case None => None)
             && Unary(ts, q + 1) == match ValueU(u) case Some(v) => Some((v, q + 1 + |YieldU(u)|)) case None => None
    ensures Term(ts, p) == match ValueT(Product(l, times, u))
                           case Some(v) => TermLoop(ts, p + |YieldT(Product(l, times, u))|, v)
                           case None => None
  {
    hide Term, Unary, ValueU, YieldU, TruncDiv;
  }

  lemma {:induction false} UnaryReads(ts: seq<Tok>, p: nat, u: U)
    requires Spells(ts, p, YieldU(u))
    ensures Unary(ts, p) == match ValueU(u) case Some(v) => Some((v, p + |YieldU(u)|)) case None => None
    decreases u, 1
  {
    hide Term, TermLoop, Expr, ExprLoop, ValueE, YieldE, ValueT, YieldT, Both;
    assert ts[p] == ts[p..p + |YieldU(u)|][0] == YieldU(u)[0];
    match u
    case Neg(v) =>
      SpellsParts(ts, p, [Minus], YieldU(v));
      UnaryReads(ts, p + 1, v);
    case Par(e) =>
      SpellsParts(ts, p, [LPar], YieldE(e) + [RPar]);
      SpellsParts(ts, p + 1, YieldE(e), [RPar]);
      var q := p + 1 + |YieldE(e)|;
      assert ts[q] == ts[q..q + 1][0] == RPar;
      ExprReads(ts, p + 1, e);
      ParReads(ts, p, e);
    case Lit(n) =>
  }

  /** A parenthesised expression, its inside already read. */
  lemma ParReads(ts: seq<Tok>, p: nat, e: E)
    requires var q := p + 1 + |YieldE(e)|;
             && p < |ts| && ts[p] == LPar && q < |ts| && ts[q] == RPar
             && Expr(ts, p + 1) == match ValueE(e) case Some(v) => ExprLoop(ts, q, v) case None => None
    ensures Unary(ts, p) == match ValueE(e) case Some(v) => Some((v, p + |YieldU(Par(e))|)) case None => None
  {
    var q := p + 1 + |YieldE(e)|;
    assert ValueE(e).Some? ==> ExprLoop(ts, q, ValueE(e).value) == Some((ValueE(e).value, q));
  }

  // ---- sound: whatever is read was derived ------------------------------------------------------

  lemma {:induction false} ExprDerives(ts: seq<Tok>, p: nat) returns (e: E)
    requires p <= |ts| && Expr(ts, p).Some?
    ensures YieldE(e) == ts[p..Expr(ts, p).value.1] && ValueE(e) == Some(Expr(ts, p).value.0)
    decreases |ts| - p, 5
  {
    var t := TermDerives(ts, p);
    var (v, q) := Term(ts, p).value;
    e := ExprLoopDerives(ts, p, q, v, OfT(t));
  }

  lemma {:induction false} ExprLoopDerives(ts: seq<Tok>, p: nat, q: nat, v: int, e: E) returns (e': E)
    requires p <= q <= |ts| && ExprLoop(ts, q, v).Some?
    requires YieldE(e) == ts[p..q] && ValueE(e) == Some(v)
    ensures YieldE(e') == ts[p..ExprLoop(ts, q, v).value.1] && ValueE(e') == Some(ExprLoop(ts, q, v).value.0)
    decreases |ts| - q, 4
  {
    if At(ts, q, Plus, Minus) {
      var t := TermDerives(ts, q + 1);
      var (r, q') := Term(ts, q + 1).value;
      var s := Sum(e, ts[q] == Plus, t);
      assert ts[p..q'] == ts[p..q] + ([ts[q]] + ts[q + 1..q']);
      e' := ExprLoopDerives(ts, p, q', if ts[q] == Plus then v + r else v - r, s);
    } else {
      e' := e;
    }
  }

  lemma {:induction false} TermDerives(ts: seq<Tok>, p: nat) returns (t: T)
    requires p <= |ts| && Term(ts, p).Some?
    ensures YieldT(t) == ts[p..Term(ts, p).value.1] && ValueT(t) == Some(Term(ts, p).value.0)
    decreases |ts| - p, 3
  {
    var u := UnaryDerives(ts, p);
    var (v, q) := Unary(ts, p).value;
    t := TermLoopDerives(ts, p, q, v, OfU(u));
  }

  lemma {:induction false} TermLoopDerives(ts: seq<Tok>, p: nat, q: nat, v: int, t: T) returns (t': T)
    requires p <= q <= |ts| && TermLoop(ts, q, v).Some?
    requires YieldT(t) == ts[p..q] && ValueT(t) == Some(v)
    ensures YieldT(t') == ts[p..TermLoop(ts, q, v).value.1] && ValueT(t') == Some(TermLoop(ts, q, v).value.0)
    decreases |ts| - q, 2
  {
    if At(ts, q, Times, Over) {
      var u := UnaryDerives(ts, q + 1);
      var (r, q') := Unary(ts, q + 1).value;
      var s := Product(t, ts[q] == Times, u);
      assert ts[p..q'] == ts[p..q] + ([ts[q]] + ts[q + 1..q']);
      t' := TermLoopDerives(ts, p, q', if ts[q] == Times then v * r else TruncDiv(v, r), s);
    } else {
      t' := t;
    }
  }

  lemma {:induction false} UnaryDerives(ts: seq<Tok>, p: nat) returns (u: U)
    requires p <= |ts| && Unary(ts, p).Some?
    ensures YieldU(u) == ts[p..Unary(ts, p).value.1] && ValueU(u) == Some(Unary(ts, p).value.0)
    decreases |ts| - p, 1
  {
    var q := Unary(ts, p).value.1;
    match ts[p]
    case Minus =>
      var v := UnaryDerives(ts, p + 1);
      u := Neg(v);
      assert ts[p..q] == [ts[p]] + ts[p + 1..q];
    case LPar =>
      var e := ExprDerives(ts, p + 1);
      u := Par(e);
      assert ts[p..q] == [ts[p]] + (ts[p + 1..q - 1] + [ts[q - 1]]);
    case Num(n) =>
      u := Lit(n);
  }

  // ---- the theorems ------------------------------------------------------------------------------

  /** On the tokens of a derivation the evaluator answers its value, or Bad if it has none. */
  lemma EvaluatesDerivation(e: E)
    ensures Evaluate(YieldE(e)) == ValueE(e)
  {
    var ts := YieldE(e);
    assert ts[0..|ts|] == ts;
    ExprReads(ts, 0, e);
  }

  /** It answers `v` exactly when the grammar derives the tokens with value `v`. */
  lemma EvaluateIffDerived(ts: seq<Tok>, v: int)
    ensures Evaluate(ts) == Some(v) <==> exists e :: YieldE(e) == ts && ValueE(e) == Some(v)
  {
    if Evaluate(ts) == Some(v) {
      var e := ExprDerives(ts, 0);
      assert ts[0..|ts|] == ts;
    }
    forall e | YieldE(e) == ts && ValueE(e) == Some(v) ensures Evaluate(ts) == Some(v) {
      EvaluatesDerivation(e);
    }
  }

  /** Any expression over the four operators and unary minus, written down. */
  datatype Tree = Number(n: nat) | Negated(a: Tree) | Binary(op: Tok, l: Tree, r: Tree)

  predicate WellMade(t: Tree) {
    match t
    case Number(_) => true
    case Negated(a) => WellMade(a)
    case Binary(op, l, r) => op in {Plus, Minus, Times, Over} && WellMade(l) && WellMade(r)
  }

  function Print(t: Tree): seq<Tok> {
    match t
    case Number(n) => [Num(n)]
    case Negated(a) => [Minus] + Print(a)
    case Binary(op, l, r) => [LPar] + (Print(l) + ([op] + Print(r)) + [RPar])
  }

  function TreeValue(t: Tree): Option<int> {
    match t
    case Number(n) => Some(n)
    case Negated(a) => (match TreeValue(a) case Some(v) => Some(-v) case None => None)
    case Binary(op, l, r) => Both(TreeValue(l), op, TreeValue(r))
  }

  function Derivation(t: Tree): U {
    match t
    case Number(n) => Lit(n)
    case Negated(a) => Neg(Derivation(a))
    case Binary(op, l, r) =>
      if op == Plus || op == Minus then Par(Sum(OfT(OfU(Derivation(l))), op == Plus, OfU(Derivation(r))))
      else Par(OfT(Product(OfU(Derivation(l)), op == Times, Derivation(r))))
  }

  lemma {:induction false} DerivationPrints(t: Tree)
    requires WellMade(t)
    ensures YieldU(Derivation(t)) == Print(t) && ValueU(Derivation(t)) == TreeValue(t)
  {
    match t
    case Number(_) =>
    case Negated(a) => DerivationPrints(a);
    case Binary(op, l, r) =>
      DerivationPrints(l);
      DerivationPrints(r);
      var a, b := OfU(Derivation(l)), OfU(Derivation(r));
      assert YieldE(OfT(a)) == YieldT(a) == Print(l) && ValueE(OfT(a)) == ValueT(a) == TreeValue(l);
      assert YieldT(b) == Print(r) && ValueT(b) == TreeValue(r);
      if op == Plus || op == Minus {
        assert YieldE(Sum(OfT(a), op == Plus, b)) == Print(l) + ([op] + Print(r));
      } else {
        var m := Product(a, op == Times, Derivation(r));
        assert YieldE(OfT(m)) == YieldT(m) == Print(l) + ([op] + Print(r));
        assert ValueE(OfT(m)) == ValueT(m);
      }
  }

  /** Printing an expression tree and evaluating it gives the tree's value. */
  lemma EvaluatePrinted(t: Tree)
    requires WellMade(t)
    ensures Evaluate(Print(t)) == TreeValue(t)
  {
    DerivationPrints(t);
    EvaluatesDerivation(OfT(OfU(Derivation(t))));
  }

  // ---- the line: characters refused, tokens found ---------------------------------------------------

  predicate IsDigit(c: char) { '0' <= c <= '9' }

  predicate Allowed(c: char) {
    IsDigit(c) || c in {'+', '-', '*', '/', '(', ')', ' '}
  }

  function DigitRun(s: string): (n: nat)
    ensures n <= |s| && forall i :: 0 <= i < n ==> IsDigit(s[i])
    ensures n < |s| ==> !IsDigit(s[n])
  {
    if s == [] || !IsDigit(s[0]) then 0 else 1 + DigitRun(s[1..])
  }

  function OpTok(c: char): Option<Tok> {
    match c
    case '+' => Some(Plus)
    case '-' => Some(Minus)
    case '*' => Some(Times)
    case '/' => Some(Over)
    case '(' => Some(LPar)
    case ')' => Some(RPar)
    case _ => None
  }

  lemma DigitsValueNat(s: string)
    requires forall i :: 0 <= i < |s| ==> IsDigit(s[i])
    ensures DigitsValue(s) >= 0
  {
  }

  /** findall: the longest run of digits, or one operator; anything else is passed over. */
  function Lex(s: string): seq<Tok>
    decreases |s|
  {
    if s == [] then []
    else if IsDigit(s[0]) then
      var n := DigitRun(s);
      DigitsValueNat(s[..n]);
      [Num(DigitsValue(s[..n]))] + Lex(s[n..])
    else
      match OpTok(s[0]) case Some(t) => [t] + Lex(s[1..]) case None => Lex(s[1..])
  }

  function EvaluateLine(line: string): Option<int> {
    if exists i :: 0 <= i < |line| && !Allowed(line[i]) then None else Evaluate(Lex(line))
  }

  function TokText(t: Tok): string {
    match t
    case Num(n) => Digits(n)
    case Plus => "+" case Minus => "-" case Times => "*" case Over => "/" case LPar => "(" case RPar => ")"
  }

  /** The tokens written out, each followed by a space. */
  function Text(ts: seq<Tok>): string {
    if ts == [] then "" else TokText(ts[0]) + ([' '] + Text(ts[1..]))
  }

  lemma {:induction false} DigitRunCut(a: string, b: string)
    requires (forall i :: 0 <= i < |a| ==> IsDigit(a[i])) && (b == [] || !IsDigit(b[0]))
    ensures DigitRun(a + b) == |a|
  {
    if a == [] {
      assert a + b == b;
    } else {
      assert (a + b)[1..] == a[1..] + b;
      DigitRunCut(a[1..], b);
    }
  }

  lemma LexOne(t: Tok, rest: string)
    requires rest != [] && rest[0] == ' '
    ensures Lex(TokText(t) + rest) == [t] + Lex(rest)
  {
    var s := TokText(t) + rest;
    match t
    case Num(n) =>
      DigitRunCut(Digits(n), rest);
      DigitsRoundTrip(n);
      assert s[..|Digits(n)|] == Digits(n) && s[|Digits(n)|..] == rest;
    case _ =>
      assert s[1..] == rest;
  }

  lemma {:induction false} LexText(ts: seq<Tok>)
    ensures Lex(Text(ts)) == ts
  {
    if ts != [] {
      LexText(ts[1..]);
      var rest := [' '] + Text(ts[1..]);
      assert rest[1..] == Text(ts[1..]);
      LexOne(ts[0], rest);
      assert Lex(rest) == ts[1..];
    }
  }

  lemma {:induction false} TextAllowed(ts: seq<Tok>)
    ensures forall i :: 0 <= i < |Text(ts)| ==> Allowed(Text(ts)[i])
  {
    if ts != [] {
      TextAllowed(ts[1..]);
      assert forall i :: 0 <= i < |TokText(ts[0])| ==> Allowed(TokText(ts[0])[i]);
    }
  }

  /** A printed expression, as a line of text, evaluates to the tree's value. */
  lemma EvaluatePrintedLine(t: Tree)
    requires WellMade(t)
    ensures EvaluateLine(Text(Print(t))) == TreeValue(t)
  {
    LexText(Print(t));
    TextAllowed(Print(t));
    EvaluatePrinted(t);
  }

  // ---- the evaluator as it runs: a shared position, loops, mutual recursion ---------------------------

  class Evaluator {
    const toks: seq<Tok>
    var pos: nat

    constructor (toks: seq<Tok>)
      ensures this.toks == toks && pos == 0
    {
      this.toks := toks;
      pos := 0;
    }

    /** The outcome of a nested function: a value and the new position, or Bad. */
    ghost predicate Did(r: Parsed, v: Option<int>)
      reads this
    {
      match r case Some((x, q)) => v == Some(x) && pos == q case None => v.None?
    }

    method Take() returns (t: Option<Tok>)
      requires pos <= |toks|
      modifies this
      ensures old(pos) == |toks| ==> t.None? && pos == old(pos)
      ensures old(pos) < |toks| ==> t == Some(toks[old(pos)]) && pos == old(pos) + 1
    {
      if pos == |toks| { return None; }
      pos := pos + 1;
      return Some(toks[pos - 1]);
    }

    method ReadExpr() returns (v: Option<int>)
      requires pos <= |toks|
      modifies this
      ensures pos <= |toks| && Did(Expr(toks, old(pos)), v)
      decreases |toks| - pos, 3
    {
      v := ReadTerm();
      if v.None? { return; }
      while pos < |toks| && (toks[pos] == Plus || toks[pos] == Minus)
        invariant old(pos) < pos <= |toks| && v.Some?
        invariant Expr(toks, old(pos)) == ExprLoop(toks, pos, v.value)
        decreases |toks| - pos
      {
        var op := Take();
        var r := ReadTerm();
        if r.None? { return None; }
        v := if op == Some(Plus) then Some(v.value + r.value) else Some(v.value - r.value);
      }
    }

    method ReadTerm() returns (v: Option<int>)
      requires pos <= |toks|
      modifies this
      ensures pos <= |toks| && Did(Term(toks, old(pos)), v)
      decreases |toks| - pos, 2
    {
      v := ReadUnary();
      if v.None? { return; }
      while pos < |toks| && (toks[pos] == Times || toks[pos] == Over)
        invariant old(pos) < pos <= |toks| && v.Some?
        invariant Term(toks, old(pos)) == TermLoop(toks, pos, v.value)
        decreases |toks| - pos
      {
        var op := Take();
        var r := ReadUnary();
        if r.None? { return None; }
        if op == Some(Times) {
          v := Some(v.value * r.value);
        } else if r.value == 0 {
          return None;
        } else {
          v := Some(TruncDiv(v.value, r.value));
        }
      }
    }

    method ReadUnary() returns (v: Option<int>)
      requires pos <= |toks|
      modifies this
      ensures pos <= |toks| && Did(Unary(toks, old(pos)), v)
      decreases |toks| - pos, 1
    {
      if pos < |toks| && toks[pos] == Minus {
        var _ := Take();
        v := ReadUnary();
        return if v.Some? then Some(-v.value) else None;
      }
      var t := Take();
      if t.None? { return None; }
      match t.value
      case LPar =>
        v := ReadExpr();
        if v.None? { return; }
        var close := Take();
        if close != Some(RPar) { return None; }
      case Num(n) =>
        return Some(n);
      case _ =>
        return None;
    }
  }

  /** evaluate, on the tokens of a line. */
  method Run(toks: seq<Tok>) returns (v: Option<int>)
    ensures v == Evaluate(toks)
  {
    var e := new Evaluator(toks);
    v := e.ReadExpr();
    if v.Some? && e.pos != |toks| {
      v := None;
    }
  }
}
