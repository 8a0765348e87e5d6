/** What the operators of shell arithmetic mean, said without the functions that compute them: division
    by its remainder, the bitwise operators bit by bit, powers as repeated products
    (ipc/bash-4.2/expr.c). */
module OperatorLaws {
  import opened Common
  import opened Powers
  import opened Arithmetic

  /** Bit `i` of a number in two's complement. */
  predicate HasBit(a: int, i: nat)
    decreases i
  {
    if i == 0 then a % 2 == 1 else HasBit(a / 2, i - 1)
  }

  function Magnitude(a: int): nat { if a < 0 then -a else a }

  /** `a` divided by `b` is `q` with remainder `r`, rounding toward zero: the remainder is smaller than
      the divisor and has the sign of the dividend. */
  predicate Divided(a: int, b: int, q: int, r: int) {
    a == b * q + r && Magnitude(r) < Magnitude(b) && (r == 0 || (r < 0 <==> a < 0))
  }

  function Product(factors: seq<int>): int {
    if factors == [] then 1 else factors[0] * Product(factors[1..])
  }

  ghost predicate Meets(op: BinOp, a: int, b: int, r: Option<int>) {
    match op
    case Lor => r == Some(if a == 0 && b == 0 then 0 else 1)
    case Land => r == Some(if a == 0 || b == 0 then 0 else 1)
    case Bor => r.Some? && forall i: nat :: HasBit(r.value, i) <==> HasBit(a, i) || HasBit(b, i)
    case Bxor => r.Some? && forall i: nat :: HasBit(r.value, i) <==> HasBit(a, i) != HasBit(b, i)
    case Band => r.Some? && forall i: nat :: HasBit(r.value, i) <==> HasBit(a, i) && HasBit(b, i)
    case EqEq => r == Some(if a == b then 1 else 0)
    case Neq => r == Some(if a == b then 0 else 1)
    case Leq => r == Some(if a > b then 0 else 1)
    case Geq => r == Some(if a < b then 0 else 1)
    case Lt => r == Some(if a < b then 1 else 0)
    case Gt => r == Some(if a > b then 1 else 0)
    case Lsh =>
      if b < 0 then r == None
      else r.Some? && forall i: nat :: HasBit(r.value, i) <==> i >= b && HasBit(a, i - b)
    case Rsh =>
      if b < 0 then r == None else r.Some? && forall i: nat :: HasBit(r.value, i) <==> HasBit(a, i + b)
    case Plus => r == Some(a + b)
    case Minus => r == Some(a - b)
    case Mul => r == Some(a * b)
    case Div => if b == 0 then r == None else r.Some? && exists m :: Divided(a, b, r.value, m)
    case Mod => if b == 0 then r == None else r.Some? && exists q :: Divided(a, b, q, r.value)
    case Power => if b < 0 then r == None else r == Some(Product(seq(b, _ => a)))
  }

  /** Every binary operation computes what its operator means. */
  lemma BinaryMeets(op: BinOp, a: int, b: int)
    ensures Meets(op, a, b, Binary(op, a, b))
  {
    match op
    case Bor => forall i: nat { BitwiseLaws(a, b, i); }
    case Bxor => forall i: nat { BitwiseLaws(a, b, i); }
    case Band => forall i: nat { BitwiseLaws(a, b, i); }
    case Lsh => if b >= 0 { forall i: nat { ShiftLeft(a, b, i); } }
    case Rsh => if b >= 0 { forall i: nat { ShiftRight(a, b, i); } }
    case Div => if b != 0 { QuotRem(a, b); }
    case Mod => if b != 0 { QuotRem(a, b); }
    case Power => if b >= 0 { PowIsProduct(a, b); }
    case _ =>
  }

  /** The meaning leaves no choice. */
  lemma MeetsOnce(op: BinOp, a: int, b: int, r: Option<int>)
    requires Meets(op, a, b, r)
    ensures r == Binary(op, a, b)
  {
    BinaryMeets(op, a, b);
    var v := Binary(op, a, b);
    if r.Some? && v.Some? {
      match op
      case Bor => SameBits(r.value, v.value);
      case Bxor => SameBits(r.value, v.value);
      case Band => SameBits(r.value, v.value);
      case Lsh => SameBits(r.value, v.value);
      case Rsh => SameBits(r.value, v.value);
      case Div =>
        var m :| Divided(a, b, r.value, m);
        var n :| Divided(a, b, v.value, n);
        DividedOnce(a, b, r.value, m, v.value, n);
      case Mod =>
        var p :| Divided(a, b, p, r.value);
        var q :| Divided(a, b, q, v.value);
        DividedOnce(a, b, p, r.value, q, v.value);
      case _ =>
    }
  }

  /** The unary operators. */
  lemma {:induction false} UnaryMeets(a: int, i: nat)
    ensures Unary(Not, a) == if a == 0 then 1 else 0
    ensures HasBit(Unary(BNot, a), i) <==> !HasBit(a, i)
    ensures Unary(Neg, a) + a == 0 && Unary(Pos, a) == a
  {
    BitwiseLaws(a, a, i);
  }

  // ---------- Division ----------

  lemma QuotRem(a: int, b: int)
    requires b != 0
    ensures Divided(a, b, Quot(a, b), Rem(a, b))
  {
    var q := Abs(a) / Abs(b);
    var m := Abs(a) % Abs(b);
    assert Abs(a) == Abs(b) * q + m;
    Signs(Abs(b), q);
    assert b * Quot(a, b) == if a < 0 then -(Abs(b) * q) else Abs(b) * q;
  }

  lemma Signs(b: int, q: int)
    ensures b * (-q) == -(b * q) && (-b) * q == -(b * q) && (-b) * (-q) == b * q
  {
  }

  lemma DividedOnce(a: int, b: int, q: int, r: int, q': int, r': int)
    requires b != 0 && Divided(a, b, q, r) && Divided(a, b, q', r')
    ensures q == q' && r == r'
  {
    assert b * (q - q') == r' - r;
    Small(b, q - q');
  }

  lemma Small(b: int, d: int)
    ensures d != 0 ==> Magnitude(b * d) >= Magnitude(b)
  {
    var m, n := Magnitude(b), Magnitude(d);
    Signs(m, n);
    if n > 0 { AtLeast(m, n); }
  }

  lemma {:induction false} AtLeast(m: nat, n: nat)
    requires n > 0
    ensures m * n >= m
  {
    if n > 1 {
      AtLeast(m, n - 1);
      assert m * n == m * (n - 1) + m;
    }
  }

  // ---------- Bits ----------

  lemma {:induction false} BitAndStep(a: int, b: int)
    ensures BitAnd(a, b) == 2 * BitAnd(a / 2, b / 2) + (a % 2) * (b % 2)
  {
  }

  lemma BitOrStep(a: int, b: int)
    ensures BitOr(a, b) == 2 * BitOr(a / 2, b / 2) + if a % 2 == 0 && b % 2 == 0 then 0 else 1
  {
    hide BitAnd;
    BitAndStep(BitNot(a), BitNot(b));
    assert BitNot(a) / 2 == BitNot(a / 2) && BitNot(b) / 2 == BitNot(b / 2);
    assert BitNot(a) % 2 == 1 - a % 2 && BitNot(b) % 2 == 1 - b % 2;
  }

  lemma {:induction false} BitwiseLaws(a: int, b: int, i: nat)
    ensures HasBit(BitAnd(a, b), i) <==> HasBit(a, i) && HasBit(b, i)
    ensures HasBit(BitNot(a), i) <==> !HasBit(a, i)
    ensures HasBit(BitOr(a, b), i) <==> HasBit(a, i) || HasBit(b, i)
    ensures HasBit(BitXor(a, b), i) <==> HasBit(a, i) != HasBit(b, i)
    decreases i
  {
    hide BitAnd, BitOr;
    BitAndStep(a, b);
    BitOrStep(a, b);
    assert BitXor(a, b) == 2 * BitXor(a / 2, b / 2) + if a % 2 == b % 2 then 0 else 1;
    if i > 0 {
      BitwiseLaws(a / 2, b / 2, i - 1);
      assert BitNot(a) / 2 == BitNot(a / 2);
    }
  }

  /** A number is determined by its bits. */
  lemma {:induction false} SameBits(a: int, b: int)
    requires forall i: nat :: HasBit(a, i) == HasBit(b, i)
    ensures a == b
    decreases Magnitude(a) + Magnitude(b)
  {
    assert HasBit(a, 0) == HasBit(b, 0);
    if !(-1 <= a <= 0 && -1 <= b <= 0) {
      forall i: nat ensures HasBit(a / 2, i) == HasBit(b / 2, i) {
        assert HasBit(a, i + 1) == HasBit(b, i + 1);
      }
      SameBits(a / 2, b / 2);
    }
  }

  lemma {:induction false} ShiftLeft(a: int, n: nat, i: nat)
    ensures HasBit(a * Pow2(n), i) <==> i >= n && HasBit(a, i - n)
    decreases n
  {
    if n > 0 {
      Double(a, n);
      if i > 0 { ShiftLeft(a, n - 1, i - 1); }
    }
  }

  lemma Double(a: int, n: nat)
    requires n > 0
    ensures a * Pow2(n) == 2 * (a * Pow2(n - 1)) && a * Pow2(n) / 2 == a * Pow2(n - 1)
  {
    var p: int := Pow2(n - 1);
    assert a * (2 * p) == 2 * (a * p);
  }

  lemma {:induction false} ShiftRight(a: int, n: nat, i: nat)
    ensures HasBit(a / Pow2(n), i) <==> HasBit(a, i + n)
    decreases n
  {
    if n > 0 {
      Halve(a, Pow2(n - 1));
      ShiftRight(a / 2, n - 1, i);
    }
  }

  lemma Halve(a: int, p: int)
    requires p > 0
    ensures a / (2 * p) == (a / 2) / p
  {
    var q := (a / 2) / p;
    var m := (a / 2) % p;
    assert a / 2 == p * q + m;
    assert a == (2 * p) * q + (2 * m + a % 2);
    DivisionIs(a, 2 * p, q, 2 * m + a % 2);
  }

  lemma DivisionIs(a: int, b: int, q: int, r: int)
    requires b > 0 && a == b * q + r && 0 <= r < b
    ensures a / b == q
  {
    var d := a / b - q;
    assert b * d == r - a % b;
    Small(b, d);
  }

  // ---------- Powers ----------

  lemma {:induction false} PowIsProduct(a: int, n: nat)
    ensures Pow(a, n) == Product(seq(n, _ => a))
  {
    if n > 0 {
      PowIsProduct(a, n - 1);
      assert seq(n, _ => a)[1..] == seq(n - 1, _ => a);
    }
  }
}
