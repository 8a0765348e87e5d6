/** The operators and numbers of shell arithmetic on unbounded integers (ipc/bash-4.2/expr.c). */
module Arithmetic {
  import opened Common
  import opened Powers

  datatype BinOp =
    | Lor | Land | Bor | Bxor | Band | EqEq | Neq | Leq | Geq | Lt | Gt
    | Lsh | Rsh | Plus | Minus | Mul | Div | Mod | Power

  datatype UnOp = Not | BNot | Neg | Pos

  function Truth(b: bool): int { if b then 1 else 0 }

  /** C division truncates toward zero. */
  function Quot(a: int, b: int): int
    requires b != 0
  {
    var q := Abs(a) / Abs(b);
    if (a < 0) == (b < 0) then q else -q
  }

  function Rem(a: int, b: int): int
    requires b != 0
  {
    a - b * Quot(a, b)
  }

  function Pow(a: int, n: nat): int {
    if n == 0 then 1 else Pow(a, n - 1) * a
  }

  /** Two's complement without a width. */
  function BitAnd(a: int, b: int): int
    decreases Abs(a)
  {
    if a == 0 || b == 0 then 0 else if a == -1 then b
    else 2 * BitAnd(a / 2, b / 2) + (a % 2) * (b % 2)
  }

  function BitNot(a: int): int { -1 - a }

  function BitOr(a: int, b: int): int { BitNot(BitAnd(BitNot(a), BitNot(b))) }

  function BitXor(a: int, b: int): int { BitOr(a, b) - BitAnd(a, b) }

  function Unary(op: UnOp, a: int): int {
    match op
    case Not => Truth(a == 0)
    case BNot => BitNot(a)
    case Neg => -a
    case Pos => a
  }

  /** The value of a binary operation: an error for a zero divisor or a negative exponent, and no
      value for a negative shift count, which C leaves undefined. */
  function Binary(op: BinOp, a: int, b: int): Option<int> {
    match op
    case Lor => Some(Truth(a != 0 || b != 0))
    case Land => Some(Truth(a != 0 && b != 0))
    case Bor => Some(BitOr(a, b))
    case Bxor => Some(BitXor(a, b))
    case Band => Some(BitAnd(a, b))
    case EqEq => Some(Truth(a == b))
    case Neq => Some(Truth(a != b))
    case Leq => Some(Truth(a <= b))
    case Geq => Some(Truth(a >= b))
    case Lt => Some(Truth(a < b))
    case Gt => Some(Truth(a > b))
    case Lsh => if b < 0 then None else Some(a * Pow2(b))
    case Rsh => if b < 0 then None else Some(a / Pow2(b))
    case Plus => Some(a + b)
    case Minus => Some(a - b)
    case Mul => Some(a * b)
    case Div => if b == 0 then None else Some(Quot(a, b))
    case Mod => if b == 0 then None else Some(Rem(a, b))
    case Power => if b < 0 then None else Some(Pow(a, b))
  }

  // ---------- Numbers as text ----------

  predicate IsDigit(c: char) { '0' <= c <= '9' }

  predicate IsAlpha(c: char) { 'a' <= c <= 'z' || 'A' <= c <= 'Z' }

  function DigitChar(d: nat): (c: char)
    requires d < 10
    ensures IsDigit(c) && c as int == '0' as int + d
  {
    '0' + d as char
  }

  function Digits(n: nat): (s: string)
    ensures s != "" && forall i :: 0 <= i < |s| ==> IsDigit(s[i])
  {
    if n < 10 then [DigitChar(n)] else Digits(n / 10) + [DigitChar(n % 10)]
  }

  /** `itos`. */
  function Itos(n: int): string {
    if n < 0 then "-" + Digits(-n) else Digits(n)
  }

  /** The value of a digit in some base; letters count differently in bases above 36. */
  function DigitValue(c: char, base: int): Option<nat> {
    if IsDigit(c) then Some((c as int) - ('0' as int))
    else if 'a' <= c <= 'z' then Some((c as int) - ('a' as int) + 10)
    else if 'A' <= c <= 'Z' then Some((c as int) - ('A' as int) + (if base <= 36 then 10 else 36))
    else if c == '@' then Some(62)
    else if c == '_' then Some(63)
    else None
  }

  /** The loop of `strlong`; `None` is an evaluation error. */
  function StrlongFrom(s: string, i: nat, base: int, found: bool, val: int): Option<int>
    requires i <= |s|
    decreases |s| - i
  {
    if i == |s| then Some(val)
    else if s[i] == '#' then
      if found || val < 2 || val > 64 then None else StrlongFrom(s, i + 1, val, true, 0)
    else
      match DigitValue(s[i], base)
      case None => Some(val)
      case Some(d) => if d >= base then None else StrlongFrom(s, i + 1, base, found, val * base + d)
  }

  /** `strlong`: decimal, 0 octal, 0x hexadecimal, or base#number. */
  function Strlong(s: string): Option<int> {
    if s == "" || s[0] != '0' then StrlongFrom(s, 0, 10, false, 0)
    else if |s| == 1 then Some(0)
    else if s[1] == 'x' || s[1] == 'X' then StrlongFrom(s, 2, 16, true, 0)
    else StrlongFrom(s, 1, 8, true, 0)
  }
}
