/** Sequence expressions such as 1..10..3 or a..e between braces (ipc/bash-4.2/braces.c). */
module BraceTerms {
  import opened Common
  import opened Arithmetic

  // ---------- Numbers at the start of a text ----------

  /** `isspace` in the C locale. */
  predicate Space(c: char) { c == ' ' || 9 as char <= c <= 13 as char }

  function SkipSpace(s: string, i: nat): (j: nat)
    requires i <= |s|
    ensures i <= j <= |s|
    decreases |s| - i
  {
    if i < |s| && Space(s[i]) then SkipSpace(s, i + 1) else i
  }

  function SkipDigits(s: string, i: nat): (j: nat)
    requires i <= |s|
    ensures i <= j <= |s| && forall k :: i <= k < j ==> IsDigit(s[k])
    decreases |s| - i
  {
    if i < |s| && IsDigit(s[i]) then SkipDigits(s, i + 1) else i
  }

  function DigitOf(c: char): nat
    requires IsDigit(c)
  {
    c as int - '0' as int
  }

  /** The number some digits stand for. */
  function DecimalValue(s: string): nat
    requires forall k :: 0 <= k < |s| ==> IsDigit(s[k])
  {
    if s == "" then 0 else
      assert IsDigit(s[|s| - 1]);
      DecimalValue(s[..|s| - 1]) * 10 + DigitOf(s[|s| - 1])
  }

  /** `strtoimax` in base 10: the number at the start of `s` and where it ends, which is 0 if there is
      none. */
  function Strtol(s: string): (r: (int, nat))
    ensures r.1 <= |s|
  {
    var i := SkipSpace(s, 0);
    var signed := i < |s| && (s[i] == '+' || s[i] == '-');
    var first := if signed then i + 1 else i;
    var end := SkipDigits(s, first);
    if end == first then (0, 0) else
      var v: int := DecimalValue(s[first..end]);
      (if signed && s[i] == '-' then -v else v, end)
  }

  /** Blanks and tabs. */
  predicate AllBlank(s: string) { forall i :: 0 <= i < |s| ==> s[i] == ' ' || s[i] == '\t' }

  /** `legal_number`. */
  function LegalNumber(s: string): Option<int> {
    var (v, end) := Strtol(s);
    if end > 0 && AllBlank(s[end..]) then Some(v) else None
  }

  lemma {:induction false} DigitsDecimal(n: nat)
    ensures DecimalValue(Digits(n)) == n
  {
    if n >= 10 {
      var d := Digits(n);
      assert d[..|d| - 1] == Digits(n / 10);
      DigitsDecimal(n / 10);
    } else {
      assert Digits(n)[..0] == "";
    }
  }

  lemma {:induction false} DigitsEnd(s: string, i: nat, j: nat)
    requires i <= j <= |s| && (forall k :: i <= k < j ==> IsDigit(s[k])) && (j < |s| ==> !IsDigit(s[j]))
    ensures SkipDigits(s, i) == j
    decreases j - i
  {
    if i < j { DigitsEnd(s, i + 1, j); }
  }

  /** Blanks, a sign, digits, and something else. */
  lemma {:induction false} StrtolText(blank: string, sign: string, digits: string, w: string)
    requires forall k :: 0 <= k < |blank| ==> blank[k] == ' ' || 9 <= blank[k] as int <= 13
    requires sign in {"", "+", "-"} && digits != "" && (forall k :: 0 <= k < |digits| ==> IsDigit(digits[k]))
    requires w != "" ==> !IsDigit(w[0])
    ensures Strtol(blank + (sign + (digits + w)))
         == (if sign == "-" then -(DecimalValue(digits) as int) else DecimalValue(digits),
             |blank| + |sign| + |digits|)
  {
    hide DecimalValue, Strtol, IsDigit;
    var s := blank + (sign + (digits + w));
    SignedParts(blank, sign, digits, w);
    StrtolIs(s, |blank|, |blank| + |sign|, |blank| + |sign| + |digits|);
  }

  lemma {:induction false} StrtolDigits(sign: string, digits: string, w: string)
    requires (sign == "" || sign == "-") && digits != "" && (forall k :: 0 <= k < |digits| ==> IsDigit(digits[k]))
    requires w != "" ==> !IsDigit(w[0])
    ensures Strtol(sign + (digits + w))
         == (if sign == "-" then -(DecimalValue(digits) as int) else DecimalValue(digits), |sign| + |digits|)
  {
    hide DecimalValue, Strtol;
    assert "" + (sign + (digits + w)) == sign + (digits + w);
    StrtolText("", sign, digits, w);
  }

  lemma StrtolIs(s: string, blanks: nat, first: nat, end: nat)
    requires blanks <= first < end <= |s| && (forall k :: 0 <= k < blanks ==> s[k] == ' ' || 9 <= s[k] as int <= 13)
    requires (forall k :: first <= k < end ==> IsDigit(s[k])) && (end < |s| ==> !IsDigit(s[end]))
    requires first == blanks || (first == blanks + 1 && (s[blanks] == '-' || s[blanks] == '+'))
    ensures var v := DecimalValue(s[first..end]);
            Strtol(s) == (if first > blanks && s[blanks] == '-' then -(v as int) else v, end)
  {
    hide DecimalValue, SkipDigits, SkipSpace;
    DigitsEnd(s, first, end);
    SpacesEnd(s, 0, blanks);
  }

  lemma SignedParts(blank: string, sign: string, digits: string, w: string)
    requires sign in {"", "+", "-"} && digits != "" && (forall k :: 0 <= k < |digits| ==> IsDigit(digits[k]))
    ensures var s, first, end := blank + (sign + (digits + w)), |blank| + |sign|, |blank| + |sign| + |digits|;
            && s[first..end] == digits && (forall k :: first <= k < end ==> IsDigit(s[k]))
            && (forall k :: 0 <= k < |blank| ==> s[k] == blank[k])
            && (end < |s| ==> w != "" && s[end] == w[0])
            && (if sign == "" then IsDigit(s[|blank|]) else s[|blank|] == sign[0])
  {
    var s, first, end := blank + (sign + (digits + w)), |blank| + |sign|, |blank| + |sign| + |digits|;
    forall k | first <= k < end ensures IsDigit(s[k]) { assert s[k] == digits[k - first]; }
    if end < |s| { assert s[end] == w[0]; }
    assert sign != "" ==> s[|blank|] == sign[0];
    assert sign == "" ==> s[|blank|] == digits[0];
  }

  lemma {:induction false} SpacesEnd(s: string, i: nat, j: nat)
    requires i <= j < |s| && (forall k :: i <= k < j ==> s[k] == ' ' || 9 <= s[k] as int <= 13)
    requires IsDigit(s[j]) || s[j] == '-' || s[j] == '+'
    ensures SkipSpace(s, i) == j
    decreases j - i
  {
    if i < j { SpacesEnd(s, i + 1, j); }
  }

  /** Reading a printed number gives it back, up to its end. */
  lemma StrtolItos(n: int, w: string)
    requires w != "" ==> !IsDigit(w[0])
    ensures Strtol(Itos(n) + w) == (n, |Itos(n)|)
  {
    var sign := if n < 0 then "-" else "";
    assert Itos(n) + w == sign + (Digits(Abs(n)) + w);
    DigitsDecimal(Abs(n));
    StrtolDigits(sign, Digits(Abs(n)), w);
  }

  // ---------- The terms of a progression ----------

  /** Term `k` of the progression from `start` to `end` in steps of `u`. */
  function Term(start: int, end: int, u: nat, k: nat): int {
    if start <= end then start + k * u else start - k * u
  }

  /** How a term is written: a number, a number padded with zeros to some width, or a character. */
  datatype Kind = Number | Padded(width: nat) | Character

  function Zeros(n: nat): string { seq(n, _ => '0') }

  function TermText(kind: Kind, n: int): string {
    match kind
    case Number => Itos(n)
    case Padded(width) =>
      var digits, sign := Digits(Abs(n)), if n < 0 then "-" else "";
      sign + Zeros(if |sign| + |digits| < width then width - |sign| - |digits| else 0) + digits
    case Character => if 0 <= n < 256 then [n as char] else ""
  }

  /** The terms of a sequence; the sign of the increment does not matter, and 0 means 1. */
  function Terms(start: int, end: int, incr: int, kind: Kind): seq<string> {
    var u := if incr == 0 then 1 else Abs(incr);
    seq(Abs(end - start) / u + 1, k requires 0 <= k => TermText(kind, Term(start, end, u, k)))
  }

  lemma TermsAt(start: int, end: int, incr: int, kind: Kind, k: nat)
    ensures var u := if incr == 0 then 1 else if incr < 0 then -incr else incr;
      && |Terms(start, end, incr, kind)| == Abs(end - start) / u + 1
      && (k < |Terms(start, end, incr, kind)| ==>
            Terms(start, end, incr, kind)[k] == TermText(kind, if start <= end then start + k * u else start - k * u))
  {
    hide TermText;
    var u := if incr == 0 then 1 else if incr < 0 then -incr else incr;
    if k < |Terms(start, end, incr, kind)| {
      assert Terms(start, end, incr, kind)[k] == TermText(kind, Term(start, end, u, k));
    }
  }

  /** A padded number has the width asked for, unless it is longer, and is the same number. */
  lemma PaddedValue(width: nat, n: int)
    ensures |TermText(Padded(width), n)| == if |Itos(n)| < width then width else |Itos(n)|
    ensures Strtol(TermText(Padded(width), n)) == (n, |TermText(Padded(width), n)|)
    ensures forall k :: 0 <= k < |TermText(Padded(width), n)| ==>
      IsDigit(TermText(Padded(width), n)[k]) || (k == 0 && n < 0 && TermText(Padded(width), n)[0] == '-')
  {
    hide DecimalValue, Digits, Strtol;
    var t, sign, m := TermText(Padded(width), n), if n < 0 then "-" else "", Abs(n);
    var pad := if |sign| + |Digits(m)| < width then width - |sign| - |Digits(m)| else 0;
    assert t == sign + (Zeros(pad) + Digits(m));
    ZerosValue(pad, Digits(m));
    DigitsDecimal(m);
    StrtolDigits(sign, Zeros(pad) + Digits(m), "");
    assert t == sign + ((Zeros(pad) + Digits(m)) + "");
  }

  lemma {:induction false} ZerosValue(pad: nat, s: string)
    requires forall k :: 0 <= k < |s| ==> IsDigit(s[k])
    ensures DecimalValue(Zeros(pad) + s) == DecimalValue(s)
    decreases |s|, pad
  {
    var t := Zeros(pad) + s;
    if s != "" {
      assert t[..|t| - 1] == Zeros(pad) + s[..|s| - 1];
      ZerosValue(pad, s[..|s| - 1]);
    } else if pad > 0 {
      assert t[..|t| - 1] == Zeros(pad - 1) + s;
      ZerosValue(pad - 1, s);
    }
  }

  // ---------- Sequence expressions ----------

  /** The first `..` from `i` on, or the end of the text. */
  function FindDots(text: string, i: nat): (j: nat)
    requires i <= |text|
    ensures i <= j <= |text| && (j < |text| ==> j + 2 <= |text|)
    decreases |text| - i
  {
    if i + 1 >= |text| then |text|
    else if text[i] == '.' && text[i + 1] == '.' then i
    else FindDots(text, i + 1)
  }

  /** One end of the sequence: a number or a letter. */
  datatype End = Value(n: int) | Letter(c: char)

  function LeftEnd(lhs: string): Option<End> {
    match LegalNumber(lhs)
    case Some(n) => Some(Value(n))
    case None => if |lhs| == 1 && IsAlpha(lhs[0]) then Some(Letter(lhs[0])) else None
  }

  /** The right end and the length of its text; an increment may follow. */
  function RightEnd(rhs: string): (r: Option<(End, nat)>)
    requires rhs != ""
    ensures r.Some? ==> r.value.1 <= |rhs|
  {
    if IsDigit(rhs[0]) || ((rhs[0] == '+' || rhs[0] == '-') && IsDigit(At(rhs, 1))) then
      var (n, ep) := Strtol(rhs);
      if ep == |rhs| || rhs[ep] == '.' then Some((Value(n), ep)) else None
    else if IsAlpha(rhs[0]) && (|rhs| == 1 || rhs[1] == '.') then Some((Letter(rhs[0]), 1))
    else None
  }

  /** The increment behind the right end: 1 if there is nothing, none if there is something else. */
  function IncrementAfter(rest: string): Option<int> {
    if rest == "" then Some(1)
    else if |rest| > 2 && rest[0] == '.' && rest[1] == '.' then
      var (n, end) := Strtol(rest[2..]);
      if end == |rest| - 2 then Some(n) else None
    else None
  }

  /** The text of a number that has more digits than it needs. */
  predicate LeadingZero(s: string) {
    (|s| > 1 && s[0] == '0') || (|s| > 2 && s[0] == '-' && s[1] == '0')
  }

  function KindOf(lhs: string, rhs: string): Kind {
    if LeadingZero(lhs) || LeadingZero(rhs) then Padded(if |lhs| < |rhs| then |rhs| else |lhs|) else Number
  }

  /** `expand_seqterm`. */
  function ExpandSeqterm(text: string): Option<seq<string>> {
    var t := FindDots(text, 0);
    if t == |text| || t == 0 || t + 2 == |text| then None else
      var lhs, rhs := text[..t], text[t + 2..];
      match (LeftEnd(lhs), RightEnd(rhs))
      case (Some(left), Some((right, ep))) =>
        (match (left, right, IncrementAfter(rhs[ep..]))
         case (Value(m), Value(n), Some(incr)) => Some(Terms(m, n, incr, KindOf(lhs, rhs[..ep])))
         case (Letter(a), Letter(b), Some(incr)) => Some(Terms(a as int, b as int, incr, Character))
         case _ => None)
      case _ => None
  }

  // ---------- The loops ----------

  /** `mkseq`: the buffer it allocates, filled from the front and ended by a null entry. An increment of 0
      means 1, and its sign does not matter. */
  method MkSeq(start: int, end: int, incr: int, kind: Kind) returns (result: array<Option<string>>, n: nat)
    ensures fresh(result) && result.Length == Abs(end - start) + 2
    ensures var u := if incr == 0 then 1 else if incr < 0 then -incr else incr;
      && n == Abs(end - start) / u + 1 < result.Length && result[n] == None
      && forall k {:trigger result[k]} :: 0 <= k < n ==>
           result[k] == Some(TermText(kind, if start <= end then start + k * u else start - k * u))
  {
    var d := if incr == 0 then 1 else incr;
    if start > end && d > 0 {
      d := -d;
    } else if start < end && d < 0 {
      d := -d;
    }
    result, n := FillSeq(start, end, d, kind);
    ghost var u := if incr == 0 then 1 else if incr < 0 then -incr else incr;
    TermCount(start, end, d, n);
    forall k | 0 <= k < n ensures start + k * d == if start <= end then start + k * u else start - k * u {
      Negate(k, u);
    }
  }

  /** `end` lies between term `n - 1` and term `n`. */
  predicate LastBefore(start: int, end: int, d: int, n: nat) {
    n > 0 &&
    if d > 0 then start + (n - 1) * d <= end < start + n * d else start + n * d < end <= start + (n - 1) * d
  }

  /** The loop of `mkseq`, which goes round at least once. */
  method FillSeq(start: int, end: int, d: int, kind: Kind) returns (result: array<Option<string>>, n: nat)
    requires if start == end then d != 0 else if start < end then d > 0 else d < 0
    ensures fresh(result) && result.Length == Abs(end - start) + 2
    ensures n < result.Length && result[n] == None
    ensures start != end ==> LastBefore(start, end, d, n)
    ensures start == end ==> n == 1
    ensures forall k {:trigger result[k]} :: 0 <= k < n ==> result[k] == Some(TermText(kind, start + k * d))
  {
    hide TermText;
    var size := Abs(end - start) + 1;
    result := new Option<string>[size + 1](_ => None);
    n := 0;
    var t := start;
    while true
      invariant t == start + n * d && n <= Abs(t - start)
      invariant if start <= end then start <= t <= end else end <= t <= start
      invariant start == end ==> n == 0
      invariant forall k {:trigger result[k]} :: 0 <= k < n ==> result[k] == Some(TermText(kind, start + k * d))
      decreases size - n
    {
      result[n] := Some(TermText(kind, t));
      NextMultiple(n, d);
      n := n + 1;
      t := t + d;
      if (d < 0 && t < end) || (d > 0 && t > end) {
        break;
      }
    }
    result[n] := None;
  }

  lemma NextMultiple(n: nat, d: int)
    ensures (n + 1) * d == n * d + d
  {
  }

  /** `expand_seqterm`, with the width worked out step by step. */
  method ExpandSequence(text: string) returns (result: Option<seq<string>>)
    ensures result == ExpandSeqterm(text)
  {
    hide Strtol, LegalNumber, Terms;
    result := None;
    var t := FindDots(text, 0);
    if t == |text| || t == 0 || t + 2 == |text| { return; }
    var lhs, rhs := text[..t], text[t + 2..];
    var left, right := LeftEnd(lhs), RightEnd(rhs);
    if left == None || right == None { return; }
    var ep := right.value.1;
    var incr := IncrementAfter(rhs[ep..]);
    if incr == None || left.value.Value? != right.value.0.Value? { return; }
    if left.value.Letter? {
      var terms := Sequence(left.value.c as int, right.value.0.c as int, incr.value, Character);
      return Some(terms);
    }
    var kind := WidthOf(lhs, rhs[..ep]);
    var terms := Sequence(left.value.n, right.value.0.n, incr.value, kind);
    result := Some(terms);
  }

  /** Whether terms are padded, and to what width. */
  method WidthOf(lhs: string, rhs: string) returns (kind: Kind)
    ensures kind == KindOf(lhs, rhs)
  {
    var width, padded := 0, false;
    if |lhs| > 1 && lhs[0] == '0' {
      width, padded := |lhs|, true;
    }
    if |lhs| > 2 && lhs[0] == '-' && lhs[1] == '0' {
      width, padded := |lhs|, true;
    }
    if |rhs| > 1 && rhs[0] == '0' && width < |rhs| {
      width, padded := |rhs|, true;
    }
    if |rhs| > 2 && rhs[0] == '-' && rhs[1] == '0' && width < |rhs| {
      width, padded := |rhs|, true;
    }
    if width < |lhs| && padded {
      width := |lhs|;
    }
    if width < |rhs| && padded {
      width := |rhs|;
    }
    kind := if padded then Padded(width) else Number;
  }

  /** The strings `mkseq` leaves in its buffer. */
  method Sequence(start: int, end: int, incr: int, kind: Kind) returns (terms: seq<string>)
    ensures terms == Terms(start, end, incr, kind)
  {
    hide TermText;
    var buffer, n := MkSeq(start, end, incr, kind);
    ghost var all := Terms(start, end, incr, kind);
    forall k | 0 <= k < n ensures n == |all| && buffer[k] == Some(all[k]) {
      TermsAt(start, end, incr, kind, k);
    }
    terms := [];
    var i := 0;
    while i < n
      invariant 0 <= i <= n && terms == all[..i]
    {
      terms := terms + [buffer[i].value];
      i := i + 1;
    }
  }

  /** The last term not past `end` is number `|end - start| / |d|`. */
  lemma TermCount(start: int, end: int, d: int, n: nat)
    requires d != 0 && if start == end then n == 1 else (start < end <==> d > 0) && LastBefore(start, end, d, n)
    ensures n == Abs(end - start) / Abs(d) + 1
  {
    Negate(n, d);
    Negate(n - 1, d);
    if start == end {
      QuotientIs(0, Abs(d), 0);
    } else {
      QuotientIs(Abs(end - start), Abs(d), n - 1);
    }
  }

  lemma Negate(n: int, step: int)
    ensures n * (-step) == -(n * step)
  {
  }

  lemma QuotientIs(span: nat, step: nat, q: nat)
    requires step > 0 && q * step <= span < (q + 1) * step
    ensures span / step == q
  {
    var e := span / step;
    if e > q { MulLe(q + 1, e, step); }
    if e < q { MulLe(e + 1, q, step); }
  }

  lemma MulLe(a: nat, b: nat, c: nat)
    requires a <= b
    ensures a * c <= b * c
  {
  }
}
