/** Numbers in the text of shell arithmetic: the number read is the positional value of its digits
    (ipc/bash-4.2/expr.c). */
module Numerals {
  import opened Common
  import opened Arithmetic

  /** The character `c` stands for the digit `d`. Up to base 36 letters count in either case; above it,
      capital letters come after the others. */
  predicate Writes(c: char, base: nat, d: nat) {
    d < base &&
    (|| (d < 10 && c as int == '0' as int + d)
     || (10 <= d < 36 && c as int == 'a' as int + (d - 10))
     || (10 <= d < 36 && base <= 36 && c as int == 'A' as int + (d - 10))
     || (36 <= d < 62 && c as int == 'A' as int + (d - 36))
     || (d == 62 && c == '@')
     || (d == 63 && c == '_'))
  }

  ghost predicate Numeral(s: string, base: nat, ds: seq<nat>) {
    |s| == |ds| && forall i :: 0 <= i < |s| ==> Writes(s[i], base, ds[i])
  }

  /** The value of some digits, the first of which counts most. */
  function Positional(ds: seq<nat>, base: nat): int {
    if ds == [] then 0 else ds[0] * Pow(base, |ds| - 1) + Positional(ds[1..], base)
  }

  lemma WritesValue(c: char, base: nat, d: nat)
    requires 2 <= base <= 64 && Writes(c, base, d)
    ensures c != '#' && DigitValue(c, base) == Some(d)
  {
  }

  /** One round of the loop of `strlong`. */
  lemma ReadDigit(s: string, i: nat, base: nat, found: bool, val: int, d: nat)
    requires i < |s| && 2 <= base <= 64 && Writes(s[i], base, d)
    ensures StrlongFrom(s, i, base, found, val) == StrlongFrom(s, i + 1, base, found, val * base + d)
  {
    hide DigitValue;
    WritesValue(s[i], base, d);
  }

  /** The value read so far and the digits to come. */
  function Total(val: int, ds: seq<nat>, base: nat): int {
    val * Pow(base, |ds|) + Positional(ds, base)
  }

  lemma TotalStep(val: int, ds: seq<nat>, base: nat)
    requires ds != []
    ensures Total(val * base + ds[0], ds[1..], base) == Total(val, ds, base)
  {
    var p, d := Pow(base, |ds| - 1), ds[0];
    Horner(val, base, d, p);
    assert Pow(base, |ds|) == p * base;
    assert Positional(ds, base) == d * p + Positional(ds[1..], base);
  }

  lemma Horner(val: int, base: int, d: int, p: int)
    ensures (val * base + d) * p == val * (p * base) + d * p
  {
    assert (val * base) * p == val * (p * base);
  }

  /** The loop of `strlong` on digits that are all that is left. */
  lemma {:induction false} NumeralRead(s: string, i: nat, base: nat, found: bool, val: int, ds: seq<nat>)
    requires i <= |s| && 2 <= base <= 64 && Numeral(s[i..], base, ds)
    ensures StrlongFrom(s, i, base, found, val) == Some(Total(val, ds, base))
    decreases |ds|
  {
    if ds == [] {
      assert StrlongFrom(s, i, base, found, val) == Some(val);
    } else {
      hide StrlongFrom, Total, Writes;
      assert s[i..][0] == s[i] && s[i..][1..] == s[i + 1..];
      ReadDigit(s, i, base, found, val, ds[0]);
      NumeralRead(s, i + 1, base, found, val * base + ds[0], ds[1..]);
      TotalStep(val, ds, base);
    }
  }

  /** Digits that can be read are a numeral. */
  lemma {:induction false} NumeralOf(s: string, i: nat, base: nat, val: int) returns (ds: seq<nat>)
    requires i <= |s| && 2 <= base <= 64 && StrlongFrom(s, i, base, true, val).Some?
    requires forall k :: i <= k < |s| ==> IsAlpha(s[k]) || IsDigit(s[k]) || s[k] in {'_', '@', '#'}
    ensures Numeral(s[i..], base, ds)
    decreases |s| - i
  {
    ds := [];
    if i < |s| {
      var d := DigitValue(s[i], base).value;
      assert Writes(s[i], base, d);
      var rest := NumeralOf(s, i + 1, base, val * base + d);
      ds := [d] + rest;
      assert s[i..] == [s[i]] + s[i + 1..];
    }
  }

  // ---------- Printed numbers ----------

  lemma {:induction false} PositionalAppend(ds: seq<nat>, d: nat, base: nat)
    ensures Positional(ds + [d], base) == Positional(ds, base) * base + d
  {
    if ds == [] {
      assert Positional([d], base) == d * Pow(base, 0) + Positional([d][1..], base);
    } else {
      var p := Pow(base, |ds| - 1);
      assert (ds + [d])[1..] == ds[1..] + [d];
      PositionalAppend(ds[1..], d, base);
      assert (ds[0] * p + Positional(ds[1..], base)) * base == ds[0] * (p * base) + Positional(ds[1..], base) * base;
    }
  }

  /** The decimal digits of a printed number. */
  lemma {:induction false} DigitsPositional(n: nat) returns (ds: seq<nat>)
    ensures Numeral(Digits(n), 10, ds) && Positional(ds, 10) == n
    ensures Digits(n)[0] == '0' ==> n == 0
  {
    if n < 10 {
      ds := [n];
      assert Positional(ds[1..], 10) == 0;
    } else {
      var front := DigitsPositional(n / 10);
      ds := front + [n % 10];
      PositionalAppend(front, n % 10, 10);
    }
  }

  /** Reading a printed number gives the number back. */
  lemma {:induction false} StrlongDigits(n: nat)
    ensures Strlong(Digits(n)) == Some(n)
  {
    var ds := DigitsPositional(n);
    assert Digits(n)[0..] == Digits(n);
    NumeralRead(Digits(n), 0, 10, false, 0, ds);
  }

  // ---------- Numbers as they may be written ----------

  /** Decimal numbers, which do not start with a zero. */
  lemma {:induction false} StrlongDecimal(s: string, ds: seq<nat>)
    requires s != "" && (s[0] != '0' || s == "0") && Numeral(s, 10, ds)
    ensures Strlong(s) == Some(Positional(ds, 10))
  {
    assert s[0..] == s;
    NumeralRead(s, 0, 10, false, 0, ds);
    if s == "0" { assert Positional(ds[1..], 10) == 0; }
  }

  /** Octal and hexadecimal numbers. */
  lemma {:induction false} StrlongOctalHex(s: string, ds: seq<nat>)
    ensures s != "" && Numeral(s, 8, ds) ==> Strlong("0" + s) == Some(Positional(ds, 8))
    ensures Numeral(s, 16, ds) ==> Strlong("0x" + s) == Strlong("0X" + s) == Some(Positional(ds, 16))
  {
    hide StrlongFrom, Positional, Pow;
    if s != "" && Numeral(s, 8, ds) {
      assert ("0" + s)[1..] == s && ("0" + s)[1] == s[0];
      NumeralRead("0" + s, 1, 8, true, 0, ds);
    }
    if Numeral(s, 16, ds) {
      assert ("0x" + s)[2..] == s == ("0X" + s)[2..];
      assert ("0x" + s)[..2] == "0x" && ("0X" + s)[..2] == "0X";
      NumeralRead("0x" + s, 2, 16, true, 0, ds);
      NumeralRead("0X" + s, 2, 16, true, 0, ds);
    }
  }

  /** Numbers in any base from 2 to 64, written base#digits. */
  lemma {:induction false} StrlongBase(base: nat, s: string, ds: seq<nat>)
    requires 2 <= base <= 64 && Numeral(s, base, ds)
    ensures Strlong(Digits(base) + "#" + s) == Some(Positional(ds, base))
  {
    hide Positional;
    var t := Digits(base) + "#" + s;
    BasePrefix(base, t);
    assert t[|Digits(base)| + 1..] == s;
    NumeralRead(t, |Digits(base)| + 1, base, true, 0, ds);
  }

  /** Such a text is an error if something in it is no digit of the base, or if there is no such base. */
  lemma {:induction false} StrlongBaseIff(base: nat, s: string)
    requires forall k :: 0 <= k < |s| ==> IsAlpha(s[k]) || IsDigit(s[k]) || s[k] in {'_', '@', '#'}
    ensures Strlong(Digits(base) + "#" + s).Some? <==> 2 <= base <= 64 && exists ds :: Numeral(s, base, ds)
  {
    hide Positional;
    var t, m := Digits(base) + "#" + s, |Digits(base)| + 1;
    assert t[m..] == s;
    BasePrefix(base, t);
    if 2 <= base <= 64 {
      if Strlong(t).Some? {
        assert forall k :: m <= k < |t| ==> t[k] == s[k - m];
        var ds := NumeralOf(t, m, base, 0);
      } else {
        forall ds ensures !Numeral(s, base, ds) {
          if Numeral(s, base, ds) { StrlongBase(base, s, ds); }
        }
      }
    }
  }

  /** Up to the number sign. */
  lemma {:induction false} BasePrefix(base: nat, s: string)
    requires |Digits(base)| < |s| && s[..|Digits(base)| + 1] == Digits(base) + "#"
    ensures Strlong(s) == if 2 <= base <= 64 then StrlongFrom(s, |Digits(base)| + 1, base, true, 0) else None
  {
    var d := Digits(base);
    var ds := DigitsPositional(base);
    assert forall k :: 0 <= k <= |d| ==> s[k] == s[..|d| + 1][k] == (d + "#")[k];
    assert base == 0 ==> d == "0";
    hide StrlongFrom, Numeral, Positional, Digits;
    if base > 0 {
      assert s[0..|d|] == d;
      ToSign(s, 0, 0, ds);
    } else {
      ZeroBase(s);
    }
  }

  lemma ZeroBase(s: string)
    requires |s| >= 2 && s[0] == '0' && s[1] == '#'
    ensures Strlong(s) == None
  {
  }

  /** The digits before the number sign. */
  lemma {:induction false} ToSign(s: string, i: nat, val: int, ds: seq<nat>)
    requires i + |ds| < |s| && s[i + |ds|] == '#' && Numeral(s[i..i + |ds|], 10, ds)
    ensures StrlongFrom(s, i, 10, false, val)
         == var base := Total(val, ds, 10);
            if 2 <= base <= 64 then StrlongFrom(s, i + |ds| + 1, base, true, 0) else None
    decreases |ds|
  {
    if ds == [] {
      assert Total(val, ds, 10) == val;
    } else {
      hide StrlongFrom, Total, Writes;
      assert s[i..i + |ds|][0] == s[i] && s[i..i + |ds|][1..] == s[i + 1..i + |ds|];
      ReadDigit(s, i, 10, false, val, ds[0]);
      ToSign(s, i + 1, val * 10 + ds[0], ds[1..]);
      TotalStep(val, ds, 10);
    }
  }
}
