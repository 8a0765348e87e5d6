/** Brace expansion (ipc/bash-4.2/braces.c), as built into the shell, for single-byte text.

    `Gobble`, `Expand` and `ExpandAmble` say what the scanning loops compute; the methods are the
    loops. Where a command or process substitution ends is the business of `extract_command_subst`, which
    is a parameter. */
module Braces {
  import opened Common
  import opened BraceTerms

  /** `brace_whitespace`. */
  predicate Blank(c: char) {
    c == NUL || c == ' ' || c == '\t' || c == '\n'
  }

  predicate Quote(c: char) {
    c == '"' || c == '\'' || c == '`'
  }

  /** An open brace at `i` that is ignored: blank around it, or `{}` after a blank. */
  predicate IgnoredBrace(text: string, i: nat)
    requires i < |text|
  {
    (i == 0 || Blank(text[i - 1])) && (Blank(At(text, i + 1)) || At(text, i + 1) == '}')
  }

  /** A comma, or a `..` not just before the close brace, outside inner braces. */
  predicate Separator(text: string, i: nat, level: nat)
    requires i < |text|
  {
    level == 0 && (text[i] == ',' || (text[i] == '.' && At(text, i + 1) == '.' && At(text, i + 2) != '}'))
  }

  /** The state of the scan: depth of inner braces, open quote (or NUL), whether the next character
      is taken literally, and separators seen. */
  datatype Scan = Scan(level: nat, quoted: char, pass: bool, commas: nat)

  function InitScan(satisfy: char): Scan {
    Scan(0, NUL, false, if satisfy == '}' then 0 else 1)
  }

  /** Where the substitution whose text starts at a position ends: at its close parenthesis. */
  type SubstEnd = (string, nat) -> nat

  /** A command or process substitution starts at `i`. */
  predicate Substitution(text: string, i: nat, s: Scan)
    requires i < |text|
  {
    !s.pass && s.quoted == NUL && text[i] in {'$', '<', '>'} && At(text, i + 1) == '('
  }

  /** The position behind it; the search never goes backwards or past the end. */
  function AfterSubst(sub: SubstEnd, text: string, i: nat): (j: nat)
    requires i < |text|
    ensures i < j <= |text|
  {
    var end := sub(text, i + 2);
    if end < i + 2 then i + 1 else if end < |text| then end + 1 else |text|
  }

  /** The scan stops at `i`. */
  predicate Stops(text: string, i: nat, satisfy: char, s: Scan)
    requires i < |text|
  {
    var c := text[i];
    && !s.pass && s.quoted == NUL && !Quote(c) && c != '\\' && !(c == '$' && At(text, i + 1) == '{')
    && c == satisfy && s.level == 0 && s.commas > 0
    && !(c == '{' && IgnoredBrace(text, i))
  }

  /** The state of the scan after the character at `i`. */
  function Advance(text: string, i: nat, satisfy: char, s: Scan): Scan
    requires i < |text|
  {
    var c := text[i];
    if s.pass then s.(pass := false)
    else if c == '\\' && s.quoted != '\'' then s.(pass := true)
    else if c == '$' && At(text, i + 1) == '{' && s.quoted != '\'' then
      s.(pass := true, level := if s.quoted == NUL then s.level + 1 else s.level)
    else if s.quoted != NUL then (if c == s.quoted then s.(quoted := NUL) else s)
    else if Quote(c) then s.(quoted := c)
    else if c == satisfy && s.level == 0 && s.commas > 0 then s
    else if c == '{' then s.(level := s.level + 1)
    else if c == '}' && s.level > 0 then s.(level := s.level - 1)
    else if satisfy == '}' && Separator(text, i, s.level) then s.(commas := s.commas + 1)
    else s
  }

  /** Where the scan from `i` stops, and whether at the character looked for. */
  function Gobble(sub: SubstEnd, text: string, i: nat, satisfy: char, s: Scan): (r: (nat, bool))
    requires i <= |text|
    ensures i <= r.0 <= |text|
    ensures if r.1 then r.0 < |text| && text[r.0] == satisfy else r.0 == |text|
    decreases |text| - i
  {
    if i == |text| then (i, false)
    else if Substitution(text, i, s) then Gobble(sub, text, AfterSubst(sub, text, i), satisfy, s)
    else if Stops(text, i, satisfy, s) then (i, true)
    else Gobble(sub, text, i + 1, satisfy, Advance(text, i, satisfy, s))
  }

  function GobbleFrom(sub: SubstEnd, text: string, i: nat, satisfy: char): (r: (nat, bool))
    requires i <= |text|
    ensures i <= r.0 <= |text|
    ensures if r.1 then r.0 < |text| && text[r.0] == satisfy else r.0 == |text|
  {
    Gobble(sub, text, i, satisfy, InitScan(satisfy))
  }

  /** The first open brace from `i` on that begins a brace expression. */
  function FindOpen(sub: SubstEnd, text: string, i: nat): (r: (nat, bool))
    requires i <= |text|
    ensures i <= r.0 <= |text|
    ensures if r.1 then r.0 < |text| && text[r.0] == '{' && GobbleFrom(sub, text, r.0 + 1, '}').1 else r.0 == |text|
    decreases |text| - i
  {
    var (j, found) := GobbleFrom(sub, text, i, '{');
    if !found then (j, false)
    else if GobbleFrom(sub, text, j + 1, '}').1 then (j, true)
    else FindOpen(sub, text, j + 1)
  }

  /** The amble has a comma that is not escaped by a backslash. */
  predicate HasComma(amble: string, j: nat)
    decreases |amble| - j
  {
    j < |amble| &&
    if amble[j] == '\\' then HasComma(amble, j + 2) else amble[j] == ',' || HasComma(amble, j + 1)
  }

  /** Each string of `a` with each string of `b` after it. */
  function Cross(a: seq<string>, b: seq<string>): seq<string> {
    if a == [] then [] else Prefix(a[0], b) + Cross(a[1..], b)
  }

  function Prefix(x: string, b: seq<string>): (r: seq<string>)
    ensures |r| == |b| && forall j :: 0 <= j < |b| ==> r[j] == x + b[j]
  {
    seq(|b|, j requires 0 <= j < |b| => x + b[j])
  }

  /** The brace expansion of `text`. */
  function Expand(sub: SubstEnd, text: string): seq<string>
    decreases |text|, 0, 0
  {
    var (open, found) := FindOpen(sub, text, 0);
    if !found then [text[..open]] else
      var close := GobbleFrom(sub, text, open + 1, '}').0;
      match ExpandInner(sub, text[open + 1..close])
      case None => [text]
      case Some(tack) => Glue(text[..open], tack, Expand(sub, text[close + 1..]))
  }

  /** The expansion of what is inside a pair of braces, if they are a brace expression. */
  function ExpandInner(sub: SubstEnd, amble: string): Option<seq<string>>
    decreases |amble|, 2, 0
  {
    if HasComma(amble, 0) then Some(ExpandAmble(sub, amble, 0)) else ExpandSeqterm(amble)
  }

  /** Preamble, expansions of the amble, and expansions of the postamble. */
  function Glue(preamble: string, tack: seq<string>, post: seq<string>): seq<string> {
    Cross(Cross([preamble], tack), post)
  }

  /** The expansions of the slots between the commas of `text`, from `i` on. */
  function ExpandAmble(sub: SubstEnd, text: string, i: nat): seq<string>
    requires i <= |text|
    decreases |text|, 1, |text| - i
  {
    var (j, more) := GobbleFrom(sub, text, i, ',');
    Expand(sub, text[i..j]) + if more then ExpandAmble(sub, text, j + 1) else []
  }

  lemma {:induction false} ExpandFound(sub: SubstEnd, text: string, open: nat, close: nat)
    requires open < close < |text| && FindOpen(sub, text, 0) == (open, true)
    requires GobbleFrom(sub, text, open + 1, '}').0 == close
    ensures Expand(sub, text)
         == match ExpandInner(sub, text[open + 1..close])
            case None => [text]
            case Some(tack) => Glue(text[..open], tack, Expand(sub, text[close + 1..]))
  {
    hide Gobble, FindOpen, HasComma, Cross, ExpandInner, Glue;
  }

  lemma AmbleFound(sub: SubstEnd, text: string, i: nat, j: nat, more: bool)
    requires i <= j <= |text| && GobbleFrom(sub, text, i, ',') == (j, more)
    ensures ExpandAmble(sub, text, i) == Expand(sub, text[i..j]) + if more then ExpandAmble(sub, text, j + 1) else []
  {
    hide Gobble, Expand;
  }

  // ---------- The loops ----------

  /** `brace_gobbler`. */
  method BraceGobbler(sub: SubstEnd, text: string, start: nat, satisfy: char) returns (i: nat, found: bool)
    requires start <= |text|
    ensures (i, found) == GobbleFrom(sub, text, start, satisfy)
  {
    var level, quoted, passNext := 0, NUL, false;
    var commas := if satisfy == '}' then 0 else 1;
    i := start;
    while i < |text|
      invariant start <= i <= |text| && level >= 0 && commas >= 0 && (quoted == NUL || Quote(quoted))
      invariant GobbleFrom(sub, text, start, satisfy)
             == Gobble(sub, text, i, satisfy, Scan(level, quoted, passNext, commas))
    {
      var c := text[i];
      if passNext {
        passNext := false;
        i := i + 1;
        continue;
      }
      if c == '\\' && (quoted == NUL || quoted == '"' || quoted == '`') {
        passNext := true;
        i := i + 1;
        continue;
      }
      if c == '$' && At(text, i + 1) == '{' && quoted != '\'' {
        passNext := true;
        if quoted == NUL {
          level := level + 1;
        }
        i := i + 1;
        continue;
      }
      if quoted != NUL {
        if c == quoted {
          quoted := NUL;
        }
        i := i + 1;
        continue;
      }
      if Quote(c) {
        quoted := c;
        i := i + 1;
        continue;
      }
      if c in {'$', '<', '>'} && At(text, i + 1) == '(' {
        i := AfterSubst(sub, text, i);
        continue;
      }
      if c == satisfy && level == 0 && commas > 0 {
        if c == '{' && IgnoredBrace(text, i) {
          i := i + 1;
          continue;
        }
        return i, true;
      }
      if c == '{' {
        level := level + 1;
      } else if c == '}' && level > 0 {
        level := level - 1;
      } else if satisfy == '}' && c == ',' && level == 0 {
        commas := commas + 1;
      } else if satisfy == '}' && c == '.' && At(text, i + 1) == '.' && At(text, i + 2) != satisfy && level == 0 {
        commas := commas + 1;
      }
      i := i + 1;
    }
    found := false;
  }

  /** `array_concat`. */
  method ArrayConcat(arr1: seq<string>, arr2: seq<string>) returns (result: seq<string>)
    ensures result == Cross(arr1, arr2)
  {
    result := [];
    var i := 0;
    while i < |arr1|
      invariant 0 <= i <= |arr1|
      invariant Cross(arr1, arr2) == result + Cross(arr1[i..], arr2)
    {
      var row := ConcatRow(arr1[i], arr2);
      assert arr1[i..][1..] == arr1[i + 1..];
      Associative(result, row, Cross(arr1[i + 1..], arr2));
      result := result + row;
      i := i + 1;
    }
  }

  /** The inner loop of `array_concat`. */
  method ConcatRow(x: string, arr2: seq<string>) returns (row: seq<string>)
    ensures row == Prefix(x, arr2)
  {
    row := [];
    var j := 0;
    while j < |arr2|
      invariant 0 <= j <= |arr2|
      invariant row == Prefix(x, arr2)[..j]
    {
      row := row + [x + arr2[j]];
      j := j + 1;
    }
  }

  /** The search for the preamble in `brace_expand`. */
  method Preamble(sub: SubstEnd, text: string) returns (i: nat, c: bool)
    ensures (i, c) == FindOpen(sub, text, 0)
  {
    i, c := 0, true;
    while c
      invariant 0 <= i <= |text|
      invariant c ==> FindOpen(sub, text, 0) == FindOpen(sub, text, i)
      invariant !c ==> FindOpen(sub, text, 0) == (i, false)
      decreases c, |text| - i
    {
      i, c := BraceGobbler(sub, text, i, '{');
      if c {
        var j, closed := BraceGobbler(sub, text, i + 1, '}');
        if closed {
          break;
        }
        i := i + 1;
      }
    }
  }

  /** The search for a comma in `brace_expand`. */
  method CommaSearch(amble: string) returns (found: bool)
    ensures found == HasComma(amble, 0)
  {
    var j := 0;
    while j < |amble|
      invariant 0 <= j
      invariant HasComma(amble, 0) == HasComma(amble, j)
      decreases |amble| - j
    {
      if amble[j] == '\\' {
        j := j + 2;
        continue;
      }
      if amble[j] == ',' {
        break;
      }
      j := j + 1;
    }
    found := j < |amble|;
  }

  /** `brace_expand`. */
  method BraceExpand(sub: SubstEnd, text: string) returns (result: seq<string>)
    ensures result == Expand(sub, text)
    decreases |text|, 0, 0
  {
    hide Gobble, GobbleFrom, FindOpen, HasComma, Cross, ExpandInner, Glue;
    var i, c := Preamble(sub, text);
    result := [text[..i]];
    if !c {
      return;
    }
    var start := i + 1;
    i, c := BraceGobbler(sub, text, start, '}');
    if !c {
      return [text];
    }
    var tack := ExpandTack(sub, text[start..i]);
    if tack == None {
      return [text];
    }
    var post := BraceExpand(sub, text[i + 1..]);
    result := Append(text[..start - 1], tack.value, post);
  }

  method Append(preamble: string, tack: seq<string>, post: seq<string>) returns (result: seq<string>)
    ensures result == Glue(preamble, tack, post)
  {
    result := ArrayConcat([preamble], tack);
    result := ArrayConcat(result, post);
  }

  method ExpandTack(sub: SubstEnd, amble: string) returns (tack: Option<seq<string>>)
    ensures tack == ExpandInner(sub, amble)
    decreases |amble|, 2, 0
  {
    var comma := CommaSearch(amble);
    if comma {
      var result := ExpandAmbleLoop(sub, amble);
      tack := Some(result);
    } else {
      tack := ExpandSequence(amble);
    }
  }

  /** `expand_amble`. */
  method ExpandAmbleLoop(sub: SubstEnd, text: string) returns (result: seq<string>)
    ensures result == ExpandAmble(sub, text, 0)
    decreases |text|, 1, 0
  {
    hide Gobble, FindOpen, HasComma, Cross, Expand;
    result := [];
    var i, c := 0, true;
    while c
      invariant 0 <= i
      invariant c ==> i <= |text| && ExpandAmble(sub, text, 0) == result + ExpandAmble(sub, text, i)
      invariant !c ==> ExpandAmble(sub, text, 0) == result
      decreases c, |text| - i
    {
      var start := i;
      i, c := BraceGobbler(sub, text, i, ',');
      var partial := BraceExpand(sub, text[start..i]);
      AmbleStep(sub, text, start, result, partial);
      result := result + partial;
      i := i + 1;
    }
  }

  lemma Associative(a: seq<string>, b: seq<string>, c: seq<string>)
    ensures a + (b + c) == (a + b) + c
    ensures a + [] == a
  {
  }

  lemma {:induction false} AmbleStep(sub: SubstEnd, text: string, i: nat, result: seq<string>, partial: seq<string>)
    requires i <= |text| && partial == Expand(sub, text[i..GobbleFrom(sub, text, i, ',').0])
    ensures var (j, more) := GobbleFrom(sub, text, i, ',');
            result + ExpandAmble(sub, text, i)
            == if more then (result + partial) + ExpandAmble(sub, text, j + 1) else result + partial
  {
    hide Expand, Gobble;
    var (j, more) := GobbleFrom(sub, text, i, ',');
    Associative(result, partial, if more then ExpandAmble(sub, text, j + 1) else []);
  }
}
