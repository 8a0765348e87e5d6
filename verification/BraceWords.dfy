/** What brace expansion is for: a word of characters, quoted and escaped parts, parameter and command
    substitutions, alternations and sequences, written out with braces, commas and dots, expands to the
    ordered cross product it denotes. */
module BraceWords {
  import opened Common
  import opened Arithmetic
  import opened Numerals
  import opened BraceTerms
  import opened Braces

  /** A word is a concatenation of pieces that denote themselves, of alternations, which have at least two
      branches, and of sequences. */
  datatype Word =
    | End
    | Char(c: char, rest: Word)
    /** A dollar or an angle bracket that starts no substitution. */
    | Sigil(c: char, d: char, rest: Word)
    | Escaped(c: char, rest: Word)
    | Quoted(q: char, body: string, rest: Word)
    /** `${...}` */
    | Param(inner: Word, rest: Word)
    /** `$(...)`, `<(...)` or `>(...)` */
    | Subst(c: char, body: string, rest: Word)
    /** A pair of braces without a comma or sequence. */
    | Single(s: string, rest: Word)
    | Alt(branches: Branches, rest: Word)
    | Range(range: Sequence, rest: Word)

  datatype Branches = Two(w: Word, v: Word) | More(w: Word, others: Branches)

  /** All numbers or all letters between two ends, in steps of 1 if no step is given. The ends of a
      sequence of numbers may be written with leading zeros. */
  datatype Sequence =
    | Numbers(zeros: nat, start: int, zeros': nat, end: int, step: Option<int>)
    | Letters(from: char, to: char, step: Option<int>)

  predicate IsPiece(w: Word) { !w.End? && !w.Alt? && !w.Range? }

  /** A character that means nothing to brace expansion. */
  predicate Plain(c: char) {
    c !in {'"', '\'', '`', '\\', '{', '}', ',', '$', '<', '>', NUL}
  }

  predicate AllPlain(s: string) { forall k :: 0 <= k < |s| ==> Plain(s[k]) }

  /** Text up to the quote that closes it. A backslash protects the next character, except in single quotes. */
  predicate Body(q: char, s: string) {
    s == "" ||
    if q != '\'' && s[0] == '\\' then |s| >= 2 && Body(q, s[2..]) else s[0] != q && Body(q, s[1..])
  }

  /** Behind this text the substitution it is in ends, wherever it stands. */
  ghost predicate Closes(sub: SubstEnd, body: string) {
    forall text: string, i: nat {:trigger sub(text, i)} ::
      i + |body| < |text| && text[i..i + |body|] == body && text[i + |body|] == ')' ==> sub(text, i) == i + |body|
  }

  /** Two dots at most at the end. */
  predicate NoDots(s: string) {
    forall k :: 0 <= k < |s| - 2 ==> s[k] != '.' || s[k + 1] != '.'
  }

  predicate IsLetter(c: char) { 'a' <= c <= 'z' || 'A' <= c <= 'Z' }

  predicate LegalRange(q: Sequence) { q.Letters? ==> IsLetter(q.from) && IsLetter(q.to) }

  predicate StartsBlank(w: Word) { w.Char? && w.c in {' ', '\t', '\n'} }

  ghost predicate Literal(sub: SubstEnd, w: Word) {
    match w
    case End => true
    case Char(c, rest) => Plain(c) && Literal(sub, rest)
    case Sigil(c, d, rest) => c in {'$', '<', '>'} && Plain(d) && d != '(' && Literal(sub, rest)
    case Escaped(_, rest) => Literal(sub, rest)
    case Quoted(q, body, rest) => q in {'"', '\'', '`'} && Body(q, body) && Literal(sub, rest)
    case Param(inner, rest) => Literal(sub, inner) && Literal(sub, rest)
    case Subst(c, body, rest) => c in {'$', '<', '>'} && Closes(sub, body) && Literal(sub, rest)
    case Single(s, rest) => AllPlain(s) && NoDots(s) && Literal(sub, rest)
    case Alt(branches, rest) => LiteralAll(sub, branches) && !StartsBlank(branches.w) && Literal(sub, rest)
    case Range(q, rest) => LegalRange(q) && Literal(sub, rest)
  }

  ghost predicate LiteralAll(sub: SubstEnd, bs: Branches) {
    match bs
    case Two(w, v) => Literal(sub, w) && Literal(sub, v)
    case More(w, others) => Literal(sub, w) && LiteralAll(sub, others)
  }

  function Print(w: Word): string
    decreases w, 1
  {
    match w
    case End => ""
    case Alt(branches, rest) => "{" + (Slots(branches) + ("}" + Print(rest)))
    case Range(q, rest) => "{" + (RangeText(q) + ("}" + Print(rest)))
    case _ => Piece(w) + Print(w.rest)
  }

  function Piece(w: Word): (s: string)
    requires IsPiece(w)
    ensures s != ""
    decreases w, 0
  {
    match w
    case Char(c, _) => [c]
    case Sigil(c, d, _) => [c] + [d]
    case Escaped(c, _) => ['\\'] + [c]
    case Quoted(q, body, _) => [q] + (body + [q])
    case Param(inner, _) => ['$'] + (['{'] + (Print(inner) + "}"))
    case Subst(c, body, _) => [c] + (['('] + (body + ")"))
    case Single(s, _) => ['{'] + (s + "}")
  }

  function StepText(step: Option<int>): string {
    match step case None => "" case Some(n) => ".." + Itos(n)
  }

  /** A number with some leading zeros. */
  function NumberText(zeros: nat, n: int): string {
    (if n < 0 then "-" else "") + (Zeros(zeros) + Digits(Abs(n)))
  }

  function EndText(q: Sequence): string {
    match q case Numbers(_, _, z, n, _) => NumberText(z, n) case Letters(_, c, _) => [c]
  }

  function StartText(q: Sequence): string {
    match q case Numbers(z, n, _, _, _) => NumberText(z, n) case Letters(c, _, _) => [c]
  }

  function RangeText(q: Sequence): string {
    StartText(q) + (".." + (EndText(q) + StepText(q.step)))
  }

  /** How far apart the terms are: a step of 0 counts as 1, and the sign does not matter. */
  function Apart(q: Sequence): (u: nat)
    ensures u > 0
  {
    match q.step case None => 1 case Some(n) => if n == 0 then 1 else if n < 0 then -n else n
  }

  function Span(m: int, n: int): nat { if m <= n then n - m else m - n }

  /** The numbers `u` apart from `m` to the last not past `n`. */
  function Progression(m: int, n: int, u: nat): seq<int>
    requires u > 0
  {
    seq(Span(m, n) / u + 1, k requires 0 <= k => if m <= n then m + k * u else m - k * u)
  }

  /** The terms of a sequence. Numbers are padded to the longer of the two ends if one of them has
      leading zeros. */
  function RangeTerms(q: Sequence): seq<string> {
    match q
    case Numbers(z, m, z', n, _) =>
      var width := if |StartText(q)| < |EndText(q)| then |EndText(q)| else |StartText(q)|;
      var ns := Progression(m, n, Apart(q));
      seq(|ns|, k requires 0 <= k < |ns| => if z == 0 && z' == 0 then Itos(ns[k]) else TermText(Padded(width), ns[k]))
    case Letters(a, b, _) =>
      var ns := Progression(a as int, b as int, Apart(q));
      seq(|ns|, k requires 0 <= k < |ns| => if 0 <= ns[k] < 256 then [ns[k] as char] else "")
  }

  /** All branches, separated by commas. */
  function Slots(bs: Branches): string {
    match bs
    case Two(w, v) => Print(w) + ("," + Print(v))
    case More(w, others) => Print(w) + ("," + Slots(others))
  }

  /** The strings a word denotes, the leftmost alternation varying slowest. */
  function Denote(w: Word): seq<string> {
    match w
    case End => [""]
    case Alt(branches, rest) => Cross(DenoteAll(branches), Denote(rest))
    case Range(q, rest) => Cross(RangeTerms(q), Denote(rest))
    case _ => Cross([Piece(w)], Denote(w.rest))
  }

  function DenoteAll(bs: Branches): seq<string> {
    match bs
    case Two(w, v) => Denote(w) + Denote(v)
    case More(w, others) => Denote(w) + DenoteAll(others)
  }

  // ---------- The cross product ----------

  /** Entry `i * |b| + j` of the product is entry `i` of the one followed by entry `j` of the other. */
  lemma {:induction false} CrossIndex(a: seq<string>, b: seq<string>, i: nat, j: nat)
    requires i < |a| && j < |b|
    ensures |Cross(a, b)| == |a| * |b|
    ensures i * |b| + j < |a| * |b|
    ensures Cross(a, b)[i * |b| + j] == a[i] + b[j]
  {
    CrossSize(a, b);
    CrossSize(a[1..], b);
    IndexFits(i, j, |a|, |b|);
    if i > 0 {
      CrossIndex(a[1..], b, i - 1, j);
      assert i * |b| + j == |b| + ((i - 1) * |b| + j);
      assert Prefix(a[0], b) + Cross(a[1..], b) == Cross(a, b);
    }
  }

  lemma {:induction false} CrossSize(a: seq<string>, b: seq<string>)
    ensures |Cross(a, b)| == |a| * |b|
  {
    if a != [] {
      CrossSize(a[1..], b);
      assert |a| * |b| == |b| + (|a| - 1) * |b|;
    }
  }

  lemma IndexFits(i: nat, j: nat, m: nat, n: nat)
    requires i < m && j < n
    ensures i * n + j < m * n
  {
    assert i * n + n == (i + 1) * n;
    assert (i + 1) * n <= m * n by { MulLe(i + 1, m, n); }
  }

  lemma {:induction false} CrossConcat(a: seq<string>, b: seq<string>, c: seq<string>)
    ensures Cross(a + b, c) == Cross(a, c) + Cross(b, c)
  {
    if a == [] {
      assert a + b == b;
    } else {
      assert (a + b)[1..] == a[1..] + b;
      CrossConcat(a[1..], b, c);
    }
  }

  lemma {:induction false} CrossOne(x: string, b: seq<string>)
    ensures Cross([x], b) == Prefix(x, b)
  {
    assert Cross([x][1..], b) == [];
    assert Prefix(x, b) + [] == Prefix(x, b);
  }

  lemma {:induction false} PrefixCross(x: string, b: seq<string>, c: seq<string>)
    ensures Cross(Prefix(x, b), c) == Prefix(x, Cross(b, c))
  {
    if b != [] {
      assert Prefix(x, b)[1..] == Prefix(x, b[1..]);
      PrefixCross(x, b[1..], c);
      assert Prefix(x + b[0], c) == Prefix(x, Prefix(b[0], c)) by {
        forall j | 0 <= j < |c| ensures (x + b[0]) + c[j] == x + (b[0] + c[j]) { }
      }
    }
  }

  lemma {:induction false} CrossAssociative(a: seq<string>, b: seq<string>, c: seq<string>)
    ensures Cross(Cross(a, b), c) == Cross(a, Cross(b, c))
  {
    if a != [] {
      CrossAssociative(a[1..], b, c);
      CrossConcat(Prefix(a[0], b), Cross(a[1..], b), c);
      PrefixCross(a[0], b, c);
    }
  }

  lemma {:induction false} CrossUnit(b: seq<string>)
    ensures Cross([""], b) == b
  {
    CrossOne("", b);
    forall j | 0 <= j < |b| ensures Prefix("", b)[j] == b[j] {
      assert "" + b[j] == b[j];
    }
  }

  // ---------- Scanning printed words ----------

  /** `s` stands in the text at `i`. */
  ghost predicate Reads(text: string, i: nat, s: string) {
    i + |s| <= |text| && text[i..i + |s|] == s
  }

  lemma ReadsSplit(text: string, i: nat, a: string, b: string)
    requires Reads(text, i, a + b)
    ensures Reads(text, i, a) && Reads(text, i + |a|, b)
  {
    var t := text[i..i + |a + b|];
    assert text[i..i + |a|] == t[..|a|];
    assert text[i + |a|..i + |a| + |b|] == t[|a|..];
  }

  lemma ReadsHead(text: string, i: nat, c: char, s: string)
    requires Reads(text, i, [c] + s)
    ensures i < |text| && text[i] == c && Reads(text, i + 1, s)
  {
    ReadsSplit(text, i, [c], s);
    assert text[i..i + 1][0] == c;
  }

  function AfterComma(bs: Branches): string {
    match bs
    case Two(_, v) => Print(v)
    case More(_, others) => Slots(others)
  }

  lemma {:induction false} SlotsAre(bs: Branches)
    ensures Slots(bs) == Print(bs.w) + ("," + AfterComma(bs))
  {
    hide Print;
  }

  lemma {:induction false} SlotsSplit(text: string, i: nat, bs: Branches)
    requires Reads(text, i, Slots(bs))
    ensures var n := i + |Print(bs.w)|;
            && Reads(text, i, Print(bs.w)) && n < |text| && text[n] == ','
            && Reads(text, n + 1, AfterComma(bs))
            && i + |Slots(bs)| == n + 1 + |AfterComma(bs)| <= |text|
  {
    hide Print, Slots, AfterComma;
    SlotsAre(bs);
    ReadsSplit(text, i, Print(bs.w), "," + AfterComma(bs));
    ReadsHead(text, i + |Print(bs.w)|, ',', AfterComma(bs));
  }

  function Inside(level: nat, commas: nat): Scan {
    Scan(level, NUL, false, commas)
  }

  /** A search that a printed word cannot stop. */
  predicate Passing(satisfy: char, level: nat) {
    (satisfy == '{' && level > 0) || satisfy == '}' || satisfy == ','
  }

  /** The outcome of a search as a function of where it is. The lemmas below only use that a search
      which does not stop at a character goes on behind it, and behind a substitution. */
  type Search = (nat, Scan) -> (nat, bool)

  ghost predicate GoesOn(g: Search, sub: SubstEnd, text: string, satisfy: char) {
    && (forall i: nat, s: Scan {:trigger Stops(text, i, satisfy, s)} ::
          i < |text| && !Stops(text, i, satisfy, s) && !Substitution(text, i, s) ==>
            g(i, s) == g(i + 1, Advance(text, i, satisfy, s)))
    && (forall i: nat, s: Scan {:trigger Substitution(text, i, s)} ::
          i < |text| && Substitution(text, i, s) ==> g(i, s) == g(AfterSubst(sub, text, i), s))
  }

  function Searching(sub: SubstEnd, text: string, satisfy: char): Search {
    (i: nat, s: Scan) => if i <= |text| then Gobble(sub, text, i, satisfy, s) else (i, false)
  }

  lemma SearchGoesOn(sub: SubstEnd, text: string, satisfy: char)
    ensures GoesOn(Searching(sub, text, satisfy), sub, text, satisfy)
  {
  }

  /** One step over a plain character, a brace or a comma. */
  lemma PassChar(g: Search, sub: SubstEnd, text: string, i: nat, satisfy: char, level: nat, commas: nat)
      returns (commas': nat)
    requires GoesOn(g, sub, text, satisfy) && i < |text| && satisfy in {'{', '}', ','}
    requires
      || Plain(text[i]) || (text[i] == '{' && Passing(satisfy, level)) || (text[i] == '}' && level > 0)
      || (text[i] == ',' && (satisfy == '}' || level > 0))
    ensures commas' >= commas && (text[i] == ',' && satisfy == '}' && level == 0 ==> commas' > 0)
    ensures satisfy != '}' || level > 0 || !Separator(text, i, level) ==> commas' == commas
    ensures var level' := if text[i] == '{' then level + 1 else if text[i] == '}' then level - 1 else level;
            g(i, Inside(level, commas)) == g(i + 1, Inside(level', commas'))
  {
    assert !Stops(text, i, satisfy, Inside(level, commas));
    commas' := Advance(text, i, satisfy, Inside(level, commas)).commas;
  }

  /** Scanning passes over a printed word without stopping and comes back to the same level. */
  lemma {:induction false} PassWord(g: Search, sub: SubstEnd, text: string, i: nat, w: Word, satisfy: char,
      level: nat, commas: nat)
      returns (commas': nat)
    requires GoesOn(g, sub, text, satisfy)
    requires Literal(sub, w) && Passing(satisfy, level) && Reads(text, i, Print(w))
    ensures commas' >= commas && (satisfy != '}' || level > 0 ==> commas' == commas)
    ensures g(i, Inside(level, commas)) == g(i + |Print(w)|, Inside(level, commas'))
    decreases w, 4
  {
    hide Reads, GoesOn, Print, Inner, Piece, Literal, Passing;
    commas' := commas;
    if w.End? {
      PrintEnd();
    } else if IsPiece(w) {
      PrintPiece(w);
      RestLiteral(sub, w);
      PassingAll(satisfy, level);
      ReadsSplit(text, i, Piece(w), Print(w.rest));
      commas' := PassPiece(g, sub, text, i, w, satisfy, level, commas);
      commas' := PassWord(g, sub, text, i + |Piece(w)|, w.rest, satisfy, level, commas');
    } else {
      PrintBraced(w);
      RestLiteral(sub, w);
      commas' := PassBraces(g, sub, text, i, w, satisfy, level, commas);
      commas' := PassWord(g, sub, text, i + 2 + |Inner(w)|, w.rest, satisfy, level, commas');
    }
  }

  lemma PassingAll(satisfy: char, level: nat)
    requires Passing(satisfy, level)
    ensures satisfy in {'{', '}', ','}
  {
  }

  lemma {:induction false} PrintPiece(w: Word)
    requires IsPiece(w)
    ensures Print(w) == Piece(w) + Print(w.rest)
  {
    hide Piece;
  }

  /** The same for a piece, which not even a search for an open brace finds, unless it is a pair of braces. */
  lemma {:induction false} PassPiece(g: Search, sub: SubstEnd, text: string, i: nat, w: Word, satisfy: char,
      level: nat, commas: nat)
      returns (commas': nat)
    requires GoesOn(g, sub, text, satisfy) && IsPiece(w) && Literal(sub, w) && satisfy in {'{', '}', ','}
    requires Reads(text, i, Piece(w)) && (w.Single? ==> Passing(satisfy, level))
    ensures commas' >= commas && (satisfy != '}' || level > 0 ==> commas' == commas)
    ensures g(i, Inside(level, commas)) == g(i + |Piece(w)|, Inside(level, commas'))
    decreases w, 3
  {
    hide Reads, GoesOn, Print, Body, Closes, AllPlain, NoDots, Plain;
    commas' := commas;
    match w
    case Char(c, _) =>
      assert [c] == [c] + "";
      ReadsHead(text, i, c, "");
      DotsPlain();
      commas' := PassChar(g, sub, text, i, satisfy, level, commas);
    case Sigil(c, d, _) => commas' := PassSigil(g, sub, text, i, c, d, satisfy, level, commas);
    case Escaped(c, _) => PassEscaped(g, sub, text, i, c, satisfy, level, commas);
    case Quoted(q, body, _) => PassQuoted(g, sub, text, i, q, body, satisfy, level, commas);
    case Param(inner, _) => PassParam(g, sub, text, i, w, satisfy, level, commas);
    case Subst(c, body, _) => PassSubst(g, sub, text, i, c, body, satisfy, level, commas);
    case Single(s, _) => commas' := PassSingle(g, sub, text, i, s, satisfy, level, commas);
  }

  lemma PassSingle(g: Search, sub: SubstEnd, text: string, i: nat, s: string, satisfy: char, level: nat, commas: nat)
      returns (commas': nat)
    requires GoesOn(g, sub, text, satisfy) && AllPlain(s) && Passing(satisfy, level)
    requires Reads(text, i, ['{'] + (s + "}"))
    ensures commas' >= commas && (satisfy != '}' || level > 0 ==> commas' == commas)
    ensures g(i, Inside(level, commas)) == g(i + 2 + |s|, Inside(level, commas'))
  {
    hide Reads, GoesOn, AllPlain, Plain;
    ReadsHead(text, i, '{', s + "}");
    ReadsSplit(text, i + 1, s, "}");
    assert "}" == ['}'] + "";
    ReadsHead(text, i + 1 + |s|, '}', "");
    commas' := PassChar(g, sub, text, i, satisfy, level, commas);
    commas' := PassPlain(g, sub, text, i + 1, s, satisfy, level + 1, commas');
    commas' := PassChar(g, sub, text, i + 1 + |s|, satisfy, level + 1, commas');
  }

  lemma PassSigil(g: Search, sub: SubstEnd, text: string, i: nat, c: char, d: char, satisfy: char,
      level: nat, commas: nat)
      returns (commas': nat)
    requires GoesOn(g, sub, text, satisfy) && satisfy in {'{', '}', ','} && Reads(text, i, [c] + [d])
    requires c in {'$', '<', '>'} && Plain(d) && d != '('
    ensures commas' >= commas && (satisfy != '}' || level > 0 ==> commas' == commas)
    ensures g(i, Inside(level, commas)) == g(i + 2, Inside(level, commas'))
  {
    ReadsHead(text, i, c, [d]);
    assert [d] == [d] + "";
    ReadsHead(text, i + 1, d, "");
    var s := Inside(level, commas);
    assert !Stops(text, i, satisfy, s) && !Substitution(text, i, s);
    commas' := PassChar(g, sub, text, i + 1, satisfy, level, commas);
  }

  /** A backslash, and whatever character comes after it. */
  lemma PassEscaped(g: Search, sub: SubstEnd, text: string, i: nat, c: char, satisfy: char, level: nat, commas: nat)
    requires GoesOn(g, sub, text, satisfy) && Reads(text, i, ['\\'] + [c])
    ensures g(i, Inside(level, commas)) == g(i + 2, Inside(level, commas))
  {
    ReadsHead(text, i, '\\', [c]);
    assert [c] == [c] + "";
    ReadsHead(text, i + 1, c, "");
    assert !Stops(text, i, satisfy, Inside(level, commas));
    assert !Stops(text, i + 1, satisfy, Scan(level, NUL, true, commas));
  }

  /** From an opening quote to just behind the quote that closes it. */
  lemma {:induction false} PassQuoted(g: Search, sub: SubstEnd, text: string, i: nat, q: char, body: string,
      satisfy: char, level: nat, commas: nat)
    requires GoesOn(g, sub, text, satisfy) && satisfy in {'{', '}', ','}
    requires q in {'"', '\'', '`'} && Body(q, body) && Reads(text, i, [q] + (body + [q]))
    ensures g(i, Inside(level, commas)) == g(i + |[q] + (body + [q])|, Inside(level, commas))
  {
    hide Reads, Body;
    ReadsHead(text, i, q, body + [q]);
    assert !Stops(text, i, satisfy, Inside(level, commas));
    PassBody(g, sub, text, i + 1, q, body, satisfy, level, commas);
  }

  lemma {:induction false} PassBody(g: Search, sub: SubstEnd, text: string, i: nat, q: char, body: string,
      satisfy: char, level: nat, commas: nat)
    requires GoesOn(g, sub, text, satisfy)
    requires q in {'"', '\'', '`'} && Body(q, body) && Reads(text, i, body + [q])
    ensures g(i, Scan(level, q, false, commas)) == g(i + |body| + 1, Inside(level, commas))
    decreases |body|
  {
    hide Reads;
    var s := Scan(level, q, false, commas);
    if body == "" {
      assert body + [q] == [q] + "";
      ReadsHead(text, i, q, "");
      assert !Stops(text, i, satisfy, s);
    } else {
      assert body + [q] == [body[0]] + (body[1..] + [q]);
      ReadsHead(text, i, body[0], body[1..] + [q]);
      assert !Stops(text, i, satisfy, s);
      if Advance(text, i, satisfy, s).pass {
        PassNext(g, sub, text, i, q, body, satisfy, level, commas);
        PassBody(g, sub, text, i + 2, q, body[2..], satisfy, level, commas);
      } else {
        PassBody(g, sub, text, i + 1, q, body[1..], satisfy, level, commas);
      }
    }
  }

  /** The character after a backslash in quotes, or the brace after a dollar. */
  lemma {:induction false} PassNext(g: Search, sub: SubstEnd, text: string, i: nat, q: char, body: string,
      satisfy: char, level: nat, commas: nat)
    requires GoesOn(g, sub, text, satisfy) && q in {'"', '\'', '`'} && body != "" && Body(q, body)
    requires i < |text| && text[i] == body[0] && Reads(text, i + 1, body[1..] + [q])
    requires Advance(text, i, satisfy, Scan(level, q, false, commas)).pass
    ensures |body| >= 2 && Body(q, body[2..]) && Reads(text, i + 2, body[2..] + [q])
    ensures Advance(text, i, satisfy, Scan(level, q, false, commas)) == Scan(level, q, true, commas)
    ensures g(i + 1, Scan(level, q, true, commas)) == g(i + 2, Scan(level, q, false, commas))
  {
    assert text[i + 1] == text[i + 1..i + 1 + |body[1..] + [q]|][0];
    assert |body| >= 2;
    assert body[1..] + [q] == [body[1]] + (body[2..] + [q]) && body[1..][1..] == body[2..];
    ReadsHead(text, i + 1, body[1], body[2..] + [q]);
    assert !Stops(text, i + 1, satisfy, Scan(level, q, true, commas));
  }

  /** A parameter expansion: the braces inside do not count. */
  lemma {:induction false} PassParam(g: Search, sub: SubstEnd, text: string, i: nat, w: Word, satisfy: char,
      level: nat, commas: nat)
    requires GoesOn(g, sub, text, satisfy) && satisfy in {'{', '}', ','} && w.Param? && Literal(sub, w.inner)
    requires Reads(text, i, ['$'] + (['{'] + (Print(w.inner) + "}")))
    ensures g(i, Inside(level, commas)) == g(i + 3 + |Print(w.inner)|, Inside(level, commas))
    decreases w, 2
  {
    hide Reads, Print, Literal, Plain;
    var inner := Print(w.inner);
    ReadsHead(text, i, '$', ['{'] + (inner + "}"));
    ReadsHead(text, i + 1, '{', inner + "}");
    ReadsSplit(text, i + 2, inner, "}");
    assert "}" == ['}'] + "";
    ReadsHead(text, i + 2 + |inner|, '}', "");
    assert !Stops(text, i, satisfy, Inside(level, commas)) && !Substitution(text, i, Inside(level, commas));
    assert !Stops(text, i + 1, satisfy, Scan(level + 1, NUL, true, commas));
    var k := PassWord(g, sub, text, i + 2, w.inner, satisfy, level + 1, commas);
    k := PassChar(g, sub, text, i + 2 + |inner|, satisfy, level + 1, k);
  }

  /** A command or process substitution, whatever it holds. */
  lemma PassSubst(g: Search, sub: SubstEnd, text: string, i: nat, c: char, body: string, satisfy: char,
      level: nat, commas: nat)
    requires GoesOn(g, sub, text, satisfy) && c in {'$', '<', '>'} && Closes(sub, body)
    requires Reads(text, i, [c] + (['('] + (body + ")")))
    ensures g(i, Inside(level, commas)) == g(i + 3 + |body|, Inside(level, commas))
  {
    ReadsHead(text, i, c, ['('] + (body + ")"));
    ReadsHead(text, i + 1, '(', body + ")");
    ReadsSplit(text, i + 2, body, ")");
    assert ")" == [')'] + "";
    ReadsHead(text, i + 2 + |body|, ')', "");
    assert Substitution(text, i, Inside(level, commas));
    assert sub(text, i + 2) == i + 2 + |body|;
  }

  lemma {:induction false} PrintBraced(w: Word)
    requires w.Alt? || w.Range?
    ensures Print(w) == "{" + (Inner(w) + ("}" + Print(w.rest))) && |Print(w)| == 2 + |Inner(w)| + |Print(w.rest)|
  {
    hide Slots, RangeText;
  }

  /** A pair of braces. */
  lemma {:induction false} PassBraces(g: Search, sub: SubstEnd, text: string, i: nat, w: Word, satisfy: char,
      level: nat, commas: nat)
      returns (commas': nat)
    requires GoesOn(g, sub, text, satisfy) && (w.Alt? || w.Range?)
    requires Literal(sub, w) && Passing(satisfy, level) && Reads(text, i, "{" + (Inner(w) + ("}" + Print(w.rest))))
    ensures commas' >= commas && (satisfy != '}' || level > 0 ==> commas' == commas)
    ensures Reads(text, i + 2 + |Inner(w)|, Print(w.rest))
    ensures g(i, Inside(level, commas)) == g(i + 2 + |Inner(w)|, Inside(level, commas'))
    decreases w, 2
  {
    hide Reads, GoesOn, Inner, Print, Literal;
    var inner := Inner(w);
    ReadsHead(text, i, '{', inner + ("}" + Print(w.rest)));
    ReadsSplit(text, i + 1, inner, "}" + Print(w.rest));
    ReadsHead(text, i + 1 + |inner|, '}', Print(w.rest));
    commas' := PassChar(g, sub, text, i, satisfy, level, commas);
    commas' := PassInner(g, sub, text, i + 1, w, satisfy, level + 1, commas');
    commas' := PassChar(g, sub, text, i + 1 + |inner|, satisfy, level + 1, commas');
  }

  /** Scanning passes over what is between braces, and at level 0 a search for a close brace notices a
      separator. */
  lemma {:induction false} PassInner(g: Search, sub: SubstEnd, text: string, i: nat, w: Word, satisfy: char,
      level: nat, commas: nat)
      returns (commas': nat)
    requires GoesOn(g, sub, text, satisfy) && Literal(sub, w) && (w.Alt? || w.Range?)
    requires Passing(satisfy, level) && (satisfy == '}' || level > 0) && Reads(text, i, Inner(w))
    ensures commas' >= commas && if satisfy == '}' && level == 0 then commas' > 0 else commas' == commas
    ensures g(i, Inside(level, commas)) == g(i + |Inner(w)|, Inside(level, commas'))
    decreases w, 1
  {
    hide GoesOn, Slots, RangeText, Reads;
    match w
    case Alt(bs, _) => commas' := PassSlots(g, sub, text, i, bs, satisfy, level, commas);
    case Range(q, _) => commas' := PassRange(g, sub, text, i, q, satisfy, level, commas);
  }

  lemma {:induction false} PassPlain(g: Search, sub: SubstEnd, text: string, i: nat, s: string, satisfy: char,
      level: nat, commas: nat)
      returns (commas': nat)
    requires GoesOn(g, sub, text, satisfy)
    requires AllPlain(s) && Passing(satisfy, level) && Reads(text, i, s)
    ensures commas' >= commas && (satisfy != '}' || level > 0 ==> commas' == commas)
    ensures g(i, Inside(level, commas)) == g(i + |s|, Inside(level, commas'))
    decreases |s|
  {
    hide Reads, GoesOn;
    commas' := commas;
    if s != "" {
      assert s == [s[0]] + s[1..];
      ReadsHead(text, i, s[0], s[1..]);
      commas' := PassChar(g, sub, text, i, satisfy, level, commas);
      commas' := PassPlain(g, sub, text, i + 1, s[1..], satisfy, level, commas');
    }
  }

  /** The text of a sequence in three parts: up to the dots, the dots, and the rest. */
  lemma RangeParts(q: Sequence)
    requires LegalRange(q)
    ensures var a, b := StartText(q), EndText(q) + StepText(q.step);
            && RangeText(q) == a + (".." + b) && AllPlain(a) && AllPlain(b) && a != "" && b != "" && b[0] != '}'
            && forall c :: c in RangeText(q) ==> c != ',' && c != '\\'
  {
    hide Plain;
    EndPlain(StartText(q));
    EndPlain(EndText(q));
    if q.step.Some? { NumberPlain(0, q.step.value); }
    if q.Numbers? { NumberPlain(q.zeros, q.start); NumberPlain(q.zeros', q.end); }
    DotsPlain();
  }

  lemma DotsPlain()
    ensures AllPlain("..") && forall c :: Plain(c) ==> c !in {',', '\\', '{', '}'}
  {
  }

  lemma EndPlain(s: string)
    ensures |s| == 1 && IsLetter(s[0]) ==> AllPlain(s)
  {
  }

  lemma NumberPlain(zeros: nat, n: int)
    ensures var s := NumberText(zeros, n);
            && AllPlain(s) && s != "" && (zeros == 0 ==> s == Itos(n))
            && forall k :: 0 <= k < |s| ==> IsDigit(s[k]) || s[k] == '-'
  {
    assert Zeros(0) == "";
  }

  /** The dots of a sequence count as a separator at level 0. */
  lemma PassRange(g: Search, sub: SubstEnd, text: string, i: nat, q: Sequence, satisfy: char,
      level: nat, commas: nat)
      returns (commas': nat)
    requires GoesOn(g, sub, text, satisfy)
    requires LegalRange(q) && Passing(satisfy, level) && Reads(text, i, RangeText(q))
    ensures commas' >= commas && if satisfy == '}' && level == 0 then commas' > 0 else commas' == commas
    ensures g(i, Inside(level, commas)) == g(i + |RangeText(q)|, Inside(level, commas'))
  {
    hide GoesOn, RangeText, StartText, EndText, StepText, Plain;
    var a, b := StartText(q), EndText(q) + StepText(q.step);
    RangeParts(q);
    ReadsSplit(text, i, a, ".." + b);
    var j := i + |a|;
    assert ".." + b == ['.'] + (['.'] + b);
    ReadsHead(text, j, '.', ['.'] + b);
    ReadsHead(text, j + 1, '.', b);
    assert text[j + 2] == b[0];
    commas' := PassPlain(g, sub, text, i, a, satisfy, level, commas);
    commas' := PassDot(g, sub, text, j, satisfy, level, commas');
    commas' := PassDot(g, sub, text, j + 1, satisfy, level, commas');
    commas' := PassPlain(g, sub, text, j + 2, b, satisfy, level, commas');
  }

  lemma PassDot(g: Search, sub: SubstEnd, text: string, i: nat, satisfy: char, level: nat, commas: nat)
      returns (commas': nat)
    requires GoesOn(g, sub, text, satisfy) && i < |text| && text[i] == '.' && Passing(satisfy, level)
    ensures commas' >= commas && (satisfy != '}' || level > 0 ==> commas' == commas)
    ensures satisfy == '}' && level == 0 && At(text, i + 1) == '.' && At(text, i + 2) != '}' ==> commas' > 0
    ensures g(i, Inside(level, commas)) == g(i + 1, Inside(level, commas'))
  {
    assert !Stops(text, i, satisfy, Inside(level, commas));
    commas' := Advance(text, i, satisfy, Inside(level, commas)).commas;
  }

  /** The same for the branches of an alternation, whose commas are noticed at level 0 by a search for
      a close brace. */
  lemma {:induction false} PassSlots(g: Search, sub: SubstEnd, text: string, i: nat, bs: Branches, satisfy: char,
      level: nat, commas: nat)
      returns (commas': nat)
    requires GoesOn(g, sub, text, satisfy)
    requires LiteralAll(sub, bs) && Passing(satisfy, level) && (satisfy == '}' || level > 0)
    requires Reads(text, i, Slots(bs))
    ensures commas' >= commas && if satisfy == '}' && level == 0 then commas' > 0 else commas' == commas
    ensures g(i, Inside(level, commas)) == g(i + |Slots(bs)|, Inside(level, commas'))
    decreases bs, 1
  {
    hide Reads, GoesOn, Print, Slots;
    SlotsSplit(text, i, bs);
    commas' := PassFirst(g, sub, text, i, bs, satisfy, level, commas);
    var j := i + |Print(bs.w)| + 1;
    match bs
    case Two(_, v) =>
      commas' := PassWord(g, sub, text, j, v, satisfy, level, commas');
    case More(_, others) =>
      commas' := PassSlots(g, sub, text, j, others, satisfy, level, commas');
  }

  lemma {:induction false} PassFirst(g: Search, sub: SubstEnd, text: string, i: nat, bs: Branches, satisfy: char,
      level: nat, commas: nat)
      returns (commas': nat)
    requires GoesOn(g, sub, text, satisfy)
    requires LiteralAll(sub, bs) && Passing(satisfy, level) && (satisfy == '}' || level > 0)
    requires Reads(text, i, Slots(bs))
    ensures commas' >= commas && if satisfy == '}' && level == 0 then commas' > 0 else commas' == commas
    ensures g(i, Inside(level, commas)) == g(i + |Print(bs.w)| + 1, Inside(level, commas'))
    decreases bs, 0
  {
    hide Reads, GoesOn, Print, Slots;
    SlotsSplit(text, i, bs);
    commas' := PassWord(g, sub, text, i, bs.w, satisfy, level, commas);
    commas' := PassChar(g, sub, text, i + |Print(bs.w)|, satisfy, level, commas');
  }

  // ---------- Expanding printed words ----------

  /** The text of an alternation does not look like an ignored brace. */
  lemma {:induction false} SlotsStart(sub: SubstEnd, bs: Branches)
    requires LiteralAll(sub, bs) && !StartsBlank(bs.w)
    ensures Slots(bs) != "" && !Blank(Slots(bs)[0]) && Slots(bs)[0] != '}'
  {
    if bs.w.End? {
      assert Slots(bs)[0] == ',';
    } else if IsPiece(bs.w) {
      assert Slots(bs)[0] == Piece(bs.w)[0];
    } else {
      assert Slots(bs)[0] == '{';
    }
  }

  /** Going through the text as the search for a comma does, two characters at a time at a backslash, ends
      just behind it. */
  predicate Lands(s: string) {
    s == "" || if s[0] == '\\' then |s| >= 2 && Lands(s[2..]) else Lands(s[1..])
  }

  lemma {:induction false} LastLands(s: string)
    requires s != "" && s[|s| - 1] != '\\'
    ensures Lands(s)
    decreases |s|
  {
    var n := if s[0] == '\\' then 2 else 1;
    if |s| > n { LastLands(s[n..]); }
  }

  lemma {:induction false} LandsTwice(a: string, b: string)
    requires Lands(a) && Lands(b)
    ensures Lands(a + b)
    decreases |a|
  {
    if a == "" {
      assert a + b == b;
    } else {
      var n := if a[0] == '\\' then 2 else 1;
      assert (a + b)[n..] == a[n..] + b;
      LandsTwice(a[n..], b);
    }
  }

  lemma {:induction false} PrintLands(sub: SubstEnd, w: Word)
    requires Literal(sub, w)
    ensures Lands(Print(w))
    decreases w, 1
  {
    hide Slots, RangeText, Literal, LiteralAll, Lands, Piece;
    if w.End? {
      assert Lands("") by { NothingLands(); }
    } else if IsPiece(w) {
      RestLiteral(sub, w);
      PrintLands(sub, w.rest);
      PieceLands(sub, w);
      LandsTwice(Piece(w), Print(w.rest));
    } else {
      BracesLand(sub, w);
    }
  }

  lemma NothingLands()
    ensures Lands("")
  {
  }

  lemma {:induction false} RestLiteral(sub: SubstEnd, w: Word)
    requires Literal(sub, w) && !w.End?
    ensures Literal(sub, w.rest)
  {
  }

  lemma {:induction false} BracesLand(sub: SubstEnd, w: Word)
    requires Literal(sub, w) && (w.Alt? || w.Range?)
    ensures Lands(Print(w))
    decreases w, 0
  {
    hide Inner, Literal, Lands, Print;
    PrintBraced(w);
    RestLiteral(sub, w);
    PrintLands(sub, w.rest);
    BraceLands(Inner(w), Print(w.rest));
  }

  lemma {:induction false} BraceLands(inner: string, post: string)
    requires Lands(post)
    ensures Lands("{" + (inner + ("}" + post)))
  {
    hide Lands;
    var braces := "{" + (inner + "}");
    LastLands(braces);
    LandsTwice(braces, post);
    assert "{" + (inner + ("}" + post)) == braces + post;
  }

  lemma {:induction false} PieceLands(sub: SubstEnd, w: Word)
    requires Literal(sub, w) && IsPiece(w)
    ensures Lands(Piece(w))
  {
    hide Print, Body, Closes;
    if w.Escaped? {
      assert Piece(w)[2..] == "";
    } else {
      LastLands(Piece(w));
    }
  }

  lemma {:induction false} LandsThrough(amble: string, j: nat, s: string)
    requires Lands(s) && Reads(amble, j, s) && HasComma(amble, j + |s|)
    ensures HasComma(amble, j)
    decreases |s|
  {
    if s != "" {
      var n := if s[0] == '\\' then 2 else 1;
      assert s == s[..n] + s[n..];
      ReadsSplit(amble, j, s[..n], s[n..]);
      assert amble[j] == amble[j..j + n][0];
      LandsThrough(amble, j + n, s[n..]);
    }
  }

  lemma {:induction false} SlotsComma(sub: SubstEnd, bs: Branches)
    requires LiteralAll(sub, bs)
    ensures HasComma(Slots(bs), 0)
  {
    hide Print, Slots, Lands;
    PrintLands(sub, bs.w);
    ReadsAll(Slots(bs));
    SlotsSplit(Slots(bs), 0, bs);
    LandsThrough(Slots(bs), 0, Print(bs.w));
  }

  /** The number of backslashes just before position `k`. */
  function Backslashes(s: string, k: nat): nat
    requires k <= |s|
  {
    if k > 0 && s[k - 1] == '\\' then Backslashes(s, k - 1) + 1 else 0
  }

  /** The search for a comma finds one exactly if some comma has an even number of backslashes before it. */
  lemma {:induction false} CommaIff(s: string, j: nat)
    requires j <= |s| && Backslashes(s, j) % 2 == 0
    ensures HasComma(s, j) <==> exists k :: j <= k < |s| && s[k] == ',' && Backslashes(s, k) % 2 == 0
    decreases |s| - j
  {
    if j < |s| {
      if s[j] == '\\' && j + 2 <= |s| {
        assert Backslashes(s, j + 1) == Backslashes(s, j) + 1;
        CommaIff(s, j + 2);
      } else if s[j] != '\\' {
        assert Backslashes(s, j + 1) == 0;
        CommaIff(s, j + 1);
      }
    }
  }

  // ---------- The search for an open brace ----------

  /** A search for an open brace that gets to one stops there unless it has a blank or nothing before it,
      and a blank, a close brace or nothing behind it. */
  lemma BlankBrace(sub: SubstEnd, text: string, i: nat)
    requires i < |text| && text[i] == '{'
    ensures GobbleFrom(sub, text, i, '{') == (i, true) <==>
      || (i > 0 && text[i - 1] !in {' ', '\t', '\n', NUL})
      || (i + 1 < |text| && text[i + 1] !in {' ', '\t', '\n', '}', NUL})
  {
    if IgnoredBrace(text, i) {
      assert GobbleFrom(sub, text, i, '{') == GobbleFrom(sub, text, i + 1, '{');
    } else {
      StopsThere(sub, text, i, '{', InitScan('{')) by { NotIgnored(text, i); }
    }
  }


  /** A search for an open brace passes over plain characters. */
  lemma {:induction false} SkipPlain(sub: SubstEnd, text: string, i: nat, n: nat)
    requires i <= n <= |text| && forall k :: i <= k < n ==> Plain(text[k])
    ensures FindOpen(sub, text, i) == FindOpen(sub, text, n)
    decreases n - i
  {
    if i < n {
      PlainOpen(sub, text, i);
      SkipPlain(sub, text, i + 1, n);
    }
  }

  lemma PlainOpen(sub: SubstEnd, text: string, i: nat)
    requires i < |text| && Plain(text[i])
    ensures FindOpen(sub, text, i) == FindOpen(sub, text, i + 1)
  {
    assert GobbleFrom(sub, text, i, '{') == GobbleFrom(sub, text, i + 1, '{');
  }

  /** The pieces before the first alternation or sequence, and what follows them. */
  function Lead(w: Word): string {
    if IsPiece(w) then Piece(w) + Lead(w.rest) else ""
  }

  function Tail(w: Word): Word {
    if IsPiece(w) then Tail(w.rest) else w
  }

  lemma {:induction false} LeadDenotes(sub: SubstEnd, w: Word)
    requires Literal(sub, w)
    ensures Denote(w) == Cross([Lead(w)], Denote(Tail(w)))
    ensures Print(w) == Lead(w) + Print(Tail(w))
    ensures !IsPiece(Tail(w)) && Literal(sub, Tail(w))
  {
    hide Print, Denote, Piece, Literal, Cross;
    if IsPiece(w) {
      RestLiteral(sub, w);
      PrintPiece(w);
      DenotePiece(w);
      LeadDenotes(sub, w.rest);
      CrossAssociative([Piece(w)], [Lead(w.rest)], Denote(Tail(w)));
      PairCross(Piece(w), Lead(w.rest));
      assert Print(w) == Piece(w) + (Lead(w.rest) + Print(Tail(w)));
    } else {
      CrossUnit(Denote(w));
    }
  }

  lemma {:induction false} DenotePiece(w: Word)
    requires IsPiece(w)
    ensures Denote(w) == Cross([Piece(w)], Denote(w.rest))
  {
    hide Piece, Cross;
  }

  lemma PairCross(x: string, y: string)
    ensures Cross([x], [y]) == [x + y]
  {
    CrossOne(x, [y]);
    assert Prefix(x, [y]) == [x + y];
  }

  lemma {:induction false} SameSearch(sub: SubstEnd, text: string, i: nat, j: nat)
    requires i <= |text| && j <= |text| && GobbleFrom(sub, text, i, '{') == GobbleFrom(sub, text, j, '{')
    ensures FindOpen(sub, text, i) == FindOpen(sub, text, j)
  {
    hide Gobble;
  }

  /** A search for an open brace passes over the pieces before the first alternation or sequence. */
  lemma {:induction false} SkipPieces(sub: SubstEnd, text: string, i: nat, w: Word)
    requires Literal(sub, w) && Reads(text, i, Print(w)) && i + |Print(w)| == |text|
    ensures i + |Lead(w)| <= |text| && FindOpen(sub, text, i) == FindOpen(sub, text, i + |Lead(w)|)
    decreases w
  {
    hide Reads, Literal, Piece, Print, FindOpen, Gobble, GobbleFrom;
    if IsPiece(w) {
      PrintPiece(w);
      ReadsSplit(text, i, Piece(w), Print(w.rest));
      RestLiteral(sub, w);
      if w.Single? { SkipSingle(sub, text, i, w); } else { SkipPiece(sub, text, i, w); }
      SkipPieces(sub, text, i + |Piece(w)|, w.rest);
    }
  }

  lemma SkipPiece(sub: SubstEnd, text: string, i: nat, w: Word)
    requires Literal(sub, w) && IsPiece(w) && !w.Single? && Reads(text, i, Piece(w))
    ensures i + |Piece(w)| <= |text| && FindOpen(sub, text, i) == FindOpen(sub, text, i + |Piece(w)|)
  {
    hide Gobble, Literal, Piece, GoesOn, FindOpen;
    var g := Searching(sub, text, '{');
    SearchGoesOn(sub, text, '{');
    var k := PassPiece(g, sub, text, i, w, '{', 0, 1);
    SameSearch(sub, text, i, i + |Piece(w)|);
  }

  /** A pair of braces without a comma or sequence is either ignored or has no close brace that counts. */
  lemma SkipSingle(sub: SubstEnd, text: string, i: nat, w: Word)
    requires Literal(sub, w) && w.Single? && Reads(text, i, Piece(w)) && Reads(text, i + |Piece(w)|, Print(w.rest))
    requires i + |Piece(w)| + |Print(w.rest)| == |text|
    ensures FindOpen(sub, text, i) == FindOpen(sub, text, i + |Piece(w)|)
  {
    hide Gobble, AllPlain, NoDots, FindOpen, Reads, Print, Plain;
    var s, n := w.s, i + 1 + |w.s|;
    SingleParts(text, i, w);
    if IgnoredBrace(text, i) {
      IgnoredSkipped(sub, text, i);
    } else {
      StopsThere(sub, text, i, '{', InitScan('{')) by { NotIgnored(text, i); }
      NoClose(sub, text, i, w);
      NextOpen(sub, text, i);
    }
    forall k | i + 1 <= k < n ensures Plain(text[k]) { PlainAt(text, i + 1, s, k); }
    SkipPlain(sub, text, i + 1, n);
    CloseSkipped(sub, text, n);
  }

  lemma {:induction false} SingleParts(text: string, i: nat, w: Word)
    requires w.Single? && Reads(text, i, Piece(w))
    ensures var n := i + 1 + |w.s|;
            && n < |text| && text[i] == '{' && Reads(text, i + 1, w.s) && text[n] == '}' && i + |Piece(w)| == n + 1
  {
    hide Reads;
    ReadsHead(text, i, '{', w.s + "}");
    ReadsSplit(text, i + 1, w.s, "}");
    assert "}" == ['}'] + "";
    ReadsHead(text, i + 1 + |w.s|, '}', "");
  }

  lemma PlainAt(text: string, i: nat, s: string, k: nat)
    requires AllPlain(s) && Reads(text, i, s) && i <= k < i + |s|
    ensures Plain(text[k])
  {
    hide Plain;
    assert text[k] == text[i..i + |s|][k - i];
  }

  lemma NotIgnored(text: string, i: nat)
    requires i < |text| && text[i] == '{' && !IgnoredBrace(text, i)
    ensures Stops(text, i, '{', InitScan('{'))
  {
  }

  lemma IgnoredSkipped(sub: SubstEnd, text: string, i: nat)
    requires i < |text| && text[i] == '{' && IgnoredBrace(text, i)
    ensures FindOpen(sub, text, i) == FindOpen(sub, text, i + 1)
  {
    assert GobbleFrom(sub, text, i, '{') == GobbleFrom(sub, text, i + 1, '{');
    SameSearch(sub, text, i, i + 1);
  }

  lemma CloseSkipped(sub: SubstEnd, text: string, i: nat)
    requires i < |text| && text[i] == '}'
    ensures FindOpen(sub, text, i) == FindOpen(sub, text, i + 1)
  {
    assert GobbleFrom(sub, text, i, '{') == GobbleFrom(sub, text, i + 1, '{');
    SameSearch(sub, text, i, i + 1);
  }

  lemma NextOpen(sub: SubstEnd, text: string, i: nat)
    requires i < |text| && text[i] == '{' && GobbleFrom(sub, text, i, '{') == (i, true)
    requires !GobbleFrom(sub, text, i + 1, '}').1
    ensures FindOpen(sub, text, i) == FindOpen(sub, text, i + 1)
  {
    hide Gobble, GobbleFrom;
  }

  /** No separator comes before its close brace, and no other close brace is left for it. */
  lemma {:induction false} NoClose(sub: SubstEnd, text: string, i: nat, w: Word)
    requires Literal(sub, w) && w.Single? && Reads(text, i, Piece(w)) && Reads(text, i + |Piece(w)|, Print(w.rest))
    requires i + |Piece(w)| + |Print(w.rest)| == |text|
    ensures i < |text| && !GobbleFrom(sub, text, i + 1, '}').1
  {
    hide Gobble, AllPlain, NoDots, Reads, Print, GoesOn;
    SingleParts(text, i, w);
    var g := Searching(sub, text, '}');
    SearchGoesOn(sub, text, '}');
    PassUnseparated(g, sub, text, i + 1, i + 1, w.s);
    ClosePasses(g, sub, text, i + 1 + |w.s|);
    var k := PassWord(g, sub, text, i + |Piece(w)|, w.rest, '}', 0, 0);
    NoneLeft(sub, text, '}', Inside(0, k));
  }

  lemma ClosePasses(g: Search, sub: SubstEnd, text: string, i: nat)
    requires GoesOn(g, sub, text, '}') && i < |text| && text[i] == '}'
    ensures g(i, Inside(0, 0)) == g(i + 1, Inside(0, 0))
  {
    assert !Stops(text, i, '}', Inside(0, 0));
  }

  /** Plain characters without two dots in a row, up to a close brace: from `j` on, no separator is seen. */
  lemma {:induction false} PassUnseparated(g: Search, sub: SubstEnd, text: string, i: nat, j: nat, s: string)
    requires GoesOn(g, sub, text, '}') && AllPlain(s) && NoDots(s) && Reads(text, i, s)
    requires i <= j <= i + |s| < |text| && text[i + |s|] == '}'
    ensures g(j, Inside(0, 0)) == g(i + |s|, Inside(0, 0))
    decreases i + |s| - j
  {
    hide GoesOn, Plain;
    if j < i + |s| {
      assert forall k :: i <= k < i + |s| ==> text[k] == text[i..i + |s|][k - i];
      assert text[j] == s[j - i];
      assert text[j] !in {',', '{', '}'} by { DotsPlain(); }
      assert j + 1 < i + |s| ==> text[j + 1] == s[j - i + 1];
      var k := PassChar(g, sub, text, j, '}', 0, 0);
      PassUnseparated(g, sub, text, i, j + 1, s);
    }
  }

  /** What is between the braces at the start of a word. */
  function Inner(w: Word): string
    requires w.Alt? || w.Range?
  {
    match w case Alt(bs, _) => Slots(bs) case Range(q, _) => RangeText(q)
  }

  /** The text of a pair of braces after plain characters. */
  function BracedText(lead: string, inner: string, post: string): string {
    lead + ("{" + (inner + ("}" + post)))
  }

  lemma BracedParts(lead: string, inner: string, post: string)
    ensures var text, n, m := BracedText(lead, inner, post), |lead|, |lead| + 1 + |inner|;
            && m < |text| && text[..n] == lead && text[n] == '{' && text[n + 1..m] == inner
            && text[m] == '}' && text[m + 1..] == post
            && Reads(text, n + 1, inner)
            && (forall k :: 0 <= k < n ==> text[k] == lead[k])
  {
  }

  lemma {:induction false} InnerStart(sub: SubstEnd, w: Word)
    requires Literal(sub, w) && (w.Alt? || w.Range?)
    ensures Inner(w) != "" && !Blank(Inner(w)[0]) && Inner(w)[0] != '}'
  {
    hide Slots, RangeText, StartText, EndText, StepText;
    match w
    case Alt(bs, _) => SlotsStart(sub, bs);
    case Range(q, _) =>
      RangeParts(q);
      StartVisible(q);
      assert Inner(w)[0] == StartText(q)[0];
  }

  lemma StartVisible(q: Sequence)
    requires LegalRange(q)
    ensures StartText(q) != "" && !Blank(StartText(q)[0]) && StartText(q)[0] != '}'
  {
    if q.Numbers? { NumberPlain(q.zeros, q.start); }
  }

  /** The close brace that belongs to the open brace is found. */
  lemma {:induction false} CloseFound(sub: SubstEnd, lead: string, w: Word, post: string)
    requires Literal(sub, w) && (w.Alt? || w.Range?)
    ensures var text := BracedText(lead, Inner(w), post);
            |lead| + 1 <= |text| && GobbleFrom(sub, text, |lead| + 1, '}') == (|lead| + 1 + |Inner(w)|, true)
  {
    hide Gobble, Inner, GoesOn, Literal, BracedText, Reads;
    var text, n, m := BracedText(lead, Inner(w), post), |lead|, |lead| + 1 + |Inner(w)|;
    BracedParts(lead, Inner(w), post);
    var g := Searching(sub, text, '}');
    SearchGoesOn(sub, text, '}');
    var k := PassInner(g, sub, text, n + 1, w, '}', 0, 0);
    StopsThere(sub, text, m, '}', Inside(0, k));
  }

  lemma OpenStops(lead: string, inner: string, post: string)
    requires inner != "" && !Blank(inner[0]) && inner[0] != '}'
    ensures var text, n := BracedText(lead, inner, post), |lead|;
            n < |text| && Stops(text, n, '{', InitScan('{'))
  {
    var text, n := BracedText(lead, inner, post), |lead|;
    BracedParts(lead, inner, post);
    assert text[n + 1] == text[n + 1..n + 1 + |inner|][0];
  }

  /** A word with its first alternation or sequence. */
  lemma {:induction false} WordBraced(sub: SubstEnd, w: Word)
    requires Literal(sub, w) && !Tail(w).End?
    ensures var t := Tail(w);
            (t.Alt? || t.Range?) && Literal(sub, t) && Print(w) == BracedText(Lead(w), Inner(t), Print(t.rest))
  {
    hide Inner, Literal;
    LeadDenotes(sub, w);
    PrintBraced(Tail(w));
  }

  /** The open brace of the first alternation or sequence is found. */
  lemma {:induction false} OpenFound(sub: SubstEnd, w: Word)
    requires Literal(sub, w) && !Tail(w).End?
    ensures FindOpen(sub, Print(w), 0) == (|Lead(w)|, true)
  {
    hide Gobble, Inner, Literal, BracedText, FindOpen, Print;
    var t, text, n := Tail(w), Print(w), |Lead(w)|;
    WordBraced(sub, w);
    InnerStart(sub, t);
    OpenStops(Lead(w), Inner(t), Print(t.rest));
    StopsThere(sub, text, n, '{', InitScan('{'));
    CloseFound(sub, Lead(w), t, Print(t.rest));
    ReadsAll(text);
    SkipPieces(sub, text, 0, w);
    OpenHere(sub, text, n);
  }

  lemma {:induction false} OpenHere(sub: SubstEnd, text: string, n: nat)
    requires n < |text| && GobbleFrom(sub, text, n, '{') == (n, true) && GobbleFrom(sub, text, n + 1, '}').1
    ensures FindOpen(sub, text, n) == (n, true)
  {
    hide Gobble, GobbleFrom;
  }

  /** Expansion of a word with its first alternation or sequence. */
  lemma {:induction false} ExpandBraced(sub: SubstEnd, w: Word)
    requires Literal(sub, w) && !Tail(w).End?
    ensures var t := Tail(w);
            && (t.Alt? || t.Range?)
            && Expand(sub, Print(w)) == match ExpandInner(sub, Inner(t))
                                        case None => [Print(w)]
                                        case Some(tack) => Glue(Lead(w), tack, Expand(sub, Print(t.rest)))
  {
    hide Gobble, FindOpen, ExpandInner, Expand, Inner, BracedText, Glue, Literal, Reads, Plain, GobbleFrom, Print;
    WordBraced(sub, w);
    var lead, inner, post := Lead(w), Inner(Tail(w)), Print(Tail(w).rest);
    BracedParts(lead, inner, post);
    OpenFound(sub, w);
    CloseFound(sub, lead, Tail(w), post);
    ExpandFound(sub, Print(w), |lead|, |lead| + 1 + |inner|);
  }

  lemma {:induction false} NoComma(amble: string, j: nat)
    requires forall c :: c in amble ==> c != ',' && c != '\\'
    ensures !HasComma(amble, j)
    decreases |amble| - j
  {
    if j < |amble| {
      assert amble[j] in amble;
      NoComma(amble, j + 1);
    }
  }

  // ---------- Reading a printed sequence ----------

  lemma {:induction false} DotsFound(text: string, i: nat, j: nat)
    requires i <= j && j + 2 <= |text| && text[j] == '.' && text[j + 1] == '.'
    requires forall k :: i <= k < j ==> text[k] != '.'
    ensures FindDots(text, i) == j
    decreases j - i
  {
    if i < j { DotsFound(text, i + 1, j); }
  }

  lemma NumberEnds(zeros: nat, n: int, w: string)
    requires w != "" ==> w[0] == '.'
    ensures var s := NumberText(zeros, n);
            && LeftEnd(s) == Some(Value(n)) && (LeadingZero(s) <==> zeros > 0)
            && RightEnd(s + w) == Some((Value(n), |s|))
  {
    hide Strtol, DecimalValue;
    var s := NumberText(zeros, n);
    NumberPlain(zeros, n);
    StrtolNumber(zeros, n, "");
    StrtolNumber(zeros, n, w);
    assert s + "" == s && s[|s|..] == "";
    LeadingZeros(zeros, n);
    assert (s + w)[0] == s[0];
    if n < 0 { assert (s + w)[1] == s[1] == (Zeros(zeros) + Digits(-n))[0]; }
    if w != "" { assert (s + w)[|s|] == w[0]; }
  }

  lemma StrtolNumber(zeros: nat, n: int, w: string)
    requires w != "" ==> !IsDigit(w[0])
    ensures Strtol(NumberText(zeros, n) + w) == (n, |NumberText(zeros, n)|)
  {
    hide DecimalValue, Strtol, Digits;
    var sign, m := if n < 0 then "-" else "", Abs(n);
    ZerosValue(zeros, Digits(m));
    DigitsDecimal(m);
    StrtolDigits(sign, Zeros(zeros) + Digits(m), w);
    assert NumberText(zeros, n) + w == sign + ((Zeros(zeros) + Digits(m)) + w);
  }

  lemma LeadingZeros(zeros: nat, n: int)
    ensures LeadingZero(NumberText(zeros, n)) <==> zeros > 0
  {
    var ds := DigitsPositional(Abs(n));
    var s := NumberText(zeros, n);
    if n < 0 {
      assert s[0] == '-' && s[1] == (Zeros(zeros) + Digits(-n))[0];
    } else {
      assert s == Zeros(zeros) + Digits(n);
    }
  }

  lemma StepRead(step: Option<int>)
    ensures IncrementAfter(StepText(step)) == Some(if step.None? then 1 else step.value)
    ensures StepText(step) != "" ==> StepText(step)[0] == '.'
  {
    if step.Some? {
      hide Strtol;
      StrtolItos(step.value, "");
      assert Itos(step.value) + "" == Itos(step.value) == StepText(step)[2..];
    }
  }

  lemma LetterEnds(c: char, w: string)
    requires IsLetter(c) && (w != "" ==> w[0] == '.')
    ensures LeftEnd([c]) == Some(Letter(c)) && RightEnd([c] + w) == Some((Letter(c), 1))
  {
  }

  /** A printed sequence is read back as the sequence it denotes. */
  lemma RangeRead(q: Sequence)
    requires LegalRange(q)
    ensures ExpandSeqterm(RangeText(q)) == Some(RangeTerms(q))
  {
    hide Strtol, LegalNumber, Terms, LeadingZero, IncrementAfter, LeftEnd, RightEnd, FindDots, StepText, Plain;
    hide RangeText, RangeTerms, AllPlain, NumberText;
    var text, a, step := RangeText(q), StartText(q), StepText(q.step);
    var b := EndText(q) + step;
    RangeParts(q);
    RangeSplit(q);
    StepRead(q.step);
    assert b[|EndText(q)|..] == step && b[..|EndText(q)|] == EndText(q);
    TermsMeant(q);
    match q
    case Numbers(z, m, z', n, _) =>
      NumberEnds(z, m, "");
      NumberEnds(z', n, step);
    case Letters(c, d, _) =>
      LetterEnds(c, "");
      LetterEnds(d, step);
  }

  /** The terms that `mkseq` computes are those meant. */
  lemma TermsMeant(q: Sequence)
    ensures var incr := if q.step.None? then 1 else q.step.value;
      RangeTerms(q) ==
        match q
        case Numbers(z, m, z', n, _) =>
          var width := if |StartText(q)| < |EndText(q)| then |EndText(q)| else |StartText(q)|;
          Terms(m, n, incr, if z == 0 && z' == 0 then Number else Padded(width))
        case Letters(a, b, _) => Terms(a as int, b as int, incr, Character)
  {
    var incr := if q.step.None? then 1 else q.step.value;
    match q
    case Numbers(z, m, z', n, _) => NumbersMeant(q, incr);
    case Letters(a, b, _) => LettersMeant(q, incr);
  }

  lemma NumbersMeant(q: Sequence, incr: int)
    requires q.Numbers? && incr == if q.step.None? then 1 else q.step.value
    ensures var width := if |StartText(q)| < |EndText(q)| then |EndText(q)| else |StartText(q)|;
      RangeTerms(q) == Terms(q.start, q.end, incr, if q.zeros == 0 && q.zeros' == 0 then Number else Padded(width))
  {
    hide StartText, EndText, Terms, Itos, Zeros, Progression;
    var width := if |StartText(q)| < |EndText(q)| then |EndText(q)| else |StartText(q)|;
    var kind := if q.zeros == 0 && q.zeros' == 0 then Number else Padded(width);
    ProgressionTerms(q.start, q.end, Apart(q), incr, kind);
  }

  lemma LettersMeant(q: Sequence, incr: int)
    requires q.Letters? && incr == if q.step.None? then 1 else q.step.value
    ensures RangeTerms(q) == Terms(q.from as int, q.to as int, incr, Character)
  {
    hide Terms, Progression;
    ProgressionTerms(q.from as int, q.to as int, Apart(q), incr, Character);
  }

  lemma ProgressionTerms(m: int, n: int, u: nat, incr: int, kind: Kind)
    requires u > 0 && u == if incr == 0 then 1 else if incr < 0 then -incr else incr
    ensures var ns, t := Progression(m, n, u), Terms(m, n, incr, kind);
            |t| == |ns| && forall k :: 0 <= k < |ns| ==> t[k] == TermText(kind, ns[k])
  {
    hide Terms, TermText;
    var ns := Progression(m, n, u);
    TermsAt(m, n, incr, kind, 0);
    forall k | 0 <= k < |ns| ensures Terms(m, n, incr, kind)[k] == TermText(kind, ns[k]) {
      TermsAt(m, n, incr, kind, k);
      assert ns[k] == if m <= n then m + k * u else m - k * u;
    }
  }

  lemma RangeSplit(q: Sequence)
    requires LegalRange(q)
    ensures var text, a, b := RangeText(q), StartText(q), EndText(q) + StepText(q.step);
            && FindDots(text, 0) == |a| && 0 < |a| && |a| + 2 < |text| && text[..|a|] == a && text[|a| + 2..] == b
  {
    hide RangeText, StartText, EndText, StepText, FindDots, Plain, AllPlain;
    RangeParts(q);
    StartHasNoDot(q);
    SplitAtDots(StartText(q), EndText(q) + StepText(q.step));
  }

  lemma StartHasNoDot(q: Sequence)
    requires LegalRange(q)
    ensures forall k :: 0 <= k < |StartText(q)| ==> StartText(q)[k] != '.'
  {
    if q.Numbers? { NumberPlain(q.zeros, q.start); }
  }

  lemma SplitAtDots(a: string, b: string)
    requires forall k :: 0 <= k < |a| ==> a[k] != '.'
    ensures var text := a + (".." + b);
            FindDots(text, 0) == |a| && |text| == |a| + 2 + |b| && text[..|a|] == a && text[|a| + 2..] == b
  {
    var text := a + (".." + b);
    forall k | 0 <= k < |a| ensures text[k] != '.' { assert text[k] == a[k]; }
    assert text[|a|] == '.' && text[|a| + 1] == '.';
    DotsFound(text, 0, |a|);
  }

  lemma {:induction false} StopsThere(sub: SubstEnd, text: string, i: nat, satisfy: char, s: Scan)
    requires i < |text| && satisfy in {'{', '}', ','} && Stops(text, i, satisfy, s)
    ensures Gobble(sub, text, i, satisfy, s) == (i, true)
  {
  }

  lemma {:induction false} NoneLeft(sub: SubstEnd, text: string, satisfy: char, s: Scan)
    ensures Gobble(sub, text, |text|, satisfy, s) == (|text|, false)
  {
  }

  /** The search for the comma after a printed word, or for the end of the text. */
  lemma {:induction false} SlotFound(sub: SubstEnd, text: string, i: nat, w: Word)
    requires Literal(sub, w) && Reads(text, i, Print(w))
    requires var n := i + |Print(w)|; n == |text| || text[n] == ','
    ensures var n := i + |Print(w)|; GobbleFrom(sub, text, i, ',') == (n, n < |text|)
  {
    hide Gobble, Print, GoesOn, Literal;
    var n := i + |Print(w)|;
    var g := Searching(sub, text, ',');
    SearchGoesOn(sub, text, ',');
    var k := PassWord(g, sub, text, i, w, ',', 0, 1);
    if n < |text| { StopsThere(sub, text, n, ',', Inside(0, k)); } else { NoneLeft(sub, text, ',', Inside(0, k)); }
  }

  lemma ExpandSlot(sub: SubstEnd, text: string, i: nat, w: Word)
    requires Literal(sub, w) && Reads(text, i, Print(w))
    requires var n := i + |Print(w)|; n == |text| || text[n] == ','
    ensures var n := i + |Print(w)|;
            ExpandAmble(sub, text, i)
            == Expand(sub, Print(w)) + if n < |text| then ExpandAmble(sub, text, n + 1) else []
  {
    hide Gobble, Expand, ExpandAmble, Print;
    SlotFound(sub, text, i, w);
    AmbleFound(sub, text, i, i + |Print(w)|, i + |Print(w)| < |text|);
  }

  /** The slots of an amble expand to what the branches denote. */
  lemma {:induction false} ExpandSlots(sub: SubstEnd, text: string, i: nat, bs: Branches)
    requires LiteralAll(sub, bs) && Reads(text, i, Slots(bs)) && i + |Slots(bs)| == |text|
    ensures ExpandAmble(sub, text, i) == DenoteAll(bs)
    decreases |Slots(bs)|, 1
  {
    var n := i + |Print(bs.w)|;
    hide Reads, Expand, ExpandAmble, Print, Slots, Denote;
    SlotsSplit(text, i, bs);
    ExpandSlot(sub, text, i, bs.w);
    ExpandWord(sub, bs.w);
    match bs
    case Two(_, v) =>
      ExpandSlot(sub, text, n + 1, v);
      ExpandWord(sub, v);
      Associative(Denote(bs.w), Denote(v), []);
      Associative(Denote(v), [], []);
    case More(_, others) =>
      ExpandSlots(sub, text, n + 1, others);
  }

  /** The expansion of a printed word is the ordered cross product the word denotes, whatever substitutions
      may look like. */
  lemma {:induction false} ExpandWord(sub: SubstEnd, w: Word)
    requires Literal(sub, w)
    ensures Expand(sub, Print(w)) == Denote(w)
    decreases |Print(w)|, 0
  {
    hide Expand, ExpandAmble, FindOpen, Print, Denote, Literal, Slots, RangeText, RangeTerms, Inner, Cross;
    hide ExpandInner, Lead, Tail;
    LeadDenotes(sub, w);
    var lead, tail := Lead(w), Tail(w);
    match tail
    case End => ExpandLead(sub, w);
    case Alt(bs, rest) =>
      PrintBraced(tail);
      AltLiteral(sub, tail);
      ExpandBraced(sub, w);
      ReadsAll(Slots(bs));
      AltTack(sub, bs);
      ExpandSlots(sub, Slots(bs), 0, bs);
      ExpandWord(sub, rest);
      CrossAssociative([lead], DenoteAll(bs), Denote(rest));
    case Range(q, rest) =>
      PrintBraced(tail);
      RangeLiteral(sub, tail);
      ExpandBraced(sub, w);
      RangeTack(sub, q);
      ExpandWord(sub, rest);
      CrossAssociative([lead], RangeTerms(q), Denote(rest));
  }

  lemma {:induction false} AltTack(sub: SubstEnd, bs: Branches)
    requires LiteralAll(sub, bs)
    ensures ExpandInner(sub, Slots(bs)) == Some(ExpandAmble(sub, Slots(bs), 0))
  {
    hide ExpandAmble, HasComma, Slots;
    SlotsComma(sub, bs);
  }

  lemma RangeTack(sub: SubstEnd, q: Sequence)
    requires LegalRange(q)
    ensures ExpandInner(sub, RangeText(q)) == Some(RangeTerms(q))
  {
    hide HasComma, RangeText, RangeTerms, ExpandSeqterm;
    RangeParts(q);
    NoComma(RangeText(q), 0);
    RangeRead(q);
  }

  lemma {:induction false} AltLiteral(sub: SubstEnd, w: Word)
    requires Literal(sub, w) && w.Alt?
    ensures LiteralAll(sub, w.branches) && Literal(sub, w.rest) && Inner(w) == Slots(w.branches)
    ensures Denote(w) == Cross(DenoteAll(w.branches), Denote(w.rest))
  {
  }

  lemma {:induction false} RangeLiteral(sub: SubstEnd, w: Word)
    requires Literal(sub, w) && w.Range?
    ensures LegalRange(w.range) && Literal(sub, w.rest) && Inner(w) == RangeText(w.range)
    ensures Denote(w) == Cross(RangeTerms(w.range), Denote(w.rest))
  {
  }

  lemma {:induction false} ExpandLead(sub: SubstEnd, w: Word)
    requires Literal(sub, w) && Tail(w) == End
    ensures Expand(sub, Print(w)) == [Lead(w)] == Cross([Lead(w)], Denote(End))
  {
    hide Expand, FindOpen, Print, Literal, Reads, Cross, Lead, Tail;
    var text := Print(w);
    LeadDenotes(sub, w);
    PrintEnd();
    assert text == Lead(w) + "" == Lead(w);
    ReadsAll(text);
    SkipPieces(sub, text, 0, w);
    NoOpen(sub, text);
    ExpandNone(sub, text);
    PairCross(text, "");
  }

  lemma {:induction false} ExpandNone(sub: SubstEnd, text: string)
    requires FindOpen(sub, text, 0) == (|text|, false)
    ensures Expand(sub, text) == [text]
  {
    hide FindOpen;
    assert text[..|text|] == text;
  }

  lemma PrintEnd()
    ensures Print(End) == ""
  {
  }

  lemma {:induction false} NoOpen(sub: SubstEnd, text: string)
    ensures FindOpen(sub, text, |text|) == (|text|, false)
  {
  }

  /** Without an open and a close brace nothing is expanded. */
  lemma {:induction false} NoPair(sub: SubstEnd, text: string)
    requires '{' !in text || '}' !in text
    ensures Expand(sub, text) == [text]
  {
    hide Gobble, FindOpen;
    if FindOpen(sub, text, 0).1 { BothBraces(sub, text); }
    assert text[..|text|] == text;
  }

  lemma {:induction false} BothBraces(sub: SubstEnd, text: string)
    requires FindOpen(sub, text, 0).1
    ensures '{' in text && '}' in text
  {
    hide Gobble, FindOpen;
    var open := FindOpen(sub, text, 0).0;
    var close := GobbleFrom(sub, text, open + 1, '}').0;
    assert text[open] == '{' && text[close] == '}';
  }

  /** A comma in quotes is a comma to this search, although the scanner does not see it: if there are two dots
      as well, the braces are taken for an alternation with one branch and disappear. */
  lemma {:induction false} QuotedComma(sub: SubstEnd, q: char, body: string, c: char)
    requires q in {'"', '\'', '`'} && Body(q, body) && ',' in body && '\\' !in body && Plain(c)
    ensures var inner := [q] + (body + [q]) + ".." + [c]; Expand(sub, "{" + inner + "}") == [inner]
  {
    hide Gobble, GobbleFrom, Expand, ExpandInner, Body, Plain;
    QuotedWord(sub, q, body, c);
    QuotedClose(sub, "{" + ([q] + (body + [q]) + ".." + [c]) + "}", q, body, c);
    OneSlot(sub, q, body, c);
    OneBranch(sub, [q] + (body + [q]) + ".." + [c]);
  }

  /** Braces with one branch disappear. */
  lemma {:induction false} OneBranch(sub: SubstEnd, inner: string)
    requires inner != "" && !Blank(inner[0]) && inner[0] != '}' && ExpandInner(sub, inner) == Some([inner])
    requires GobbleFrom(sub, "{" + inner + "}", 1, '}') == (1 + |inner|, true)
    ensures Expand(sub, "{" + inner + "}") == [inner]
  {
    hide Gobble, GobbleFrom, FindOpen, Expand, ExpandInner, Reads, Glue, Stops, BracedText, Blank, Cross;
    var text := BracedText("", inner, "");
    assert text == "{" + inner + "}" by { Braced(inner); }
    BracedParts("", inner, "");
    OpenStops("", inner, "");
    StopsThere(sub, text, 0, '{', InitScan('{'));
    SearchIs(sub, text, 0, '{');
    OpenHere(sub, text, 0);
    ExpandFound(sub, text, 0, 1 + |inner|);
    NoPair(sub, "");
    OnlyInner(inner);
  }

  lemma Braced(inner: string)
    ensures BracedText("", inner, "") == "{" + inner + "}"
  {
    assert "" + ("{" + (inner + ("}" + ""))) == "{" + inner + "}";
  }

  lemma {:induction false} SearchIs(sub: SubstEnd, text: string, i: nat, satisfy: char)
    requires i <= |text|
    ensures GobbleFrom(sub, text, i, satisfy) == Gobble(sub, text, i, satisfy, InitScan(satisfy))
  {
    hide Gobble;
  }

  /** What is between the braces counts as one branch. */
  lemma {:induction false} OneSlot(sub: SubstEnd, q: char, body: string, c: char)
    requires q in {'"', '\'', '`'} && Body(q, body) && ',' in body && '\\' !in body && Plain(c)
    ensures var inner := [q] + (body + [q]) + ".." + [c]; ExpandInner(sub, inner) == Some([inner])
  {
    hide Expand, ExpandAmble, HasComma, Literal, Print, Body, Plain, Reads, Denote;
    var inner, w := [q] + (body + [q]) + ".." + [c], Quoted(q, body, Char('.', Char('.', Char(c, End))));
    QuotedWord(sub, q, body, c);
    CommaInside(inner, q, body);
    ReadsAll(inner);
    ExpandSlot(sub, inner, 0, w);
    ExpandWord(sub, w);
    assert [inner] + [] == [inner];
  }

  lemma OnlyInner(inner: string)
    ensures Glue("", [inner], [""]) == [inner] && [inner] + [] == [inner]
  {
    hide Cross;
    PairCross("", inner);
    PairCross(inner, "");
    assert "" + inner == inner && inner + "" == inner;
  }

  /** What is between the braces, as a word of its own. */
  lemma {:induction false} QuotedWord(sub: SubstEnd, q: char, body: string, c: char)
    requires q in {'"', '\'', '`'} && Body(q, body) && Plain(c)
    ensures var inner, w := [q] + (body + [q]) + ".." + [c], Quoted(q, body, Char('.', Char('.', Char(c, End))));
      && Literal(sub, w) && Print(w) == inner && Denote(w) == [inner]
      && inner != "" && !Blank(inner[0]) && inner[0] != '}'
  {
    hide Body, Cross;
    var w3 := Char(c, End);
    var w2 := Char('.', w3);
    var w1 := Char('.', w2);
    var w := Quoted(q, body, w1);
    assert Literal(sub, w3) && Literal(sub, w2) && Literal(sub, w1);
    assert Print(End) == "" && Print(w3) == [c] && Print(w2) == "." + [c] && Print(w1) == "." + ("." + [c]);
    assert Print(w) == Piece(w) + Print(w1);
    LeadDenotes(sub, w);
    assert Tail(w3) == End && Tail(w2) == End && Tail(w1) == End && Tail(w) == End;
    CrossOne(Lead(w), [""]);
    assert Lead(w) + "" == Lead(w) == Print(w);
    assert Prefix(Lead(w), [""]) == [Lead(w)];
  }

  lemma {:induction false} QuotedClose(sub: SubstEnd, text: string, q: char, body: string, c: char)
    requires q in {'"', '\'', '`'} && Body(q, body) && Plain(c)
    requires text == "{" + ([q] + (body + [q]) + ".." + [c]) + "}"
    ensures GobbleFrom(sub, text, 1, '}') == (|text| - 1, true)
  {
    hide Gobble, GoesOn, Body, Plain, Reads;
    var g := Searching(sub, text, '}');
    SearchGoesOn(sub, text, '}');
    var quoted := [q] + (body + [q]);
    var n := 1 + |quoted|;
    QuotedParts(text, q, body, c);
    DotsPlain();
    PassQuoted(g, sub, text, 1, q, body, '}', 0, 0);
    var k := PassDot(g, sub, text, n, '}', 0, 0);
    k := PassDot(g, sub, text, n + 1, '}', 0, k);
    k := PassChar(g, sub, text, n + 2, '}', 0, k);
    StopsThere(sub, text, n + 3, '}', Inside(0, k));
  }

  lemma {:induction false} QuotedParts(text: string, q: char, body: string, c: char)
    requires text == "{" + ([q] + (body + [q]) + ".." + [c]) + "}"
    ensures var quoted := [q] + (body + [q]);
      var n := 1 + |quoted|;
      && Reads(text, 1, quoted) && |text| == n + 4
      && text[n] == '.' && text[n + 1] == '.' && text[n + 2] == c && text[n + 3] == '}'
  {
    var quoted := [q] + (body + [q]);
    assert text == "{" + (quoted + (".." + [c] + "}"));
    assert text[1..1 + |quoted|] == quoted;
  }

  lemma {:induction false} CommaInside(inner: string, q: char, body: string)
    requires q in {'"', '\'', '`'} && ',' in body && '\\' !in body
    requires |inner| >= 1 + |body| && inner[1..1 + |body|] == body && inner[0] == q
    ensures HasComma(inner, 0)
  {
    hide HasComma;
    var k :| 0 <= k < |body| && body[k] == ',';
    assert inner[1 + k] == body[k];
    assert inner[k] == if k == 0 then q else body[k - 1] by {
      if k > 0 { assert inner[1..1 + |body|][k - 1] == body[k - 1]; }
    }
    assert Backslashes(inner, 1 + k) == 0;
    CommaIff(inner, 0);
  }

  /** A sequence does not lead from a number to a letter or from a letter to a number. */
  lemma MixedEnds(zeros: nat, n: int, c: char, step: Option<int>)
    requires IsLetter(c)
    ensures ExpandSeqterm(NumberText(zeros, n) + (".." + ([c] + StepText(step)))) == None
    ensures ExpandSeqterm([c] + (".." + (NumberText(zeros, n) + StepText(step)))) == None
  {
    hide Strtol, LegalNumber, Terms, LeadingZero, IncrementAfter, LeftEnd, RightEnd, FindDots, StepText, Plain;
    hide NumberText;
    NumberPlain(zeros, n);
    StepRead(step);
    SplitAtDots(NumberText(zeros, n), [c] + StepText(step));
    SplitAtDots([c], NumberText(zeros, n) + StepText(step));
    NumberEnds(zeros, n, "");
    NumberEnds(zeros, n, StepText(step));
    LetterEnds(c, "");
    LetterEnds(c, StepText(step));
  }

  lemma ReadsAll(text: string)
    ensures Reads(text, 0, text)
  {
  }

  /** A client: the printed word is expanded by the loops. */
  method ExpandPrinted(sub: SubstEnd, w: Word) returns (result: seq<string>)
    requires Literal(sub, w)
    ensures result == Denote(w)
  {
    hide Expand, Print, Denote;
    ExpandWord(sub, w);
    result := BraceExpand(sub, Print(w));
  }
}
