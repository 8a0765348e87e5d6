/** Which parts of an expression can change variables although their value is not used
    (ipc/bash-4.2/expr.c). */
module ExprEffects {
  import opened Common
  import opened Arithmetic
  import opened Expr
  import opened ExprTrees

  /** The right operand of `||` after a true value, or of `&&` after a false one, is parsed without any
      effect, and its value does not matter. */
  lemma {:induction false} SkippedOperandPure(op: BinOp, v: int, s: State, d: nat)
    requires Good(s) && d <= MAX_DEPTH && s.cur == Op(op) && Skips(op, v)
    ensures var (k, first) := (Level(op), ReadTok(Muffle(s, true), d));
      var right := if first.Ok? then Operand(k, first.value, d) else Err(first.env);
      if right.Err? then right.env == s.env && BinLoop(k, v, s, d) == Err(s.env) else
        var s2 := right.value.1;
        && s2.env == s.env && Unmuffle(s2, true).noeval == s.noeval
        && BinLoop(k, v, s, d) == BinLoop(k, Truth(op == Lor), Unmuffle(s2, true).(last := Op(op)), d)
  {
    hide ReadTok, Operand, QuietFrom, QuietAt, QuietEnv;
  }

  /** An operand is skipped exactly if it is the right one of `&&` or `||` and cannot change the result. */
  lemma SkipsIff(op: BinOp, v: int)
    ensures Skips(op, v) <==> op in {Land, Lor} && forall b, c :: Binary(op, v, b) == Binary(op, v, c)
  {
    if op in {Land, Lor} && !Skips(op, v) { assert Binary(op, v, 0) != Binary(op, v, 1); }
  }

  /** Blanks, tabs and newlines before a token do not matter. */
  lemma BlanksSkipped(s: State, n: nat, d: nat)
    requires Good(s) && d <= MAX_DEPTH && s.tp + n <= |s.text|
    requires forall i :: s.tp <= i < s.tp + n ==> s.text[i] in {' ', '\t', '\n'}
    ensures ReadTok(s, d) == ReadTok(s.(tp := s.tp + n), d)
  {
    hide TokenAt, QuietFrom, QuietAt, QuietEnv;
    WhiteSkipped(s.text, s.tp, n);
    var i := SkipWhite(s.text, s.tp);
    if i < |s.text| { SameToken(s, s.tp + n, i, d); }
  }

  lemma {:induction false} SameToken(s: State, k: nat, i: nat, d: nat)
    requires d <= MAX_DEPTH && s.tp <= i < |s.text| && k <= i
    ensures TokenAt(s, i, d) == TokenAt(s.(tp := k), i, d)
  {
    hide ReadTok, SubExpr, ReadOp, Strlong, QuietFrom, QuietAt, QuietEnv;
    var j := SkipVar(s.text, i);
    if VarStart(s.text[i]) && At(s.text, j) != '[' {
      var name, s1 := s.text[i..j], s.(tp := k);
      VariableLonger(s.text, i);
      var q := s.(tokstr := name, tp := j, noeval := 1, cur := Str);
      assert s1.(tokstr := name, tp := j, noeval := 1, cur := Str) == q;
      if ReadTok(q, d).Ok? {
        var peek := ReadTok(q, d).value;
        SameValue(s.(tokstr := name, env := peek.env, assignop := peek.assignop),
                  s1.(tokstr := name, env := peek.env, assignop := peek.assignop), name, d);
        assert VariableRead(s, name, j, d) == VariableRead(s1, name, j, d);
      }
    }
  }

  lemma {:induction false} WhiteSkipped(text: string, i: nat, n: nat)
    requires i + n <= |text| && forall k :: i <= k < i + n ==> text[k] in {' ', '\t', '\n'}
    ensures SkipWhite(text, i) == SkipWhite(text, i + n)
    decreases n
  {
    if n > 0 { WhiteSkipped(text, i + 1, n - 1); }
  }

  /** What the lookahead past a variable leaves behind: of the restored state, only the last assignment
      operator may differ. */
  lemma {:induction false} LookaheadLeaves(s: State, name: string, j: nat, d: nat)
    requires d <= MAX_DEPTH && s.tp < j <= |s.text|
    ensures var peek := ReadTok(s.(tokstr := name, tp := j, noeval := 1, cur := Str), d);
      VariableRead(s, name, j, d) ==
        if peek.Err? then Err(s.env)
        else ValueFetched(s.(tokstr := name, assignop := peek.value.assignop), j, peek.value.cur, d)
  {
    hide ReadTok, ValueFetched, QuietFrom, QuietAt, QuietEnv;
    var peek := ReadTok(s.(tokstr := name, tp := j, noeval := 1, cur := Str), d);
    if peek.Ok? { assert peek.value.env == s.env; }
  }

  /** The variables after reading a token, failed or not. */
  function VarsRead(r: Res<State>): Env {
    match r case Err(env) => env case Ok(s) => s.env
  }

  /** The variables after parsing, failed or not. */
  function Vars(r: Res<Val>): Env {
    match r case Err(env) => env case Ok((_, s)) => s.env
  }

  /** The arm of a conditional that is not taken, from its first token on. */
  function UntakenArm(c: int, s: State, d: nat): Res<Val>
    requires Good(s) && d <= MAX_DEPTH
  {
    var s1 :- ReadTok(s, d);
    if c == 0 then ExpComma(Muffle(s1, true), d) else ExpCond(Muffle(s1, true), d)
  }

  /** The next token, read for its own sake: where it ends and whether it is a variable. */
  function NextName(s: State): string
    requires Good(s)
  {
    var i := SkipWhite(s.text, s.tp);
    s.text[i..SkipVar(s.text, i)]
  }

  /** The state in which the value of the variable `name`, which ends at `j`, is evaluated: there is none
      if it is about to be assigned to. */
  function Wanted(s: State, name: string, j: nat, d: nat): Option<State>
    requires d <= MAX_DEPTH && s.tp < j <= |s.text|
  {
    match ReadTok(s.(tokstr := name, tp := j, noeval := 1, cur := Str), d)
    case Err(_) => None
    case Ok(peek) =>
      if s.last == PreInc || s.last == PreDec || peek.cur != Eq then
        Some(s.(tokstr := name, assignop := peek.assignop))
      else None
  }

  /** That value is an expression that assigns to some variable. */
  predicate ValueAssigns(s: State, at: Option<State>, d: nat)
    requires d <= MAX_DEPTH
  {
    && at.Some? && at.value.tokstr in s.env && s.env[at.value.tokstr] != ""
    && EnvOf(SubExpr(s.env[at.value.tokstr], s.env, s.noeval, at.value.assignop, d)) != s.env
  }

  /** The next token is a variable whose value, itself an expression, assigns to some variable. */
  predicate NextAssigns(s: State, d: nat)
    requires Good(s) && d <= MAX_DEPTH
  {
    var i := SkipWhite(s.text, s.tp);
    && i < |s.text| && VarStart(s.text[i]) && At(s.text, SkipVar(s.text, i)) != '['
    && ValueAssigns(s, Wanted(s, NextName(s), SkipVar(s.text, i), d), d)
  }

  lemma {:induction false} VariableAssigns(s: State, name: string, j: nat, d: nat)
    requires d <= MAX_DEPTH && s.tp < j <= |s.text|
    ensures VarsRead(VariableRead(s, name, j, d)) != s.env <==> ValueAssigns(s, Wanted(s, name, j, d), d)
  {
    hide ReadTok, SubExpr, QuietFrom, QuietAt, QuietEnv;
    LookaheadLeaves(s, name, j, d);
  }

  /** A token is a variable exactly if it starts like one; a subscript is an error. */
  lemma {:induction false} VariableToken(s: State, d: nat)
    requires Good(s) && d <= MAX_DEPTH
    ensures var i := SkipWhite(s.text, s.tp);
      if i < |s.text| && VarStart(s.text[i]) && At(s.text, SkipVar(s.text, i)) != '[' then
        i < SkipVar(s.text, i) && ReadTok(s, d) == VariableRead(s, NextName(s), SkipVar(s.text, i), d)
      else VarsRead(ReadTok(s, d)) == s.env
  {
    hide VariableRead, ReadOp, Strlong, VarStart, SkipVar, SkipWhite, SkipNum, QuietFrom, QuietAt, QuietEnv;
    var i := SkipWhite(s.text, s.tp);
    if i < |s.text| && VarStart(s.text[i]) { VariableLonger(s.text, i); }
  }

  /** Reading a token changes a variable exactly in that case. */
  lemma {:induction false} ReadingAssigns(s: State, d: nat)
    requires Good(s) && d <= MAX_DEPTH
    ensures VarsRead(ReadTok(s, d)) != s.env <==> NextAssigns(s, d)
  {
    hide ReadTok, VariableRead, ValueAssigns, Wanted, VarStart, SkipVar, SkipWhite, NextName;
    hide QuietFrom, QuietAt, QuietEnv;
    VariableToken(s, d);
    var i := SkipWhite(s.text, s.tp);
    if i < |s.text| && VarStart(s.text[i]) && At(s.text, SkipVar(s.text, i)) != '[' {
      VariableAssigns(s, NextName(s), SkipVar(s.text, i), d);
    }
  }

  lemma {:induction false} VariableLonger(text: string, i: nat)
    requires i < |text| && VarStart(text[i])
    ensures i < SkipVar(text, i) <= |text|
  {
  }

  /** An arm that is not taken leaves the variables alone if and only if its first token is not such a
      variable: that token is read before assignments are switched off. */
  lemma UntakenArmPureIff(c: int, s: State, d: nat)
    requires Good(s) && d <= MAX_DEPTH
    ensures Vars(UntakenArm(c, s, d)) == s.env <==> !NextAssigns(s, d)
  {
    hide ReadTok, SubExpr, ExpComma, ExpCond, NextAssigns, QuietFrom, QuietAt, QuietEnv;
    ReadingAssigns(s, d);
  }

  /** What a conditional does: the arm taken is parsed as it would be alone, the other as an untaken one. */
  lemma {:induction false} ConditionalArms(c: int, s: State, d: nat)
    requires Good(s) && d <= MAX_DEPTH && s.cur == Ques && CondRest(c, s, d).Ok?
    ensures ReadTok(s, d).Ok?
    ensures var (v, end) := CondRest(c, s, d).value;
      if c == 0 then
        && UntakenArm(c, s, d).Ok?
        && var s1 := Unmuffle(UntakenArm(c, s, d).value.1, true);
        && s1.noeval == s.noeval && ReadTok(s1, d).Ok? && ExpCond(ReadTok(s1, d).value, d).Ok?
        && ExpCond(ReadTok(s1, d).value, d).value.0 == v && ExpCond(ReadTok(s1, d).value, d).value.1.env == end.env
      else
        && ExpComma(ReadTok(s, d).value, d).Ok?
        && var (v1, s1) := ExpComma(ReadTok(s, d).value, d).value;
        && v == v1 && UntakenArm(c, s1, d).Ok?
        && (end.env == s1.env <==> !NextAssigns(s1, d))
  {
    hide ReadTok, ExpComma, ExpCond, SubExpr, NextAssigns, QuietFrom, QuietAt, QuietEnv;
    if c != 0 {
      var s1 := ExpComma(ReadTok(s, d).value, d).value.1;
      UntakenArmPureIff(c, s1, d);
    }
  }

  /** If no variable holds text with an assignment operator, `++` or `--`, no untaken arm of any text
      changes a variable. */
  lemma QuietEnvArmPure(c: int, s: State, d: nat)
    requires Good(s) && d <= MAX_DEPTH && QuietEnv(s.env)
    ensures !NextAssigns(s, d) && Vars(UntakenArm(c, s, d)) == s.env
  {
    hide ReadTok, SubExpr, ExpComma, ExpCond, NextAssigns, QuietFrom, QuietAt, QuietEnv;
    ReadingAssigns(s, d);
    UntakenArmPureIff(c, s, d);
  }

  /** A text without them changes no variable at all. */
  lemma {:induction false} QuietTextPure(text: string, env: Env, op: BinOp)
    requires QuietEnv(env) && QuietFrom(text, 0, false)
    ensures match Eval(text, env, op) case Err(env1) => env1 == env case Ok((_, env1)) => env1 == env
  {
    hide SubExpr, QuietFrom, QuietAt, QuietEnv;
  }

  // ---------- Environments ----------

  /** An operand that is a whole expression, up to a token of a lower level. */
  lemma {:induction false} Alone(k: nat, s: State, v: int, s1: State, d: nat)
    requires Good(s) && Good(s1) && d <= MAX_DEPTH && k <= 15 && UnaryOp(s.cur).None?
    requires Exp0(s, d) == Ok((v, s1)) && TokLevel(s1.cur) < k && (k <= 1 ==> !Assigning(s1.cur))
    ensures Parse(k, s, d) == Ok((v, s1))
  {
    hide ReadTok, QuietFrom, QuietAt, QuietEnv;
    Climb(k, 15, s, Ok((v, s1.env)), s1, d);
    RestStops(k, v, s1, d);
  }

  /** A variable with a colon behind it: its value is wanted. */
  lemma VariableTaken(s: State, x: string, w: string, d: nat) returns (q: State)
    requires d <= MAX_DEPTH && Identifier(x) && Follows(Col, w) && Ahead(s, x + (":" + w))
    ensures match StrEval(s.(tokstr := x), d)
      case Err(env) => ReadTok(s, d) == Err(env)
      case Ok((v, env, op)) =>
        && q == s.(tokstr := x, tokval := v, env := env, assignop := op, last := s.cur, cur := Str, tp := q.tp)
        && ReadTok(s, d) == Ok(q) && Ahead(q, ":" + w)
  {
    hide ReadTok, StrEval, SkipWhite, Ahead, Identifier, EndsName, QuietFrom, QuietAt, QuietEnv;
    assert Then(Col, w) == ":" + w;
    FollowEnds(Col, w);
    NameRead(s, x, ":" + w, d);
    var peek := ReadFollow(Peeking(s, x), Col, w, d);
    LookaheadLeaves(s, x, Start(s) + |x|, d);
    q := s;
    if ReadTok(s, d).Ok? {
      q := ReadTok(s, d).value;
      SameAhead(Peeking(s, x), q, ":" + w);
    }
  }

  /** The untaken arm that consists of the variable `x`. */
  lemma VariableArm(s: State, x: string, w: string, d: nat) returns (s1: State)
    requires d <= MAX_DEPTH && s.noeval == 0 && Identifier(x) && Follows(Col, w) && Ahead(s, x + (":" + w))
    ensures match StrEval(s.(tokstr := x), d)
      case Err(env) => ReadTok(s, d) == Err(env) && UntakenArm(0, s, d) == Err(env)
      case Ok((v, env, op)) =>
        && UntakenArm(0, s, d) == Ok((v, s1)) && Past(Muffle(s, true), s1, Col, w, env)
        && ReadTok(s, d).Ok? && ReadTok(s, d).value.cur == Str
  {
    hide ReadTok, StrEval, SkipWhite, Exp0, ExpComma, Ahead, Identifier, EndsName, QuietFrom, QuietAt, QuietEnv;
    s1 := s;
    var q := VariableTaken(s, x, w, d);
    if StrEval(s.(tokstr := x), d).Ok? {
      assert Then(Col, w) == ":" + w;
      MuffleAhead(q, ":" + w, true);
      s1 := VarRest(Muffle(q, true), Col, w, d);
      Alone(0, Muffle(q, true), q.tokval, s1, d);
      assert ExpComma(Muffle(q, true), d) == Parse(0, Muffle(q, true), d);
    }
  }

  /** What a variable holds, evaluated where assignments are on, changes no variable. */
  ghost predicate Harmless(env: Env, d: nat)
    requires d <= MAX_DEPTH
  {
    forall x, op :: x in env && Identifier(x) ==> EnvOf(SubExpr(env[x], env, 0, op, d)) == env
  }

  /** A name that has been read is an identifier. */
  lemma NameIdentifier(s: State)
    requires Good(s) && Start(s) < |s.text| && VarStart(s.text[Start(s)])
    ensures Identifier(NextName(s))
  {
    VariableLonger(s.text, Start(s));
    NameChars(s.text, Start(s));
  }

  lemma {:induction false} NameChars(text: string, i: nat)
    requires i <= |text|
    ensures forall k :: i <= k < SkipVar(text, i) ==> VarChar(text[k])
    decreases |text| - i
  {
    if i < |text| && VarChar(text[i]) { NameChars(text, i + 1); }
  }

  /** Exactly then no untaken arm of any text changes a variable. */
  lemma HarmlessIff(env: Env, d: nat)
    requires d <= MAX_DEPTH
    ensures Harmless(env, d) <==>
      forall c: int, s: State :: Good(s) && s.env == env ==> Vars(UntakenArm(c, s, d)) == env
  {
    hide UntakenArm, NextAssigns, SubExpr, QuietFrom, QuietAt, QuietEnv;
    if Harmless(env, d) {
      forall c: int, s: State | Good(s) && s.env == env
        ensures Vars(UntakenArm(c, s, d)) == env
      {
        UntakenArmPureIff(c, s, d);
        HarmlessNext(s, d);
      }
    } else {
      var x, op :| x in env && Identifier(x) && EnvOf(SubExpr(env[x], env, 0, op, d)) != env;
      var s := HarmfulArm(x, env, op, d);
    }
  }

  lemma HarmlessNext(s: State, d: nat)
    requires Good(s) && d <= MAX_DEPTH && Harmless(s.env, d)
    ensures !NextAssigns(s, d)
  {
    hide SubExpr, ReadTok, Identifier, VarStart, SkipVar, SkipWhite, QuietFrom, QuietAt, QuietEnv;
    if NextAssigns(s, d) { NameIdentifier(s); }
  }

  lemma HarmfulArm(x: string, env: Env, op: BinOp, d: nat) returns (s: State)
    requires d <= MAX_DEPTH && x in env && Identifier(x) && EnvOf(SubExpr(env[x], env, 0, op, d)) != env
    ensures Good(s) && s.env == env && Vars(UntakenArm(0, s, d)) != env
  {
    hide UntakenArm, StrEval, QuietFrom, QuietAt, QuietEnv, ReadTok, ExpComma;
    var text := x + ":0";
    s := State(text, 0, Ques, Num, op, "", 0, 0, env);
    assert Tight(text) && SkipWhite(text, 0) == 0 && text[0..] == text == x + (":" + "0");
    ValueHeld(s, x, d);
    var s1 := VariableArm(s, x, "0", d);
  }

  // ---------- An untaken arm that assigns ----------

  /** From the question mark on. */
  lemma ArmsRun(s: State, x: string, d: nat) returns (end: State)
    requires d <= MAX_DEPTH && s.noeval == 0 && s.cur == Ques && Identifier(x) && Ahead(s, x + (":" + "0"))
    ensures match StrEval(s.(tokstr := x), d)
      case Err(env) => CondRest(0, s, d) == Err(env)
      case Ok((_, env, _)) => CondRest(0, s, d) == Ok((0, end)) && Good(end) && end.cur == Eof && end.env == env
  {
    hide ReadTok, StrEval, ExpComma, Exp0, SkipWhite, Identifier, Ahead, QuietFrom, QuietAt, QuietEnv;
    end := s;
    var s1 := VariableArm(s, x, "0", d);
    if StrEval(s.(tokstr := x), d).Ok? {
      var v := StrEval(s.(tokstr := x), d).value.0;
      var s2 := Unmuffle(s1, true);
      SameAhead(s1, s2, "0");
      var s3, s4 := LastLit(s2, 0, d);
      Alone(2, s3, 0, s4, d);
      end := s4.(last := Cond);
      assert ElseRest(0, v, s2, d) == Ok((0, end));
    }
  }

  /** From the first token on. */
  lemma TestRuns(s: State, x: string, d: nat) returns (q: State, end: State)
    requires d <= MAX_DEPTH && s.noeval == 0 && Identifier(x) && Ahead(s, "0" + ("?" + (x + (":" + "0"))))
    ensures ReadTok(s, d) == Ok(q) && Good(q)
    ensures match StrEval(s.(tokstr := x), d)
      case Err(env) => ExpComma(q, d) == Err(env)
      case Ok((_, env, _)) => Good(end) && ExpComma(q, d) == Ok((0, end)) && end.cur == Eof && end.env == env
  {
    hide ReadTok, StrEval, ExpComma, Exp0, CondRest, SkipWhite, Identifier, Ahead, QuietFrom, QuietAt, QuietEnv;
    var w := x + (":" + "0");
    MarkBefore(x, w);
    FollowEnds(Ques, w);
    assert Strlong("0") == Some(0);
    q := ReadLit(s, "0", "?" + w, d);
    var s1 := ReadFollow(q, Ques, w, d);
    SameValue(s, s1, x, d);
    NumberAlone(q, s1, d);
    Climb(2, 15, q, Ok((0, s1.env)), s1, d);
    end := ArmsRun(s1, x, d);
    if CondRest(0, s1, d).Ok? {
      RestStops(2, 0, end, d);
      Climb(0, 2, q, Ok((0, end.env)), end, d);
      RestStops(0, 0, end, d);
    } else {
      Climb(0, 2, q, Err(CondRest(0, s1, d).env), q.(cur := Eof), d);
    }
    assert Parse(0, q, d) == ExpComma(q, d);
  }

  lemma {:induction false} SameValue(s: State, s1: State, x: string, d: nat)
    requires d <= MAX_DEPTH && s1.env == s.env && s1.noeval == s.noeval && s1.assignop == s.assignop
    ensures StrEval(s1.(tokstr := x), d) == StrEval(s.(tokstr := x), d)
  {
    hide SubExpr;
  }

  lemma MarkBefore(x: string, w: string)
    requires Identifier(x) && w == x + (":" + "0")
    ensures Follows(Ques, w) && Then(Ques, w) == "?" + w
  {
  }

  /** Whatever evaluating the value of `x` does to the variables, evaluating `0?x:0` does; it fails exactly
      if that does. */
  lemma {:induction false} UntakenArmRuns(x: string, env: Env, op: BinOp)
    requires Identifier(x) && x in env
    ensures Eval("0?" + x + ":0", env, op)
         == match SubExpr(env[x], env, 0, op, 1)
            case Err(env1) => Err(env1)
            case Ok((_, env1, _)) => Ok((0, env1))
  {
    hide ReadTok, ExpComma, StrEval, SkipWhite, Ahead, Eval, SubExpr, QuietFrom, QuietAt, QuietEnv, Identifier;
    var text := "0?" + x + ":0";
    var s := State(text, 0, Eof, Eof, op, "", 0, 0, env);
    assert text == "0" + ("?" + (x + (":" + "0")));
    AtStart(text, env, 0, op);
    ValueHeld(s, x, 1);
    var q, end := TestRuns(s, x, 1);
    WholeText(text, env, op, q);
  }

  lemma {:induction false} ValueHeld(s: State, x: string, d: nat)
    requires d <= MAX_DEPTH && x in s.env
    ensures StrEval(s.(tokstr := x), d) == SubExpr(s.env[x], s.env, s.noeval, s.assignop, d)
  {
    hide ReadTok, ExpComma;
  }

  lemma {:induction false} WholeText(text: string, env: Env, op: BinOp, q: State)
    requires text != "" && !White(text[0]) && Good(q)
    requires ReadTok(State(text, 0, Eof, Eof, op, "", 0, 0, env), 1) == Ok(q)
    requires ExpComma(q, 1).Ok? ==> ExpComma(q, 1).value.1.cur == Eof
    ensures Eval(text, env, op)
         == match ExpComma(q, 1) case Err(env1) => Err(env1) case Ok((v, end)) => Ok((v, end.env))
  {
    hide ReadTok, ExpComma, QuietFrom, QuietAt, QuietEnv;
    assert SkipWhite(text, 0) == 0;
  }

  /** With x holding the text ++y and y unset, evaluating 0?x:0 increments y. */
  lemma UntakenArmAssigns()
    ensures var env: Env := map["x" := "++y"]; Eval("0?x:0", env, Plus) == Ok((0, env["y" := "1"]))
  {
    hide SubExpr, QuietFrom, QuietAt, QuietEnv;
    var env: Env := map["x" := "++y"];
    var e := Pre(Incr, "y");
    assert Print(e, 0) == "++y";
    var h := Held({"y"}, map[]);
    assert Legal(e, h) && Holds(env, h);
    SubExprPrinted(e, h, env, 0, Plus, 1);
    assert Lookup(env, "y", h, 2) == Some(0);
    assert Itos(1) == "1";
    UntakenArmRuns("x", env, Plus);
    assert "0?" + "x" + ":0" == "0?x:0";
  }
}
