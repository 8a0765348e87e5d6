/** The evaluator as the source has it: global variables for the position, the current token and so on,
    changed in place, and a stack of saved contexts (ipc/bash-4.2/expr.c). Every method does what the
    function of the same name in `Expr` says; a failure is the long jump out of the evaluation. */
module ExprMachine {
  import opened Common
  import opened Arithmetic
  import opened Expr

  /** The outcome of a method: `Jump` is the long jump out of the evaluation. */
  datatype Out<+T> = Jump | Done(value: T) {
    predicate IsFailure() { Jump? }
    function PropagateFailure<U>(): Out<U> requires Jump? { Jump }
    function Extract(): T requires Done? { value }
  }

  lemma {:induction false} BinLoopEnds(k: nat, v: int, s: State, d: nat)
    requires Expr.Good(s) && d <= MAX_DEPTH && 3 <= k <= 12 && !(s.cur.Op? && Level(s.cur.op) == k)
    ensures Expr.BinLoop(k, v, s, d) == Ok((v, s))
  {
  }

  class Evaluator {
    var text: string
    var tp: nat
    var cur: Tok
    var last: Tok
    var assignop: BinOp
    var tokstr: string
    var tokval: int
    var noeval: nat
    var env: Env
    var stack: seq<State>

    /** Before any evaluation. */
    constructor (env: Env, assignop: BinOp)
      ensures this.env == env && this.assignop == assignop && stack == []
    {
      text, tp, cur, last, this.assignop, tokstr, tokval, noeval := "", 0, Eof, Eof, assignop, "", 0, 0;
      this.env, stack := env, [];
    }

    function Globals(): State
      reads this
    {
      State(text, tp, cur, last, assignop, tokstr, tokval, noeval, env)
    }

    ghost predicate Valid()
      reads this
    {
      Expr.Good(Globals()) && |stack| <= MAX_DEPTH
    }

    /** The outcome of a method is the one specified. */
    ghost predicate Does(r: Out<int>, spec: Res<Val>)
      reads this
    {
      match spec case Err(e) => r == Jump && env == e case Ok((v, s)) => r == Done(v) && Globals() == s
    }

    ghost predicate Reads(r: Out<Tok>, spec: Res<State>)
      reads this
    {
      match spec case Err(e) => r == Jump && env == e case Ok(s) => r == Done(cur) && Globals() == s
    }

    /** `RESTORETOK`: all but the variables and the operation of the last `op=`. */
    method RestoreTok(c: State)
      modifies this
      ensures Globals() == c.(text := old(text), env := old(env), assignop := old(assignop))
      ensures stack == old(stack)
    {
      tp, cur, last, tokstr, tokval, noeval := c.tp, c.cur, c.last, c.tokstr, c.tokval, c.noeval;
    }

    // ---------- Tokens ----------

    /** `readtok`. */
    method ReadTok() returns (r: Out<Tok>)
      requires Valid()
      modifies this
      ensures Reads(r, Expr.ReadTok(old(Globals()), |old(stack)|))
      ensures r.Done? ==> Valid() && stack == old(stack)
      decreases MAX_DEPTH - |stack|, |text| - tp, 1
    {
      hide Expr.VariableRead, NumberRead, OperatorRead, SkipVar, QuietFrom, QuietAt, QuietEnv;
      var i := SkipWhite(text, tp);
      if i == |text| {
        last, cur, tp := cur, Eof, i;
        return Done(cur);
      }
      if VarStart(text[i]) {
        var j := SkipVar(text, i);
        if At(text, j) == '[' { return Jump; }
        r := ReadVariable(text[i..j], j);
      } else if IsDigit(text[i]) {
        r := NumberToken(i);
      } else {
        r := OperatorToken(i);
      }
    }

    method NumberToken(i: nat) returns (r: Out<Tok>)
      requires Valid() && tp <= i < |text| && IsDigit(text[i])
      modifies this
      ensures Reads(r, NumberRead(old(Globals()), i))
      ensures r.Done? ==> Valid() && stack == old(stack)
    {
      hide Strlong, SkipNum, QuietFrom, QuietAt, QuietEnv;
      var j := SkipNum(text, i);
      var v := ReadNumber(text[i..j]);
      if v.None? { return Jump; }
      tokval, last, cur, tp := v.value, cur, Num, j;
      r := Done(cur);
    }

    method OperatorToken(i: nat) returns (r: Out<Tok>)
      requires Valid() && tp <= i < |text| && !VarStart(text[i]) && !IsDigit(text[i])
      modifies this
      ensures Reads(r, OperatorRead(old(Globals()), i))
      ensures r.Done? ==> Valid() && stack == old(stack)
    {
      hide Expr.ReadOp, QuietFrom, QuietAt, QuietEnv;
      var t := ReadOp(text, i, cur == Str);
      if t.None? { return Jump; }
      var (tok, n, op) := t.value;
      if tok == OpAssign { assignop := op; }
      last, cur, tp := cur, tok, i + n;
      r := Done(cur);
    }

    /** `strlong`. */
    method ReadNumber(num: string) returns (r: Option<int>)
      ensures r == Strlong(num)
    {
      hide DigitValue;
      var i, base, foundBase := 0, 10, false;
      if num != "" && num[0] == '0' {
        if |num| == 1 { return Some(0); }
        i, foundBase := 1, true;
        if num[1] == 'x' || num[1] == 'X' {
          i, base := 2, 16;
        } else {
          base := 8;
        }
      }
      var val := 0;
      while i < |num|
        invariant i <= |num| && Strlong(num) == StrlongFrom(num, i, base, foundBase, val)
      {
        if num[i] == '#' {
          if foundBase || val < 2 || val > 64 { return None; }
          base, val, foundBase := val, 0, true;
        } else {
          var d := DigitValue(num[i], base);
          if d == None { return Some(val); }
          if d.value >= base { return None; }
          val := val * base + d.value;
        }
        i := i + 1;
      }
      r := Some(val);
    }

    /** The variable `name`, which ends at `j`: what follows decides whether its value is wanted. */
    method ReadVariable(name: string, j: nat) returns (r: Out<Tok>)
      requires Valid() && tp < j <= |text|
      modifies this
      ensures Reads(r, VariableRead(old(Globals()), name, j, |old(stack)|))
      ensures r.Done? ==> Valid() && stack == old(stack)
      decreases MAX_DEPTH - |stack|, |text| - j, 3
    {
      hide Expr.ReadTok, ValueFetched, QuietFrom, QuietAt, QuietEnv;
      tokstr := name;
      var peek :- LookAhead(j);
      r := FetchValue(j, peek);
    }

    /** The value of the variable just read, unless it is about to be assigned to. */
    method FetchValue(j: nat, peek: Tok) returns (r: Out<Tok>)
      requires Valid() && j <= |text|
      modifies this
      ensures Reads(r, ValueFetched(old(Globals()), j, peek, |old(stack)|))
      ensures r.Done? ==> Valid() && stack == old(stack)
      decreases MAX_DEPTH - |stack|, |text| - j, 2
    {
      hide Expr.StrEval, QuietFrom, QuietAt, QuietEnv;
      var v := 0;
      if last == PreInc || last == PreDec || peek != Eq {
        v :- StrEval();
      }
      TakeVariable(v, j);
      r := Done(cur);
    }

    method TakeVariable(v: int, j: nat)
      modifies this
      ensures Globals() == old(Globals()).(tokval := v, last := old(cur), cur := Str, tp := j) && stack == old(stack)
    {
      tokval, last, cur, tp := v, cur, Str, j;
    }

    /** The token from position `j` on, read with assignments switched off. */
    method LookAhead(j: nat) returns (r: Out<Tok>)
      requires Valid() && tp < j <= |text|
      modifies this
      ensures match Expr.ReadTok(old(Globals()).(tp := j, noeval := 1, cur := Str), |old(stack)|)
        case Err(e) => r == Jump && env == e
        case Ok(s) => r == Done(s.cur) && Globals() == old(Globals()).(env := s.env, assignop := s.assignop)
      ensures r.Done? ==> Valid() && stack == old(stack)
      decreases MAX_DEPTH - |stack|, |text| - j, 2
    {
      hide Expr.ReadTok, QuietFrom, QuietAt, QuietEnv;
      var saved := Globals();
      tp, noeval, cur := j, 1, Str;
      var peek :- ReadTok();
      RestoreTok(saved);
      r := Done(peek);
    }

    /** `expr_streval` of the current token. */
    method StrEval() returns (r: Out<int>)
      requires Valid()
      modifies this
      ensures Evaluates(r, Expr.StrEval(old(Globals()), |old(stack)|), old(Globals()))
      ensures r.Done? ==> stack == old(stack)
      decreases MAX_DEPTH - |stack|, 0, 1
    {
      hide Expr.SubExpr, QuietFrom, QuietAt, QuietEnv;
      if tokstr in env && env[tokstr] != "" {
        r := SubExpr(env[tokstr]);
      } else {
        r := Done(0);
      }
    }

    /** A nested evaluation changes only the variables and the operation of the last `op=`. */
    ghost predicate Evaluates(r: Out<int>, spec: Res<(int, Env, BinOp)>, s: State)
      reads this
    {
      match spec
      case Err(e) => r == Jump && env == e
      case Ok((v, e, op)) => r == Done(v) && Globals() == s.(env := e, assignop := op)
    }

    /** `pushexp`, then a new text to evaluate. */
    method PushExp(expr: string)
      requires |stack| < MAX_DEPTH
      modifies this
      ensures stack == old(stack) + [old(Globals())]
      ensures Globals() == State(expr, 0, Eof, Eof, old(assignop), "", 0, old(noeval), old(env))
    {
      stack := stack + [Globals()];
      text, tp, cur, last, tokstr, tokval := expr, 0, Eof, Eof, "", 0;
    }

    /** `popexp`. */
    method PopExp()
      requires stack != []
      modifies this
      ensures stack == old(stack)[..|old(stack)| - 1]
      ensures Globals() == old(stack)[|old(stack)| - 1].(env := old(env), assignop := old(assignop))
    {
      var context := stack[|stack| - 1];
      stack := stack[..|stack| - 1];
      text := context.text;
      RestoreTok(context);
    }

    /** `subexpr`. */
    method SubExpr(expr: string) returns (r: Out<int>)
      requires |stack| <= MAX_DEPTH
      modifies this
      ensures Evaluates(r, Expr.SubExpr(expr, old(env), old(noeval), old(assignop), |old(stack)|), old(Globals()))
      ensures r.Done? ==> stack == old(stack)
      decreases MAX_DEPTH - |stack|, 0, 0
    {
      hide Expr.ReadTok, Expr.ExpComma, SkipWhite, QuietFrom, QuietAt, QuietEnv, Quiet;
      if SkipWhite(expr, 0) == |expr| { return Done(0); }
      if |stack| >= MAX_DEPTH { return Jump; }
      PushExp(expr);
      var _ :- ReadTok();
      var v :- ExpComma();
      if cur != Eof { return Jump; }
      PopExp();
      r := Done(v);
    }

    // ---------- The grammar ----------

    /** `expcomma`. */
    method ExpComma() returns (r: Out<int>)
      requires Valid()
      modifies this
      ensures Does(r, Expr.ExpComma(old(Globals()), |old(stack)|))
      ensures r.Done? ==> Valid() && stack == old(stack)
      decreases MAX_DEPTH - |stack|, Left(Globals()) + 1, 53
    {
      hide Expr.ReadTok, Expr.ExpAssign, QuietFrom, QuietAt, QuietEnv;
      var value :- ExpAssign();
      while cur == Comma
        invariant Valid() && stack == old(stack) && text == old(text)
        invariant Expr.ExpComma(old(Globals()), |stack|) == Expr.CommaLoop(value, Globals(), |stack|)
        invariant Left(Globals()) < Left(old(Globals()))
        decreases Left(Globals())
      {
        var _ :- ReadTok();
        value :- ExpAssign();
      }
      r := Done(value);
    }

    /** The variable `name` gets the value `v`, unless assignments are switched off. */
    method Bind(name: string, v: int)
      modifies this
      ensures Globals() == Expr.Bind(old(Globals()), name, v) && stack == old(stack)
    {
      if noeval == 0 { env := env[name := Itos(v)]; }
    }

    /** `expassign`. */
    method ExpAssign() returns (r: Out<int>)
      requires Valid()
      modifies this
      ensures Does(r, Expr.ExpAssign(old(Globals()), |old(stack)|))
      ensures r.Done? ==> Valid() && stack == old(stack)
      decreases MAX_DEPTH - |stack|, Left(Globals()) + 1, 51
    {
      hide Expr.ExpCond, Expr.AssignRest, QuietFrom, QuietAt, QuietEnv;
      var value :- ExpCond();
      r := AssignRest(value);
    }

    method AssignRest(lvalue: int) returns (r: Out<int>)
      requires Valid()
      modifies this
      ensures Does(r, Expr.AssignRest(lvalue, old(Globals()), |old(stack)|))
      ensures r.Done? ==> Valid() && stack == old(stack)
      decreases MAX_DEPTH - |stack|, Left(Globals()) + 1, 50
    {
      hide Expr.ReadTok, Expr.ExpAssign, Expr.Bind, Binary, QuietFrom, QuietAt, QuietEnv;
      if cur != Eq && cur != OpAssign { return Done(lvalue); }
      var special, op := cur == OpAssign, assignop;
      if last != Str { return Jump; }
      var lhs := tokstr;
      var _ :- ReadTok();
      var value :- ExpAssign();
      var result := if special then Binary(op, lvalue, value) else Some(value);
      if result.None? { return Jump; }
      Bind(lhs, result.value);
      tokstr := "";
      r := Done(result.value);
    }

    /** Read on with assignments switched off if `off`. */
    method Muffle(off: bool)
      modifies this
      ensures Globals() == Expr.Muffle(old(Globals()), off) && stack == old(stack)
    {
      if off { noeval := noeval + 1; }
    }

    method Unmuffle(off: bool)
      modifies this
      ensures Globals() == Expr.Unmuffle(old(Globals()), off) && stack == old(stack)
    {
      if off && noeval > 0 { noeval := noeval - 1; }
    }

    /** `expcond`. */
    method ExpCond() returns (r: Out<int>)
      requires Valid()
      modifies this
      ensures Does(r, Expr.ExpCond(old(Globals()), |old(stack)|))
      ensures r.Done? ==> Valid() && stack == old(stack)
      decreases MAX_DEPTH - |stack|, Left(Globals()) + 1, 50
    {
      hide Expr.ReadTok, Expr.ExpBin, Expr.ExpComma, Expr.CondRest, QuietFrom, QuietAt, QuietEnv;
      var cval :- ExpBin(3);
      r := CondRest(cval);
    }

    method CondRest(cval: int) returns (r: Out<int>)
      requires Valid()
      modifies this
      ensures Does(r, Expr.CondRest(cval, old(Globals()), |old(stack)|))
      ensures r.Done? ==> Valid() && stack == old(stack)
      decreases MAX_DEPTH - |stack|, Left(Globals()) + 1, 49
    {
      hide Expr.ReadTok, Expr.ElseRest, Expr.ExpComma, Expr.Muffle, Expr.Unmuffle, QuietFrom, QuietAt, QuietEnv;
      if cur != Ques { return Done(cval); }
      var _ :- ReadTok();
      if cur == Eof || cur == Col { return Jump; }
      Muffle(cval == 0);
      var val1 :- ExpComma();
      Unmuffle(cval == 0);
      r := ElseRest(cval, val1);
    }

    method ElseRest(cval: int, val1: int) returns (r: Out<int>)
      requires Valid()
      modifies this
      ensures Does(r, Expr.ElseRest(cval, val1, old(Globals()), |old(stack)|))
      ensures r.Done? ==> Valid() && stack == old(stack)
      decreases MAX_DEPTH - |stack|, Left(Globals()) + 1, 49
    {
      hide Expr.ReadTok, Expr.ExpCond, Expr.Muffle, Expr.Unmuffle, QuietFrom, QuietAt, QuietEnv;
      if cur != Col { return Jump; }
      var _ :- ReadTok();
      if cur == Eof { return Jump; }
      Muffle(cval != 0);
      var val2 :- ExpCond();
      Unmuffle(cval != 0);
      last := Cond;
      r := Done(if cval != 0 then val1 else val2);
    }

    /** `explor` to `exp2`: one loop for each left-associative level. */
    method ExpBin(k: nat) returns (r: Out<int>)
      requires Valid() && 3 <= k <= 12
      modifies this
      ensures Does(r, Expr.ExpBin(k, old(Globals()), |old(stack)|))
      ensures r.Done? ==> Valid() && stack == old(stack)
      decreases MAX_DEPTH - |stack|, Left(Globals()) + 1, 50 - 2 * k
    {
      hide Expr.ReadTok, Expr.Operand, Expr.BinLoop, QuietFrom, QuietAt, QuietEnv;
      var val1 :- Operand(k);
      while cur.Op? && Level(cur.op) == k
        invariant Valid() && stack == old(stack) && text == old(text)
        invariant Expr.ExpBin(k, old(Globals()), |stack|) == Expr.BinLoop(k, val1, Globals(), |stack|)
        invariant Left(Globals()) < Left(old(Globals()))
        decreases Left(Globals())
      {
        val1 :- BinRound(k, val1);
      }
      BinLoopEnds(k, val1, Globals(), |stack|);
      r := Done(val1);
    }

    /** One round of such a loop. */
    method BinRound(k: nat, val: int) returns (r: Out<int>)
      requires Valid() && 3 <= k <= 12 && cur.Op? && Level(cur.op) == k
      modifies this
      ensures r == Jump ==> Expr.BinLoop(k, val, old(Globals()), |old(stack)|) == Err(env)
      ensures r.Done? ==> Valid() && stack == old(stack) && Left(Globals()) < Left(old(Globals()))
      ensures r.Done? ==> text == old(text)
      ensures r.Done? ==> Expr.BinLoop(k, val, old(Globals()), |stack|) == Expr.BinLoop(k, r.value, Globals(), |stack|)
      decreases MAX_DEPTH - |stack|, Left(Globals()) + 1, 26
    {
      hide Expr.ReadTok, Expr.Operand, Expr.Muffle, Expr.Unmuffle, Skips, Binary, Level, QuietFrom, QuietAt, QuietEnv;
      var op := cur.op;
      var setNoeval := Skips(op, val);
      Muffle(setNoeval);
      var _ :- ReadTok();
      var val2 :- Operand(k);
      Unmuffle(setNoeval);
      var result := Binary(op, val, val2);
      if result.None? { return Jump; }
      if op == Lor || op == Land { last := Op(op); }
      r := Done(result.value);
    }

    method Operand(k: nat) returns (r: Out<int>)
      requires Valid() && 3 <= k <= 12
      modifies this
      ensures Does(r, Expr.Operand(k, old(Globals()), |old(stack)|))
      ensures r.Done? ==> Valid() && stack == old(stack)
      decreases MAX_DEPTH - |stack|, Left(Globals()) + 1, 49 - 2 * k
    {
      hide Expr.ExpBin, Expr.ExpPower, QuietFrom, QuietAt, QuietEnv;
      if k < 12 { r := ExpBin(k + 1); } else { r := ExpPower(); }
    }

    /** `exppower`. */
    method ExpPower() returns (r: Out<int>)
      requires Valid()
      modifies this
      ensures Does(r, Expr.ExpPower(old(Globals()), |old(stack)|))
      ensures r.Done? ==> Valid() && stack == old(stack)
      decreases MAX_DEPTH - |stack|, Left(Globals()) + 1, 12
    {
      hide Expr.ReadTok, Expr.Exp1, Expr.PowerLoop, QuietFrom, QuietAt, QuietEnv;
      var val1 :- Exp1();
      r := PowerLoop(val1);
    }

    method PowerLoop(val: int) returns (r: Out<int>)
      requires Valid()
      modifies this
      ensures Does(r, Expr.PowerLoop(val, old(Globals()), |old(stack)|))
      ensures r.Done? ==> Valid() && stack == old(stack)
      decreases MAX_DEPTH - |stack|, Left(Globals()) + 1, 11
    {
      hide Expr.ReadTok, Expr.ExpPower, Binary, QuietFrom, QuietAt, QuietEnv;
      var val1 := val;
      while cur == Op(Power)
        invariant Valid() && stack == old(stack) && text == old(text)
        invariant Expr.PowerLoop(val, old(Globals()), |stack|) == Expr.PowerLoop(val1, Globals(), |stack|)
        invariant Left(Globals()) <= Left(old(Globals()))
        decreases Left(Globals())
      {
        var _ :- ReadTok();
        var val2 :- ExpPower();
        if val2 == 0 { return Done(1); }
        val1 :- Raise(val1, val2);
      }
      r := Done(val1);
    }

    /** `val1` to the power of `val2`, which the source computes by repeated multiplication. */
    method Raise(val1: int, val2: int) returns (r: Out<int>)
      ensures match Binary(Power, val1, val2) case None => r == Jump case Some(c) => r == Done(c)
    {
      if val2 < 0 { return Jump; }
      var c, i := 1, val2;
      while i != 0
        invariant 0 <= i <= val2 && c == Pow(val1, val2 - i)
      {
        c, i := c * val1, i - 1;
      }
      r := Done(c);
    }

    /** `exp1`. */
    method Exp1() returns (r: Out<int>)
      requires Valid()
      modifies this
      ensures Does(r, Expr.Exp1(old(Globals()), |old(stack)|))
      ensures r.Done? ==> Valid() && stack == old(stack)
      decreases MAX_DEPTH - |stack|, Left(Globals()) + 1, 10
    {
      hide Expr.ReadTok, Expr.Exp0, QuietFrom, QuietAt, QuietEnv;
      var op := UnaryOp(cur);
      if op.Some? {
        var _ :- ReadTok();
        var v :- Exp1();
        r := Done(Unary(op.value, v));
      } else {
        r := Exp0();
      }
    }

    /** `exp0`. */
    method Exp0() returns (r: Out<int>)
      requires Valid()
      modifies this
      ensures Does(r, Expr.Exp0(old(Globals()), |old(stack)|))
      ensures r.Done? ==> Valid() && stack == old(stack)
      decreases MAX_DEPTH - |stack|, Left(Globals()) + 1, 9
    {
      hide Expr.ReadTok, Expr.ExpComma, Expr.PreStep, Expr.StrRest, QuietFrom, QuietAt, QuietEnv;
      if cur == PreInc {
        r := PreStep(1);
      } else if cur == PreDec {
        r := PreStep(-1);
      } else if cur == LPar {
        var _ :- ReadTok();
        var v :- ExpComma();
        if cur != RPar { return Jump; }
        var _ :- ReadTok();
        r := Done(v);
      } else if cur == Num {
        var v := tokval;
        var _ :- ReadTok();
        r := Done(v);
      } else if cur == Str {
        r := StrRest();
      } else {
        r := Jump;
      }
    }

    method PreStep(step: int) returns (r: Out<int>)
      requires Valid() && cur in {PreInc, PreDec}
      modifies this
      ensures Does(r, Expr.PreStep(old(Globals()), step, |old(stack)|))
      ensures r.Done? ==> Valid() && stack == old(stack)
      decreases MAX_DEPTH - |stack|, Left(Globals()) + 1, 8
    {
      hide Expr.ReadTok, Expr.Bind, QuietFrom, QuietAt, QuietEnv;
      MarkStep();
      var _ :- ReadTok();
      if cur != Str { return Jump; }
      r := StepToken(tokval + step);
    }

    method MarkStep()
      modifies this
      ensures Globals() == old(Globals()).(last := old(cur)) && stack == old(stack)
    {
      last := cur;
    }

    /** The variable just read gets the value `v`. */
    method StepToken(v: int) returns (r: Out<int>)
      requires Valid() && cur != Eof
      modifies this
      ensures match Expr.ReadTok(Expr.Bind(old(Globals()), old(tokstr), v).(cur := Num), |old(stack)|)
        case Err(e) => r == Jump && env == e
        case Ok(s) => r == Done(v) && Globals() == s
      ensures r.Done? ==> Valid() && stack == old(stack)
      decreases MAX_DEPTH - |stack|, Left(Globals()) + 1, 7
    {
      hide Expr.ReadTok, Expr.Bind, QuietFrom, QuietAt, QuietEnv;
      Store(v);
      var _ :- ReadTok();
      r := Done(v);
    }

    /** A variable, which `++` or `--` may follow. */
    method StrRest() returns (r: Out<int>)
      requires Valid() && cur == Str
      modifies this
      ensures Does(r, Expr.StrRest(old(Globals()), |old(stack)|))
      ensures r.Done? ==> Valid() && stack == old(stack)
      decreases MAX_DEPTH - |stack|, Left(Globals()) + 1, 8
    {
      hide Expr.ReadTok, Expr.Bind, QuietFrom, QuietAt, QuietEnv;
      var val := tokval;
      var _ :- PostStep();
      var _ :- ReadTok();
      r := Done(val);
    }

    /** `++` or `--` behind a variable takes effect; another token is left for later. */
    method PostStep() returns (r: Out<Tok>)
      requires Valid() && cur == Str
      modifies this
      ensures match Expr.StepAfter(old(Globals()), |old(stack)|)
        case Err(e) => r == Jump && env == e
        case Ok(s) => r.Done? && Globals() == s
      ensures r.Done? ==> Valid() && stack == old(stack)
      decreases MAX_DEPTH - |stack|, Left(Globals()) + 1, 7
    {
      hide Expr.ReadTok, Expr.Bind, QuietFrom, QuietAt, QuietEnv;
      var saved := Globals();
      Quieten();
      var stok :- ReadTok();
      if stok == PostInc || stok == PostDec {
        Step(saved, if stok == PostInc then 1 else -1);
      } else {
        RestoreTok(saved);
      }
      r := Done(stok);
    }

    method Quieten()
      modifies this
      ensures Globals() == old(Globals()).(tokstr := "", noeval := 1) && stack == old(stack)
    {
      tokstr, noeval := "", 1;
    }

    /** The variable of the saved context gets its new value. */
    method Step(saved: State, step: int)
      modifies this
      ensures stack == old(stack)
      ensures Globals() == Expr.Bind(old(Globals()).(tokstr := saved.tokstr, noeval := saved.noeval, last := Str),
                                     saved.tokstr, saved.tokval + step).(cur := Num)
    {
      hide Expr.Bind, QuietFrom, QuietAt, QuietEnv;
      tokstr, noeval, last := saved.tokstr, saved.noeval, Str;
      Store(saved.tokval + step);
    }

    /** The variable of the current token gets a value; the token now counts as a number. */
    method Store(v: int)
      modifies this
      ensures Globals() == Expr.Bind(old(Globals()), old(tokstr), v).(cur := Num) && stack == old(stack)
    {
      hide Expr.Bind, QuietFrom, QuietAt, QuietEnv;
      Bind(tokstr, v);
      cur := Num;
    }

    /** `evalexp` at the outermost level. */
    method EvalExp(expr: string) returns (v: int, valid: bool)
      requires stack == []
      modifies this
      ensures match Eval(expr, old(env), old(assignop))
        case Err(env') => !valid && v == 0 && env == env'
        case Ok((v', env')) => valid && v == v' && env == env'
      ensures stack == [] && (!valid ==> noeval == 0)
    {
      hide Expr.SubExpr, QuietFrom, QuietAt, QuietEnv;
      noeval := 0;
      var r := SubExpr(expr);
      if r.Jump? {
        tokstr, text, stack, noeval := "", "", [], 0;
        return 0, false;
      }
      return r.value, true;
    }
  }
}
