/** Evaluation of shell arithmetic (ipc/bash-4.2/expr.c): the tokenizer and the recursive descent.

    The source keeps its position, current token and so on in globals; here they are a state that is
    passed along. `Err` stands for the long jump out of an evaluation, with the variables as they are then.
    Array subscripts are an error. */
module Expr {
  import opened Common
  import opened Arithmetic

  datatype Tok =
    | Eof | Str | Num | Eq | OpAssign | PreInc | PreDec | PostInc | PostDec
    | LPar | RPar | Ques | Col | Comma | Bang | Tilde | Op(op: BinOp) | Cond

  type Env = map<string, string>

  /** `assignop` is the operation of the last `op=` token read. */
  datatype State = State(text: string, tp: nat, cur: Tok, last: Tok, assignop: BinOp,
                         tokstr: string, tokval: int, noeval: nat, env: Env)

  datatype Res<+T> = Err(env: Env) | Ok(value: T) {
    predicate IsFailure() { Err? }
    function PropagateFailure<U>(): Res<U> requires Err? { Err(env) }
    function Extract(): T requires Ok? { value }
  }

  const MAX_DEPTH := 1024

  predicate White(c: char) { c == ' ' || c == '\t' || c == '\n' }

  predicate VarStart(c: char) { IsAlpha(c) || c == '_' }

  predicate VarChar(c: char) { IsAlpha(c) || IsDigit(c) || c == '_' }

  predicate NumChar(c: char) { VarChar(c) || c == '#' || c == '@' }

  function SkipWhite(text: string, i: nat): (r: nat)
    requires i <= |text|
    ensures i <= r <= |text|
    decreases |text| - i
  {
    if i < |text| && White(text[i]) then SkipWhite(text, i + 1) else i
  }

  function SkipVar(text: string, i: nat): (r: nat)
    requires i <= |text|
    ensures i <= r <= |text|
    ensures i < |text| && VarChar(text[i]) ==> i < r
    decreases |text| - i
  {
    if i < |text| && VarChar(text[i]) then SkipVar(text, i + 1) else i
  }

  function SkipNum(text: string, i: nat): (r: nat)
    requires i <= |text|
    ensures i <= r <= |text|
    ensures i < |text| && NumChar(text[i]) ==> i < r
    decreases |text| - i
  {
    if i < |text| && NumChar(text[i]) then SkipNum(text, i + 1) else i
  }

  /** The operator token at `i`, its length, and its operation if it is `op=`; `varBefore` says that
      the current token is a variable. */
  function ReadOp(text: string, i: nat, varBefore: bool): (r: Option<(Tok, nat, BinOp)>)
    requires i < |text|
    ensures r.Some? ==> 1 <= r.value.1 <= |text| - i && r.value.0 != Eof && r.value.0 != Str
  {
    var c, c1, c2 := text[i], At(text, i + 1), At(text, i + 2);
    if c == '=' && c1 == '=' then Some((Op(EqEq), 2, Plus))
    else if c == '!' && c1 == '=' then Some((Op(Neq), 2, Plus))
    else if c == '>' && c1 == '=' then Some((Op(Geq), 2, Plus))
    else if c == '<' && c1 == '=' then Some((Op(Leq), 2, Plus))
    else if c == '<' && c1 == '<' then (if c2 == '=' then Some((OpAssign, 3, Lsh)) else Some((Op(Lsh), 2, Plus)))
    else if c == '>' && c1 == '>' then (if c2 == '=' then Some((OpAssign, 3, Rsh)) else Some((Op(Rsh), 2, Plus)))
    else if c == '&' && c1 == '&' then Some((Op(Land), 2, Plus))
    else if c == '|' && c1 == '|' then Some((Op(Lor), 2, Plus))
    else if c == '*' && c1 == '*' then Some((Op(Power), 2, Plus))
    else if (c == '-' || c == '+') && c1 == c && varBefore then
      Some((if c == '-' then PostDec else PostInc, 2, Plus))
    else if (c == '-' || c == '+') && c1 == c then
      var xp := SkipWhite(text, i + 2);
      if VarStart(At(text, xp)) then Some((if c == '-' then PreDec else PreInc, 2, Plus))
      else Some((if c == '-' then Op(Minus) else Op(Plus), 1, Plus))
    else if c1 == '=' && AssignOp(c).Some? then Some((OpAssign, 2, AssignOp(c).value))
    else match OneChar(c)
      case None => None
      case Some(t) => Some((t, 1, Plus))
  }

  function AssignOp(c: char): Option<BinOp> {
    match c
    case '*' => Some(Mul) case '/' => Some(Div) case '%' => Some(Mod) case '+' => Some(Plus)
    case '-' => Some(Minus) case '&' => Some(Band) case '^' => Some(Bxor) case '|' => Some(Bor)
    case _ => None
  }

  function OneChar(c: char): (r: Option<Tok>)
    ensures r.Some? ==> r.value != Eof && r.value != Str
  {
    match c
    case '=' => Some(Eq) case '>' => Some(Op(Gt)) case '<' => Some(Op(Lt)) case '+' => Some(Op(Plus))
    case '-' => Some(Op(Minus)) case '*' => Some(Op(Mul)) case '/' => Some(Op(Div)) case '%' => Some(Op(Mod))
    case '!' => Some(Bang) case '(' => Some(LPar) case ')' => Some(RPar) case '&' => Some(Op(Band))
    case '|' => Some(Op(Bor)) case '^' => Some(Op(Bxor)) case '~' => Some(Tilde)
    case '?' => Some(Ques) case ':' => Some(Col) case ',' => Some(Comma)
    case _ => None
  }

  // ---------- Text without assignments ----------

  predicate Assigning(t: Tok) {
    t in {Eq, OpAssign, PreInc, PreDec, PostInc, PostDec}
  }

  /** No token from `i` on assigns to a variable. */
  predicate QuietFrom(text: string, i: nat, varBefore: bool)
    requires i <= |text|
    decreases |text| - i, 1
  {
    var j := SkipWhite(text, i);
    j == |text| || QuietAt(text, j, varBefore)
  }

  predicate QuietAt(text: string, i: nat, varBefore: bool)
    requires i < |text|
    decreases |text| - i, 0
  {
    if VarStart(text[i]) then QuietFrom(text, SkipVar(text, i), true)
    else if IsDigit(text[i]) then QuietFrom(text, SkipNum(text, i), false)
    else
      match ReadOp(text, i, varBefore)
      case None => true
      case Some((t, n, _)) => !Assigning(t) && QuietFrom(text, i + n, false)
  }

  /** No variable holds text with an assignment operator, `++` or `--`. */
  predicate QuietEnv(env: Env) {
    forall x :: x in env ==> QuietFrom(env[x], 0, false)
  }

  // ---------- What every step keeps ----------

  ghost predicate Good(s: State) { s.tp <= |s.text| }

  /** What is left to read, the current token included. */
  function Left(s: State): nat
    requires Good(s)
  {
    |s.text| - s.tp + if s.cur == Eof then 0 else 1
  }

  /** Nothing assigns in what is left to read, the current token included. */
  ghost predicate Quiet(s: State)
    requires Good(s)
  {
    QuietFrom(s.text, s.tp, s.cur == Str) && !Assigning(s.cur)
  }

  /** Nothing but reading: `noeval` is as it was, and no variable changes while it is not zero, or if
      nothing assigns here and in the values of variables. */
  ghost predicate Keeps(s: State, s': State)
    requires Good(s)
  {
    && Good(s') && s'.text == s.text && s'.noeval == s.noeval
    && (s.noeval > 0 ==> s'.env == s.env)
    && (Quiet(s) && QuietEnv(s.env) ==> s'.env == s.env && Quiet(s'))
  }

  /** The same for a failure that leaves the variables as in `env`. */
  ghost predicate Harms(s: State, env: Env)
    requires Good(s)
  {
    env != s.env ==> s.noeval == 0 && !(Quiet(s) && QuietEnv(s.env))
  }

  // ---------- Tokens ----------

  /** `readtok`. */
  function ReadTok(s: State, d: nat): (r: Res<State>)
    requires Good(s) && d <= MAX_DEPTH
    ensures r.Ok? ==> Keeps(s, r.value) && r.value.tp >= s.tp && (QuietEnv(s.env) ==> r.value.env == s.env)
    ensures r.Ok? && QuietFrom(s.text, s.tp, s.cur == Str) ==> Quiet(r.value)
    ensures r.Ok? && r.value.cur != Eof ==> r.value.tp > s.tp
    ensures r.Ok? && s.cur != Eof ==> Left(r.value) < Left(s)
    ensures r.Err? && (s.noeval > 0 || QuietEnv(s.env)) ==> r.env == s.env
    decreases MAX_DEPTH - d, |s.text| - s.tp, 1
  {
    var i := SkipWhite(s.text, s.tp);
    if i == |s.text| then Ok(s.(last := s.cur, cur := Eof, tp := i)) else TokenAt(s, i, d)
  }

  /** The token that starts at `i`. */
  function TokenAt(s: State, i: nat, d: nat): (r: Res<State>)
    requires d <= MAX_DEPTH && s.tp <= i < |s.text|
    ensures r.Ok? ==> r.value.text == s.text && r.value.noeval == s.noeval && i < r.value.tp <= |s.text|
    ensures r.Ok? && (s.noeval > 0 || QuietEnv(s.env)) ==> r.value.env == s.env
    ensures r.Ok? ==> r.value.cur != Eof && (QuietAt(s.text, i, s.cur == Str) ==> Quiet(r.value))
    ensures r.Err? && (s.noeval > 0 || QuietEnv(s.env)) ==> r.env == s.env
    decreases MAX_DEPTH - d, |s.text| - i, 0
  {
    if VarStart(s.text[i]) then
      var j := SkipVar(s.text, i);
      if At(s.text, j) == '[' then Err(s.env) else VariableRead(s, s.text[i..j], j, d)
    else if IsDigit(s.text[i]) then NumberRead(s, i)
    else OperatorRead(s, i)
  }

  /** A token that is not a variable has been read at `i`. */
  ghost predicate Plainly(s: State, s': State, i: nat)
    requires s.tp <= i < |s.text|
  {
    && s'.text == s.text && s'.noeval == s.noeval && s'.env == s.env && i < s'.tp <= |s.text|
    && s'.cur != Eof && (QuietAt(s.text, i, s.cur == Str) ==> Quiet(s'))
  }

  function NumberRead(s: State, i: nat): (r: Res<State>)
    requires s.tp <= i < |s.text| && IsDigit(s.text[i])
    ensures if r.Ok? then Plainly(s, r.value, i) else r.env == s.env
  {
    var j := SkipNum(s.text, i);
    match Strlong(s.text[i..j])
    case None => Err(s.env)
    case Some(v) => Ok(s.(tokval := v, last := s.cur, cur := Num, tp := j))
  }

  function OperatorRead(s: State, i: nat): (r: Res<State>)
    requires s.tp <= i < |s.text| && !VarStart(s.text[i]) && !IsDigit(s.text[i])
    ensures if r.Ok? then Plainly(s, r.value, i) else r.env == s.env
  {
    match ReadOp(s.text, i, s.cur == Str)
    case None => Err(s.env)
    case Some((tok, n, op)) =>
      Ok(s.(last := s.cur, cur := tok, tp := i + n, assignop := if tok == OpAssign then op else s.assignop))
  }

  /** A variable has been read up to `j`. */
  ghost predicate Fetched(s: State, s': State, j: nat) {
    && s'.text == s.text && s'.noeval == s.noeval && s'.tp == j && s'.cur == Str
    && (s.noeval > 0 || QuietEnv(s.env) ==> s'.env == s.env)
  }

  /** The variable `name`, which ends at `j`: its value is wanted unless an assignment follows. */
  function VariableRead(s: State, name: string, j: nat, d: nat): (r: Res<State>)
    requires d <= MAX_DEPTH && s.tp < j <= |s.text|
    ensures if r.Ok? then Fetched(s, r.value, j) else s.noeval > 0 || QuietEnv(s.env) ==> r.env == s.env
    decreases MAX_DEPTH - d, |s.text| - j, 3
  {
    // look ahead with assignments switched off, then restore all but the variables
    var peek :- ReadTok(s.(tokstr := name, tp := j, noeval := 1, cur := Str), d);
    ValueFetched(s.(tokstr := name, env := peek.env, assignop := peek.assignop), j, peek.cur, d)
  }

  /** The value of the variable just read, which ends at `j`, unless it is about to be assigned to. */
  function ValueFetched(s: State, j: nat, peek: Tok, d: nat): (r: Res<State>)
    requires d <= MAX_DEPTH && j <= |s.text|
    ensures if r.Ok? then Fetched(s, r.value, j) else s.noeval > 0 || QuietEnv(s.env) ==> r.env == s.env
    decreases MAX_DEPTH - d, |s.text| - j, 2
  {
    if s.last == PreInc || s.last == PreDec || peek != Eq then
      var (v, env, op) :- StrEval(s, d);
      Ok(s.(tokval := v, env := env, assignop := op, last := s.cur, cur := Str, tp := j))
    else Ok(s.(tokval := 0, last := s.cur, cur := Str, tp := j))
  }

  /** `expr_streval`: the value of the variable `tokstr` is an expression in turn. */
  function StrEval(s: State, d: nat): (r: Res<(int, Env, BinOp)>)
    requires d <= MAX_DEPTH
    ensures s.noeval > 0 || QuietEnv(s.env) ==> EnvOf(r) == s.env
    decreases MAX_DEPTH - d, 0, 1
  {
    if s.tokstr in s.env && s.env[s.tokstr] != "" then SubExpr(s.env[s.tokstr], s.env, s.noeval, s.assignop, d)
    else Ok((0, s.env, s.assignop))
  }

  /** The variables after a nested evaluation, failed or not. */
  function EnvOf(r: Res<(int, Env, BinOp)>): Env {
    match r case Err(env) => env case Ok((_, env, _)) => env
  }

  /** `subexpr`: evaluate a whole text one level down. */
  function SubExpr(text: string, env: Env, noeval: nat, op: BinOp, d: nat): (r: Res<(int, Env, BinOp)>)
    requires d <= MAX_DEPTH
    ensures noeval > 0 || (QuietEnv(env) && QuietFrom(text, 0, false)) ==> EnvOf(r) == env
    decreases MAX_DEPTH - d, 0, 0
  {
    if SkipWhite(text, 0) == |text| then Ok((0, env, op))
    else if d >= MAX_DEPTH then Err(env)
    else
      var s :- ReadTok(State(text, 0, Eof, Eof, op, "", 0, noeval, env), d + 1);
      var (v, s1) :- ExpComma(s, d + 1);
      if s1.cur != Eof then Err(s1.env) else Ok((v, s1.env, s1.assignop))
  }

  // ---------- The grammar ----------

  /** A value and the state behind the expression it belongs to. */
  type Val = (int, State)

  ghost predicate Parsed(s: State, r: Res<Val>)
    requires Good(s)
  {
    if r.Ok? then Keeps(s, r.value.1) && Left(r.value.1) < Left(s) else Harms(s, r.env)
  }

  ghost predicate Continued(s: State, r: Res<Val>)
    requires Good(s)
  {
    if r.Ok? then Keeps(s, r.value.1) && Left(r.value.1) <= Left(s) else Harms(s, r.env)
  }

  /** `expcomma`. */
  function ExpComma(s: State, d: nat): (r: Res<Val>)
    requires Good(s) && d <= MAX_DEPTH
    ensures Parsed(s, r)
    decreases MAX_DEPTH - d, Left(s) + 1, 53
  {
    var (v, s1) :- ExpAssign(s, d);
    CommaLoop(v, s1, d)
  }

  function CommaLoop(v: int, s: State, d: nat): (r: Res<Val>)
    requires Good(s) && d <= MAX_DEPTH
    ensures Continued(s, r)
    decreases MAX_DEPTH - d, Left(s) + 1, 52
  {
    if s.cur != Comma then Ok((v, s)) else
      var s1 :- ReadTok(s, d);
      var (v2, s2) :- ExpAssign(s1, d);
      CommaLoop(v2, s2, d)
  }

  /** A variable gets a value, unless assignments are switched off. */
  function Bind(s: State, name: string, v: int): (r: State)
    ensures r == s.(env := r.env) && (s.noeval > 0 ==> r == s)
  {
    if s.noeval == 0 then s.(env := s.env[name := Itos(v)]) else s
  }

  /** `expassign`. */
  function ExpAssign(s: State, d: nat): (r: Res<Val>)
    requires Good(s) && d <= MAX_DEPTH
    ensures Parsed(s, r)
    decreases MAX_DEPTH - d, Left(s) + 1, 51
  {
    var (v, s1) :- ExpCond(s, d);
    AssignRest(v, s1, d)
  }

  /** From the operator of an assignment on. */
  function AssignRest(v: int, s: State, d: nat): (r: Res<Val>)
    requires Good(s) && d <= MAX_DEPTH
    ensures Continued(s, r)
    decreases MAX_DEPTH - d, Left(s) + 1, 50
  {
    if s.cur != Eq && s.cur != OpAssign then Ok((v, s))
    else if s.last != Str then Err(s.env)
    else
      var s1 :- ReadTok(s, d);
      var (v1, s2) :- ExpAssign(s1, d);
      match (if s.cur == OpAssign then Binary(s.assignop, v, v1) else Some(v1))
      case None => Err(s2.env)
      case Some(v2) => Ok((v2, Bind(s2, s.tokstr, v2).(tokstr := "")))
  }

  /** Read on with assignments switched off if `off`. */
  function Muffle(s: State, off: bool): (r: State)
    ensures r == s.(noeval := r.noeval)
  {
    if off then s.(noeval := s.noeval + 1) else s
  }

  function Unmuffle(s: State, off: bool): (r: State)
    ensures r == s.(noeval := r.noeval)
  {
    if off && s.noeval > 0 then s.(noeval := s.noeval - 1) else s
  }

  /** `expcond`. */
  function ExpCond(s: State, d: nat): (r: Res<Val>)
    requires Good(s) && d <= MAX_DEPTH
    ensures Parsed(s, r)
    decreases MAX_DEPTH - d, Left(s) + 1, 50
  {
    var (c, s1) :- ExpBin(3, s, d);
    CondRest(c, s1, d)
  }

  function CondRest(c: int, s: State, d: nat): (r: Res<Val>)
    requires Good(s) && d <= MAX_DEPTH
    ensures Continued(s, r)
    decreases MAX_DEPTH - d, Left(s) + 1, 49
  {
    if s.cur != Ques then Ok((c, s)) else
      // the first token of each arm is read before assignments are switched off for it
      var s1 :- ReadTok(s, d);
      if s1.cur == Eof || s1.cur == Col then Err(s1.env) else
        var (v1, s2) :- ExpComma(Muffle(s1, c == 0), d);
        ElseRest(c, v1, Unmuffle(s2, c == 0), d)
  }

  /** From the colon of a conditional on. */
  function ElseRest(c: int, v1: int, s: State, d: nat): (r: Res<Val>)
    requires Good(s) && d <= MAX_DEPTH
    ensures Continued(s, r)
    decreases MAX_DEPTH - d, Left(s) + 1, 49
  {
    if s.cur != Col then Err(s.env) else
      var s1 :- ReadTok(s, d);
      if s1.cur == Eof then Err(s1.env) else
        var (v2, s2) :- ExpCond(Muffle(s1, c != 0), d);
        Ok((if c != 0 then v1 else v2, Unmuffle(s2, c != 0).(last := Cond)))
  }

  /** The level of the grammar at which a binary operator is parsed. */
  function Level(op: BinOp): nat {
    match op
    case Lor => 3 case Land => 4 case Bor => 5 case Bxor => 6 case Band => 7
    case EqEq => 8 case Neq => 8
    case Leq => 9 case Geq => 9 case Lt => 9 case Gt => 9
    case Lsh => 10 case Rsh => 10
    case Plus => 11 case Minus => 11
    case Mul => 12 case Div => 12 case Mod => 12
    case Power => 13
  }

  /** `explor`, `expland`, `expbor`, `expbxor`, `expband`, `exp5`, `exp4`, `expshift`, `exp3` and
      `exp2`: the left-associative levels 3 to 12. */
  function ExpBin(k: nat, s: State, d: nat): (r: Res<Val>)
    requires Good(s) && d <= MAX_DEPTH && 3 <= k <= 12
    ensures Parsed(s, r)
    decreases MAX_DEPTH - d, Left(s) + 1, 50 - 2 * k
  {
    var (v, s1) :- Operand(k, s, d);
    BinLoop(k, v, s1, d)
  }

  /** An operand at level `k`: an expression of the next level. */
  function Operand(k: nat, s: State, d: nat): (r: Res<Val>)
    requires Good(s) && d <= MAX_DEPTH && 3 <= k <= 12
    ensures Parsed(s, r)
    decreases MAX_DEPTH - d, Left(s) + 1, 49 - 2 * k
  {
    if k < 12 then ExpBin(k + 1, s, d) else ExpPower(s, d)
  }

  /** The right operand of `||` after a true value, or of `&&` after a false one, has no effect. */
  predicate Skips(op: BinOp, v: int) {
    (op == Lor && v != 0) || (op == Land && v == 0)
  }

  function BinLoop(k: nat, v: int, s: State, d: nat): (r: Res<Val>)
    requires Good(s) && d <= MAX_DEPTH && 3 <= k <= 12
    ensures Continued(s, r)
    decreases MAX_DEPTH - d, Left(s) + 1, 26
  {
    if !(s.cur.Op? && Level(s.cur.op) == k) then Ok((v, s)) else
      var op := s.cur.op;
      var s1 :- ReadTok(Muffle(s, Skips(op, v)), d);
      var (v2, s2) :- Operand(k, s1, d);
      var s3 := Unmuffle(s2, Skips(op, v));
      var s4 := if op == Lor || op == Land then s3.(last := Op(op)) else s3;
      match Binary(op, v, v2)
      case None => Err(s4.env)
      case Some(v3) => BinLoop(k, v3, s4, d)
  }

  /** `exppower`. */
  function ExpPower(s: State, d: nat): (r: Res<Val>)
    requires Good(s) && d <= MAX_DEPTH
    ensures Parsed(s, r)
    decreases MAX_DEPTH - d, Left(s) + 1, 12
  {
    var (v, s1) :- Exp1(s, d);
    PowerLoop(v, s1, d)
  }

  function PowerLoop(v: int, s: State, d: nat): (r: Res<Val>)
    requires Good(s) && d <= MAX_DEPTH
    ensures Continued(s, r)
    decreases MAX_DEPTH - d, Left(s) + 1, 11
  {
    if s.cur != Op(Power) then Ok((v, s)) else
      var s1 :- ReadTok(s, d);
      var (v2, s2) :- ExpPower(s1, d);
      if v2 == 0 then Ok((1, s2)) else
        match Binary(Power, v, v2)
        case None => Err(s2.env)
        case Some(v3) => PowerLoop(v3, s2, d)
  }

  /** `exp1`. */
  function Exp1(s: State, d: nat): (r: Res<Val>)
    requires Good(s) && d <= MAX_DEPTH
    ensures Parsed(s, r)
    decreases MAX_DEPTH - d, Left(s) + 1, 10
  {
    match UnaryOp(s.cur)
    case Some(op) =>
      var s1 :- ReadTok(s, d);
      var (v, s2) :- Exp1(s1, d);
      Ok((Unary(op, v), s2))
    case None => Exp0(s, d)
  }

  function UnaryOp(t: Tok): Option<UnOp> {
    match t
    case Bang => Some(Not)
    case Tilde => Some(BNot)
    case Op(Minus) => Some(Neg)
    case Op(Plus) => Some(Pos)
    case _ => None
  }

  /** `exp0`. */
  function Exp0(s: State, d: nat): (r: Res<Val>)
    requires Good(s) && d <= MAX_DEPTH
    ensures Parsed(s, r)
    decreases MAX_DEPTH - d, Left(s) + 1, 9
  {
    match s.cur
    case PreInc => PreStep(s, 1, d)
    case PreDec => PreStep(s, -1, d)
    case LPar =>
      var s1 :- ReadTok(s, d);
      var (v, s2) :- ExpComma(s1, d);
      if s2.cur != RPar then Err(s2.env) else
        var s3 :- ReadTok(s2, d);
        Ok((v, s3))
    case Num =>
      var s1 :- ReadTok(s, d);
      Ok((s.tokval, s1))
    case Str =>
      StrRest(s, d)
    case _ => Err(s.env)
  }

  /** A variable, which `++` or `--` may follow. */
  function StrRest(s: State, d: nat): (r: Res<Val>)
    requires Good(s) && d <= MAX_DEPTH && s.cur == Str
    ensures Parsed(s, r)
    decreases MAX_DEPTH - d, Left(s) + 1, 8
  {
    var s1 :- StepAfter(s, d);
    var s2 :- ReadTok(s1, d);
    Ok((s.tokval, s2))
  }

  /** `++` or `--` behind a variable takes effect; another token is left for later. */
  function StepAfter(s: State, d: nat): (r: Res<State>)
    requires Good(s) && d <= MAX_DEPTH && s.cur == Str
    ensures if r.Ok? then Keeps(s, r.value) && r.value.cur != Eof && Left(r.value) <= Left(s) else Harms(s, r.env)
    decreases MAX_DEPTH - d, Left(s) + 1, 7
  {
    // look ahead with assignments switched off
    var peek :- ReadTok(s.(tokstr := "", noeval := 1), d);
    if peek.cur == PostInc || peek.cur == PostDec then
      var s1 := peek.(tokstr := s.tokstr, noeval := s.noeval, last := Str);
      Ok(Bind(s1, s.tokstr, s.tokval + if peek.cur == PostInc then 1 else -1).(cur := Num))
    else Ok(s.(env := peek.env, assignop := peek.assignop))
  }

  /** `++var` and `--var`. */
  function PreStep(s: State, step: int, d: nat): (r: Res<Val>)
    requires Good(s) && d <= MAX_DEPTH && s.cur in {PreInc, PreDec}
    ensures Parsed(s, r)
    decreases MAX_DEPTH - d, Left(s) + 1, 8
  {
    var s1 :- ReadTok(s.(last := s.cur), d);
    if s1.cur != Str then Err(s1.env) else
      var v := s1.tokval + step;
      var s2 :- ReadTok(Bind(s1, s1.tokstr, v).(cur := Num), d);
      Ok((v, s2))
  }

  /** `evalexp`: the value of an expression and the variables afterwards; `op` is the operation of the
      last `op=` token read in an earlier evaluation. */
  function Eval(text: string, env: Env, op: BinOp): Res<(int, Env)> {
    var (v, env', _) :- SubExpr(text, env, 0, op, 0);
    Ok((v, env'))
  }
}
